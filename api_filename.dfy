/**
 * The choice of file names an `MFTEntry` of libmft/api.py makes among its FILE_NAME
 * attributes: the main name, and one name per parent directory. Both are specified here
 * as functions over the list of FILE_NAME attributes in the order the entry keeps them.
 */
module ApiFileName {
  import opened Wrappers
  import opened ApiAttribute

  /** The attribute carries decoded FILE_NAME content. */
  predicate IsFileName(a: Attribute)
  {
    a.content.Some? && a.content.value.FileNameContent?
  }

  /** Every attribute of the list carries decoded FILE_NAME content. */
  predicate AllFileNames(g: seq<Attribute>)
  {
    forall a :: a in g ==> IsFileName(a)
  }

  /** `(parent_ref, parent_seq)` of a FILE_NAME attribute. */
  function ParentOf(a: Attribute): (nat, nat)
    requires IsFileName(a)
  {
    (a.content.value.fileName.parentRef, a.content.value.fileName.parentSeq)
  }

  /** The name space code of a FILE_NAME attribute. */
  function NameTypeOf(a: Attribute): nat
    requires IsFileName(a)
  {
    a.content.value.fileName.nameType
  }

  // ---------------------------------------------------------------------------
  // The main file name
  // ---------------------------------------------------------------------------

  /** `i` is the first position holding the lowest attribute id of `g`. */
  predicate FirstLowest(g: seq<Attribute>, i: nat)
  {
    && i < |g|
    && (forall j :: 0 <= j < |g| ==> g[i].header.attrId <= g[j].header.attrId)
    && (forall j :: 0 <= j < i ==> g[j].header.attrId > g[i].header.attrId)
  }

  /** The position of the attribute with the lowest id, the first one on a tie. */
  function LowestId(g: seq<Attribute>): (i: nat)
    requires g != []
    ensures FirstLowest(g, i)
    decreases |g|
  {
    if |g| == 1 then 0
    else
      var j := LowestId(g[..|g| - 1]);
      if g[|g| - 1].header.attrId < g[j].header.attrId then |g| - 1 else j
  }

  /**
   * The second pass of `get_main_filename_attr`, started from `cur`: an attribute with
   * the parent of `cur` takes its place when its name space code is lower. The result
   * is `cur` or a member of `g`, has the parent of `cur`, and no attribute of `g` with
   * that parent, nor `cur` itself, has a lower name space code.
   */
  function PickBest(g: seq<Attribute>, cur: Attribute): (r: Attribute)
    requires AllFileNames(g) && IsFileName(cur)
    ensures r == cur || r in g
    ensures IsFileName(r) && ParentOf(r) == ParentOf(cur) && NameTypeOf(r) <= NameTypeOf(cur)
    ensures forall a :: a in g && ParentOf(a) == ParentOf(cur) ==> NameTypeOf(r) <= NameTypeOf(a)
    decreases |g|
  {
    if g == [] then cur
    else
      var b := PickBest(g[..|g| - 1], cur);
      var last := g[|g| - 1];
      assert forall a :: a in g ==> a in g[..|g| - 1] || a == last;
      if ParentOf(b) == ParentOf(last) && NameTypeOf(last) < NameTypeOf(b) then last else b
  }

  /**
   * `get_main_filename_attr`: none without FILE_NAME attributes; otherwise the best
   * attribute, by name space code, with the parent of the attribute of lowest id.
   */
  function MainFilename(g: seq<Attribute>): (r: Option<Attribute>)
    requires AllFileNames(g)
  {
    if g == [] then None else Some(PickBest(g, g[LowestId(g)]))
  }

  /** The first pass of `get_main_filename_attr`: the first attribute of lowest id below `0xFFFFFFFF`. */
  method FirstLowestId(g: seq<Attribute>) returns (main: Option<Attribute>)
    requires forall a :: a in g ==> a.header.attrId < 0xFFFF_FFFF
    ensures main == if g == [] then None else Some(g[LowestId(g)])
  {
    var high := 0xFFFF_FFFF;
    main := None;
    for i := 0 to |g|
      invariant i == 0 ==> main.None? && high == 0xFFFF_FFFF
      invariant i > 0 ==> main == Some(g[LowestId(g[..i])]) && high == g[LowestId(g[..i])].header.attrId
    {
      assert g[..i + 1][..i] == g[..i];
      assert g[i] in g;
      if g[i].header.attrId < high {
        main := Some(g[i]);
        high := g[i].header.attrId;
      }
    }
    assert g[..|g|] == g;
  }

  /** The second pass of `get_main_filename_attr`, from `cur`. */
  method BestWithParent(g: seq<Attribute>, cur: Attribute) returns (best: Attribute)
    requires AllFileNames(g) && IsFileName(cur)
    ensures best == PickBest(g, cur)
  {
    best := cur;
    for i := 0 to |g|
      invariant best == PickBest(g[..i], cur)
    {
      assert g[..i + 1][..i] == g[..i];
      if ParentOf(best) == ParentOf(g[i]) && NameTypeOf(g[i]) < NameTypeOf(best) {
        best := g[i];
      }
    }
    assert g[..|g|] == g;
  }

  /**
   * The main file name is absent exactly for an empty list; otherwise it is a member of
   * the list, it shares its parent with the attribute of lowest id, and no attribute
   * with that parent has a lower name space code.
   */
  lemma {:induction false} MainFilenameOk(g: seq<Attribute>)
    requires AllFileNames(g)
    ensures MainFilename(g).None? <==> g == []
    ensures g != [] ==> var m := MainFilename(g).value;
      && m in g
      && ParentOf(m) == ParentOf(g[LowestId(g)])
      && (forall a :: a in g && ParentOf(a) == ParentOf(m) ==> NameTypeOf(m) <= NameTypeOf(a))
  {
    if g != [] {
      var low := g[LowestId(g)];
      assert low in g;
      var m := PickBest(g, low);
      assert m == MainFilename(g).value;
    }
  }

  // ---------------------------------------------------------------------------
  // One file name per parent
  // ---------------------------------------------------------------------------

  /** The position of the first attribute of `cs` whose parent is `p`. */
  function FindParent(cs: seq<Attribute>, p: (nat, nat)): (r: Option<nat>)
    requires AllFileNames(cs)
    ensures r.Some? ==> r.value < |cs| && ParentOf(cs[r.value]) == p
    ensures r.None? ==> forall k :: 0 <= k < |cs| ==> ParentOf(cs[k]) != p
  {
    if cs == [] then None
    else if ParentOf(cs[0]) == p then Some(0)
    else
      match FindParent(cs[1..], p)
      case None => None
      case Some(k) => Some(k + 1)
  }

  /**
   * One step of the `control` dictionary of `get_unique_filename_attrs`, held as the
   * list of its values in insertion order: a new parent appends `fn`; a known parent
   * takes `fn` in place when its name space code is lower.
   */
  function ControlStep(control: seq<Attribute>, fn: Attribute): (r: seq<Attribute>)
    requires AllFileNames(control) && IsFileName(fn)
    ensures AllFileNames(r)
  {
    match FindParent(control, ParentOf(fn))
    case None => control + [fn]
    case Some(k) => if NameTypeOf(fn) < NameTypeOf(control[k]) then control[k := fn] else control
  }

  /** The `control` values after the attributes of `g`, in order. */
  function Control(g: seq<Attribute>): (r: seq<Attribute>)
    requires AllFileNames(g)
    ensures AllFileNames(r)
    decreases |g|
  {
    if g == [] then [] else ControlStep(Control(g[..|g| - 1]), g[|g| - 1])
  }

  /** `get_unique_filename_attrs`: none without FILE_NAME attributes, else the `control` values. */
  function UniqueFilenames(present: bool, g: seq<Attribute>): (r: Option<seq<Attribute>>)
    requires AllFileNames(g)
  {
    if present then Some(Control(g)) else None
  }

  /** The loop of `get_unique_filename_attrs` that fills the `control` dictionary. */
  method FillControl(g: seq<Attribute>) returns (control: seq<Attribute>)
    requires AllFileNames(g)
    ensures control == Control(g)
  {
    control := [];
    for i := 0 to |g|
      invariant control == Control(g[..i])
    {
      assert g[..i + 1][..i] == g[..i];
      var fn := g[i];
      var at := FindParent(control, ParentOf(fn));
      if at.None? {
        control := control + [fn];
      } else if NameTypeOf(fn) < NameTypeOf(control[at.value]) {
        control := control[at.value := fn];
      }
    }
    assert g[..|g|] == g;
  }

  /** What the `control` values promise about a list of FILE_NAME attributes `g`. */
  predicate OnePerParent(g: seq<Attribute>, r: seq<Attribute>)
    requires AllFileNames(g) && AllFileNames(r)
  {
    && (forall a :: a in r ==> a in g)
    && (forall i, j :: 0 <= i < j < |r| ==> ParentOf(r[i]) != ParentOf(r[j]))
    && (forall a :: a in g ==> FindParent(r, ParentOf(a)).Some?)
    && (forall a, k :: a in g && 0 <= k < |r| && ParentOf(a) == ParentOf(r[k]) ==> NameTypeOf(r[k]) <= NameTypeOf(a))
  }

  /** Appending an attribute of a new parent keeps the promise. */
  lemma {:induction false} ControlAppendOk(g: seq<Attribute>, c: seq<Attribute>, fn: Attribute)
    requires AllFileNames(g) && AllFileNames(c) && IsFileName(fn)
    requires OnePerParent(g, c) && FindParent(c, ParentOf(fn)).None?
    ensures OnePerParent(g + [fn], c + [fn])
  {
    var g', r := g + [fn], c + [fn];
    assert forall a :: a in g' ==> a in g || a == fn;
    forall a | a in g' ensures FindParent(r, ParentOf(a)).Some? {
      if a == fn {
        assert ParentOf(r[|c|]) == ParentOf(a);
      } else {
        var k := FindParent(c, ParentOf(a)).value;
        assert ParentOf(r[k]) == ParentOf(a);
      }
    }
  }

  /** Putting an attribute with a lower name space code in place of its parent's keeps the promise. */
  lemma {:induction false} ControlReplaceOk(g: seq<Attribute>, c: seq<Attribute>, fn: Attribute, k: nat)
    requires AllFileNames(g) && AllFileNames(c) && IsFileName(fn)
    requires OnePerParent(g, c) && FindParent(c, ParentOf(fn)) == Some(k)
    requires NameTypeOf(fn) < NameTypeOf(c[k])
    ensures OnePerParent(g + [fn], c[k := fn])
  {
    var g', r := g + [fn], c[k := fn];
    assert forall a :: a in g' ==> a in g || a == fn;
    ReplaceFindsParents(g, c, fn, k);
    forall a | a in r ensures a in g' {
      var i :| 0 <= i < |r| && r[i] == a;
      if i != k { assert c[i] in c; }
    }
    ReplaceKeepsLowest(g, c, fn, k, r);
  }

  /** After the replacement every parent of `g + [fn]` is still found. */
  lemma {:induction false} ReplaceFindsParents(g: seq<Attribute>, c: seq<Attribute>, fn: Attribute, k: nat)
    requires AllFileNames(g) && AllFileNames(c) && IsFileName(fn)
    requires OnePerParent(g, c) && FindParent(c, ParentOf(fn)) == Some(k)
    ensures forall a :: a in g + [fn] ==> FindParent(c[k := fn], ParentOf(a)).Some?
  {
    var g', r := g + [fn], c[k := fn];
    forall a | a in g' ensures FindParent(r, ParentOf(a)).Some? {
      var j := FindParent(c, ParentOf(a)).value;
      assert ParentOf(r[j]) == ParentOf(a);
    }
  }

  /** After the replacement each kept attribute has the lowest code of its parent. */
  lemma {:induction false} ReplaceKeepsLowest(g: seq<Attribute>, c: seq<Attribute>, fn: Attribute, k: nat, r: seq<Attribute>)
    requires AllFileNames(g) && AllFileNames(c) && IsFileName(fn)
    requires OnePerParent(g, c) && FindParent(c, ParentOf(fn)) == Some(k)
    requires NameTypeOf(fn) < NameTypeOf(c[k]) && r == c[k := fn]
    ensures AllFileNames(r)
    ensures forall a, i :: a in g + [fn] && 0 <= i < |r| && ParentOf(a) == ParentOf(r[i]) ==> NameTypeOf(r[i]) <= NameTypeOf(a)
  {
    var g' := g + [fn];
    assert forall a :: a in r ==> a in c || a == fn;
    forall a, i | a in g' && 0 <= i < |r| && ParentOf(a) == ParentOf(r[i])
      ensures NameTypeOf(r[i]) <= NameTypeOf(a)
    {
      if i == k && a != fn {
        assert ParentOf(a) == ParentOf(c[k]);
      }
    }
  }

  /** Keeping the known attribute of a parent keeps the promise. */
  lemma {:induction false} ControlKeepOk(g: seq<Attribute>, c: seq<Attribute>, fn: Attribute, k: nat)
    requires AllFileNames(g) && AllFileNames(c) && IsFileName(fn)
    requires OnePerParent(g, c) && FindParent(c, ParentOf(fn)) == Some(k)
    requires NameTypeOf(c[k]) <= NameTypeOf(fn)
    ensures OnePerParent(g + [fn], c)
  {
    assert forall a :: a in g + [fn] ==> a in g || a == fn;
  }

  /** One step keeps the promise, for the list grown by the attribute the step took. */
  lemma {:induction false} ControlStepOk(g: seq<Attribute>, c: seq<Attribute>, fn: Attribute)
    requires AllFileNames(g) && AllFileNames(c) && IsFileName(fn)
    requires OnePerParent(g, c)
    ensures OnePerParent(g + [fn], ControlStep(c, fn))
  {
    match FindParent(c, ParentOf(fn))
    case None => ControlAppendOk(g, c, fn);
    case Some(k) =>
      if NameTypeOf(fn) < NameTypeOf(c[k]) {
        ControlReplaceOk(g, c, fn, k);
      } else {
        ControlKeepOk(g, c, fn, k);
      }
  }

  /**
   * The `control` values hold only attributes of `g`, no two with the same parent, one
   * for every parent in `g`, and each with the lowest name space code among the
   * attributes of `g` with its parent.
   */
  lemma {:induction false} ControlOk(g: seq<Attribute>)
    requires AllFileNames(g)
    ensures OnePerParent(g, Control(g))
    decreases |g|
  {
    if g != [] {
      var init := g[..|g| - 1];
      ControlOk(init);
      ControlStepOk(init, Control(init), g[|g| - 1]);
      assert init + [g[|g| - 1]] == g;
    }
  }
}
