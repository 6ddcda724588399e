/**
 * `Datastream` of libmft/api.py: one named data stream of an entry, assembled from the
 * DATA attributes that carry it. A resident stream keeps its content; a non-resident one
 * keeps its run lists as fragments tagged with the first virtual cluster (VCN) each
 * covers, and hands them out in VCN order.
 */
module ApiStream {
  import opened Wrappers
  import opened Bytes
  import opened Headers
  import opened DataRuns
  import opened ApiConfig
  import opened ApiAttribute

  /** `(start_vcn, data_runs)` of one non-resident DATA attribute. */
  datatype Fragment = Fragment(startVcn: nat, runs: seq<DataRun>)

  /** The `DataStreamError`s of the stream, and the TypeError of its `content` property. */
  datatype StreamError =
    | NotData              // "A Datastream deals only with DATA attributes"
    | OtherStream          // data from a stream with another name
    | ResidentRuns         // "Resident datastream don't have dataruns"
    | ResidentTarget       // "Cannot add data to a resident datastream."
    | NonResidentContent   // "Non resident datastream don't have content"
    | NotCallable          // TypeError: the bool `is_resident` is called

  /**
   * The state of a stream. `fragments` is `_data_runs`, absent until a non-resident
   * attribute arrives; `sorted` is `_data_runs_sorted`.
   */
  datatype Stream = Stream(
    name: Option<seq<Byte>>,
    size: nat,
    allocSize: nat,
    clusterCount: nat,
    fragments: Option<seq<Fragment>>,
    content: Option<seq<Byte>>,
    sorted: bool)

  /** `Datastream(name)`. */
  function NewStream(name: Option<seq<Byte>>): Stream
  {
    Stream(name, 0, 0, 0, None, None, false)
  }

  /** `is_resident`: the stream has no run lists. */
  predicate IsResident(s: Stream)
  {
    s.fragments.None?
  }

  /** Fragments in ascending VCN order. */
  predicate SortedByVcn(fs: seq<Fragment>)
  {
    forall i, j :: 0 <= i < j < |fs| ==> fs[i].startVcn <= fs[j].startVcn
  }

  /** The flag `_data_runs_sorted` is only set while the fragments are in VCN order. */
  predicate SortedFlagHolds(s: Stream)
  {
    s.sorted && s.fragments.Some? ==> SortedByVcn(s.fragments.value)
  }

  // ---------------------------------------------------------------------------
  // Adding attributes and streams
  // ---------------------------------------------------------------------------

  /**
   * `add_data_attribute`: a non-resident attribute raises the cluster count to its last
   * VCN, sets the sizes when it starts at VCN 0, and appends its fragment; a resident
   * one sets both sizes to its content length and keeps its content.
   */
  function AddData(s: Stream, a: Attribute): (r: Result<Stream, StreamError>)
    requires WellTyped(a)
    ensures r.Success? ==> r.value.name == s.name
    ensures r.Success? && SortedFlagHolds(s) ==> SortedFlagHolds(r.value)
    ensures r.Failure? <==> a.header.attrTypeId != DATA || a.header.attrName != s.name
  {
    if a.header.attrTypeId != DATA then Failure(NotData)
    else if a.header.attrName != s.name then Failure(OtherStream)
    else
      match a.header.form
      case NonResident(nh) =>
        var fs := if s.fragments.Some? then s.fragments.value else [];
        Success(s.(
          clusterCount := if nh.endVcn > s.clusterCount then nh.endVcn else s.clusterCount,
          size := if nh.startVcn == 0 then nh.currSstream else s.size,
          allocSize := if nh.startVcn == 0 then nh.allocSstream else s.allocSize,
          fragments := Some(fs + [Fragment(nh.startVcn, nh.dataRuns)]),
          sorted := false))
      case Resident(rh) =>
        Success(s.(size := rh.contentLen, allocSize := rh.contentLen, content := Some(a.content.value.data)))
  }

  /**
   * `add_from_datastream`: the larger cluster count, the other stream's sizes when this
   * one has none, and its fragments after this one's.
   */
  function AddFrom(s: Stream, src: Stream): (r: Result<Stream, StreamError>)
    ensures r.Success? ==> r.value.name == s.name
    ensures r.Success? && SortedFlagHolds(s) ==> SortedFlagHolds(r.value)
    ensures r.Failure? <==> src.name != s.name || IsResident(s)
  {
    if src.name != s.name then Failure(OtherStream)
    else if s.fragments.None? then Failure(ResidentTarget)
    else
      var copySize := s.size == 0 && src.size != 0;
      var grow := src.fragments.Some? && |src.fragments.value| > 0;
      Success(s.(
        clusterCount := if s.clusterCount < src.clusterCount then src.clusterCount else s.clusterCount,
        size := if copySize then src.size else s.size,
        allocSize := if copySize then src.allocSize else s.allocSize,
        fragments := if grow then Some(s.fragments.value + src.fragments.value) else s.fragments,
        sorted := if grow then false else s.sorted))
  }

  // ---------------------------------------------------------------------------
  // Content
  // ---------------------------------------------------------------------------

  /**
   * The `content` property as written: `_get_content` calls `self.is_resident()`, but
   * `is_resident` is a property, so the call is made on a bool and always raises.
   */
  function ContentAsWritten(s: Stream): (r: Result<Option<seq<Byte>>, StreamError>)
    ensures r.Failure?
  {
    Failure(NotCallable)
  }

  /** The `content` property as intended: the content of a resident stream. */
  function ContentOf(s: Stream): (r: Result<Option<seq<Byte>>, StreamError>)
    ensures r.Success? <==> IsResident(s)
    ensures r.Success? ==> r.value == s.content
  {
    if !IsResident(s) then Failure(NonResidentContent) else Success(s.content)
  }

  /** A stream made from one resident DATA attribute has content, which `content` as written never returns. */
  lemma {:induction false} ResidentContentLost(a: Attribute)
    requires WellTyped(a) && a.header.attrTypeId == DATA && !a.header.nonResident
    ensures AddData(NewStream(a.header.attrName), a).Success?
    ensures var s := AddData(NewStream(a.header.attrName), a).value;
      ContentOf(s) == Success(Some(a.content.value.data)) && ContentAsWritten(s).Failure?
  {
    assert a.header.form.Resident?;
  }

  // ---------------------------------------------------------------------------
  // The stable sort by start VCN of `dataruns`
  // ---------------------------------------------------------------------------

  /** `f` placed after every fragment of `fs` whose start VCN is not above its own. */
  function InsertByVcn(f: Fragment, fs: seq<Fragment>): (r: seq<Fragment>)
    ensures |r| == |fs| + 1
  {
    if fs == [] then [f]
    else if f.startVcn < fs[0].startVcn then [f] + fs
    else [fs[0]] + InsertByVcn(f, fs[1..])
  }

  /** `list.sort(key=itemgetter(0))`: an insertion sort from the front, which keeps equal keys in order. */
  function SortByVcn(fs: seq<Fragment>): (r: seq<Fragment>)
    ensures |r| == |fs|
  {
    if fs == [] then [] else InsertByVcn(fs[|fs| - 1], SortByVcn(fs[..|fs| - 1]))
  }

  /** The fragments that start at VCN `vcn`, in order. */
  function StartingAt(fs: seq<Fragment>, vcn: nat): seq<Fragment>
  {
    if fs == [] then []
    else (if fs[0].startVcn == vcn then [fs[0]] else []) + StartingAt(fs[1..], vcn)
  }

  function RunsOf(fs: seq<Fragment>): (r: seq<seq<DataRun>>)
    ensures |r| == |fs|
    ensures forall i :: 0 <= i < |fs| ==> r[i] == fs[i].runs
  {
    if fs == [] then [] else [fs[0].runs] + RunsOf(fs[1..])
  }

  lemma {:induction false} StartingAtAppend(a: seq<Fragment>, b: seq<Fragment>, vcn: nat)
    ensures StartingAt(a + b, vcn) == StartingAt(a, vcn) + StartingAt(b, vcn)
    decreases |a|
  {
    if a == [] {
      assert a + b == b;
    } else {
      var ab := a + b;
      assert ab[0] == a[0] && ab[1..] == a[1..] + b;
      StartingAtAppend(a[1..], b, vcn);
      var head := if a[0].startVcn == vcn then [a[0]] else [];
      assert StartingAt(ab, vcn) == head + (StartingAt(a[1..], vcn) + StartingAt(b, vcn));
      assert StartingAt(a, vcn) == head + StartingAt(a[1..], vcn);
    }
  }

  lemma {:induction false} InsertMultiset(f: Fragment, fs: seq<Fragment>)
    ensures multiset(InsertByVcn(f, fs)) == multiset(fs) + multiset{f}
    decreases |fs|
  {
    if fs != [] && f.startVcn >= fs[0].startVcn {
      InsertMultiset(f, fs[1..]);
      assert fs == [fs[0]] + fs[1..];
    }
  }

  /** Inserting a fragment that starts at or after `lo` among fragments that do keeps every start at or after `lo`. */
  lemma {:induction false} InsertBounded(f: Fragment, fs: seq<Fragment>, lo: nat)
    requires lo <= f.startVcn && forall i :: 0 <= i < |fs| ==> lo <= fs[i].startVcn
    ensures forall i :: 0 <= i < |fs| + 1 ==> lo <= InsertByVcn(f, fs)[i].startVcn
    decreases |fs|
  {
    if fs != [] && f.startVcn >= fs[0].startVcn {
      InsertBounded(f, fs[1..], lo);
      var r := InsertByVcn(f, fs[1..]);
      assert InsertByVcn(f, fs) == [fs[0]] + r;
    }
  }

  lemma {:induction false} InsertSorted(f: Fragment, fs: seq<Fragment>)
    requires SortedByVcn(fs)
    ensures SortedByVcn(InsertByVcn(f, fs))
    ensures multiset(InsertByVcn(f, fs)) == multiset(fs) + multiset{f}
    decreases |fs|
  {
    InsertMultiset(f, fs);
    if fs != [] && f.startVcn >= fs[0].startVcn {
      InsertSorted(f, fs[1..]);
      InsertBounded(f, fs[1..], fs[0].startVcn);
      var r := InsertByVcn(f, fs[1..]);
      assert InsertByVcn(f, fs) == [fs[0]] + r;
    }
  }

  lemma {:induction false} InsertStable(f: Fragment, fs: seq<Fragment>, vcn: nat)
    requires SortedByVcn(fs)
    ensures StartingAt(InsertByVcn(f, fs), vcn) == StartingAt(fs, vcn) + StartingAt([f], vcn)
    decreases |fs|
  {
    if fs == [] {
    } else if f.startVcn < fs[0].startVcn {
      StartingAtAppend([f], fs, vcn);
      if f.startVcn == vcn {
        NoneStartingAt(fs, vcn);
      }
    } else {
      assert fs == [fs[0]] + fs[1..];
      StartingAtAppend([fs[0]], fs[1..], vcn);
      InsertStable(f, fs[1..], vcn);
      StartingAtAppend([fs[0]], InsertByVcn(f, fs[1..]), vcn);
    }
  }

  /** No fragment of a sorted run whose first VCN is above `vcn` starts at `vcn`. */
  lemma {:induction false} NoneStartingAt(fs: seq<Fragment>, vcn: nat)
    requires SortedByVcn(fs) && fs != [] && vcn < fs[0].startVcn
    ensures StartingAt(fs, vcn) == []
    decreases |fs|
  {
    if |fs| > 1 {
      NoneStartingAt(fs[1..], vcn);
    }
  }

  /**
   * What `dataruns` hands out: the fragments in ascending VCN order, each fragment
   * once, and fragments with the same start VCN in the order they were added.
   */
  lemma {:induction false} SortByVcnSortsStably(fs: seq<Fragment>)
    ensures SortedByVcn(SortByVcn(fs))
    ensures multiset(SortByVcn(fs)) == multiset(fs)
    ensures forall vcn: nat :: StartingAt(SortByVcn(fs), vcn) == StartingAt(fs, vcn)
    decreases |fs|
  {
    if fs != [] {
      var init, last := fs[..|fs| - 1], fs[|fs| - 1];
      assert fs == init + [last];
      SortByVcnSortsStably(init);
      InsertSorted(last, SortByVcn(init));
      forall vcn: nat ensures StartingAt(SortByVcn(fs), vcn) == StartingAt(fs, vcn) {
        InsertStable(last, SortByVcn(init), vcn);
        StartingAtAppend(init, [last], vcn);
      }
    }
  }

  /** Fragments already in VCN order are left as they are, so a set flag can skip the sort. */
  lemma {:induction false} SortByVcnKeepsSorted(fs: seq<Fragment>)
    requires SortedByVcn(fs)
    ensures SortByVcn(fs) == fs
    decreases |fs|
  {
    if fs != [] {
      var init, last := fs[..|fs| - 1], fs[|fs| - 1];
      assert SortedByVcn(init);
      SortByVcnKeepsSorted(init);
      InsertLast(last, init);
      assert init + [last] == fs;
    }
  }

  lemma {:induction false} InsertLast(f: Fragment, fs: seq<Fragment>)
    requires forall i :: 0 <= i < |fs| ==> fs[i].startVcn <= f.startVcn
    ensures InsertByVcn(f, fs) == fs + [f]
    decreases |fs|
  {
    if fs != [] {
      InsertLast(f, fs[1..]);
      assert fs == [fs[0]] + fs[1..];
    }
  }

  // ---------------------------------------------------------------------------
  // A stream built from several non-resident attributes
  // ---------------------------------------------------------------------------

  /** A non-resident DATA attribute of the stream `name`. */
  predicate FragmentOf(a: Attribute, name: Option<seq<Byte>>)
  {
    WellTyped(a) && a.header.attrTypeId == DATA && a.header.attrName == name && a.header.form.NonResident?
  }

  /** `add_data_attribute` for each attribute in turn. */
  function AddAll(s: Stream, attrs: seq<Attribute>): Result<Stream, StreamError>
    requires forall a :: a in attrs ==> WellTyped(a)
  {
    if attrs == [] then Success(s)
    else
      var t :- AddAll(s, attrs[..|attrs| - 1]);
      AddData(t, attrs[|attrs| - 1])
  }

  function EndVcn(a: Attribute): nat
    requires a.header.form.NonResident?
  {
    a.header.form.nonResident.endVcn
  }

  /** The largest last VCN of the attributes, 0 for none. */
  function MaxEndVcn(attrs: seq<Attribute>): nat
    requires forall a :: a in attrs ==> a.header.form.NonResident?
  {
    if attrs == [] then 0
    else
      var m := MaxEndVcn(attrs[..|attrs| - 1]);
      if EndVcn(attrs[|attrs| - 1]) > m then EndVcn(attrs[|attrs| - 1]) else m
  }

  function FragmentsOf(attrs: seq<Attribute>): (fs: seq<Fragment>)
    requires forall a :: a in attrs ==> a.header.form.NonResident?
    ensures |fs| == |attrs|
  {
    if attrs == [] then []
    else
      var nh := attrs[|attrs| - 1].header.form.nonResident;
      FragmentsOf(attrs[..|attrs| - 1]) + [Fragment(nh.startVcn, nh.dataRuns)]
  }

  /** The header of the last attribute that starts at VCN 0, which sets the sizes. */
  function FirstFragment(attrs: seq<Attribute>): Option<NonResidentHeader>
    requires forall a :: a in attrs ==> a.header.form.NonResident?
  {
    if attrs == [] then None
    else
      var nh := attrs[|attrs| - 1].header.form.nonResident;
      if nh.startVcn == 0 then Some(nh) else FirstFragment(attrs[..|attrs| - 1])
  }

  /**
   * After the non-resident attributes of a stream, its cluster count is the largest
   * last VCN seen, its sizes come from the last attribute that starts at VCN 0, and its
   * fragments are the attributes' run lists in the order they arrived.
   */
  lemma {:induction false} AddAllFragments(s: Stream, attrs: seq<Attribute>)
    requires forall a :: a in attrs ==> FragmentOf(a, s.name)
    ensures forall a :: a in attrs ==> WellTyped(a) && a.header.form.NonResident?
    ensures AddAll(s, attrs).Success?
    ensures var t := AddAll(s, attrs).value;
      && t.name == s.name && t.content == s.content
      && t.clusterCount == (if MaxEndVcn(attrs) > s.clusterCount then MaxEndVcn(attrs) else s.clusterCount)
      && t.size == (if FirstFragment(attrs).Some? then FirstFragment(attrs).value.currSstream else s.size)
      && t.allocSize == (if FirstFragment(attrs).Some? then FirstFragment(attrs).value.allocSstream else s.allocSize)
      && (attrs != [] ==> t.fragments == Some((if s.fragments.Some? then s.fragments.value else []) + FragmentsOf(attrs)))
      && (attrs == [] ==> t == s)
      && (attrs != [] ==> !t.sorted)
    decreases |attrs|
  {
    if attrs != [] {
      var init, last := attrs[..|attrs| - 1], attrs[|attrs| - 1];
      assert forall a :: a in init ==> a in attrs;
      AddAllFragments(s, init);
      assert last in attrs;
      assert last.header.form.NonResident?;
      var fs := if s.fragments.Some? then s.fragments.value else [];
      var nh := last.header.form.nonResident;
      assert FragmentsOf(attrs) == FragmentsOf(init) + [Fragment(nh.startVcn, nh.dataRuns)];
      if init == [] {
        assert FragmentsOf(init) + [Fragment(nh.startVcn, nh.dataRuns)] == [Fragment(nh.startVcn, nh.dataRuns)];
      } else {
        assert fs + FragmentsOf(attrs) == (fs + FragmentsOf(init)) + [Fragment(nh.startVcn, nh.dataRuns)];
      }
    }
  }

  /**
   * Merging the stream of a child entry into the base entry's stream, as `merge_entries`
   * does, gives the stream one would get from all the attributes in one entry, as long
   * as only the base entry holds an attribute that starts at VCN 0.
   */
  lemma {:induction false} MergeIsAddingAll(name: Option<seq<Byte>>, base: seq<Attribute>, child: seq<Attribute>)
    requires base != []
    requires forall a :: a in base ==> FragmentOf(a, name)
    requires forall a :: a in child ==> FragmentOf(a, name) && a.header.form.nonResident.startVcn != 0
    ensures forall a :: a in base + child ==> WellTyped(a)
    ensures AddAll(NewStream(name), base).Success? && AddAll(NewStream(name), child).Success?
    ensures AddFrom(AddAll(NewStream(name), base).value, AddAll(NewStream(name), child).value)
              == AddAll(NewStream(name), base + child)
  {
    var empty := NewStream(name);
    AddAllFragments(empty, base);
    AddAllFragments(empty, child);
    assert forall a :: a in base + child ==> a in base || a in child;
    var t1, t2 := AddAll(empty, base).value, AddAll(empty, child).value;
    if child == [] {
      assert base + child == base;
      assert AddFrom(t1, t2) == Success(t1);
    } else {
      MergeChildFragments(name, base, child);
    }
  }

  /** `MergeIsAddingAll` when the child brings fragments. */
  lemma {:induction false} MergeChildFragments(name: Option<seq<Byte>>, base: seq<Attribute>, child: seq<Attribute>)
    requires base != [] && child != []
    requires forall a :: a in base + child ==> WellTyped(a)
    requires forall a :: a in base ==> FragmentOf(a, name)
    requires forall a :: a in child ==> FragmentOf(a, name) && a.header.form.nonResident.startVcn != 0
    requires AddAll(NewStream(name), base).Success? && AddAll(NewStream(name), child).Success?
    ensures AddFrom(AddAll(NewStream(name), base).value, AddAll(NewStream(name), child).value)
              == AddAll(NewStream(name), base + child)
  {
    var empty := NewStream(name);
    AddAllFragments(empty, base);
    AddAllFragments(empty, child);
    assert forall a :: a in base + child ==> a in base || a in child;
    AddAllFragments(empty, base + child);
    var t1, t2 := AddAll(empty, base).value, AddAll(empty, child).value;
    var t := AddAll(empty, base + child).value;
    MaxEndVcnAppend(base, child);
    NoFirstFragment(child);
    FirstFragmentAppend(base, child);
    FragmentsOfAppend(base, child);
    assert [] + FragmentsOf(base + child) == FragmentsOf(base + child);
    assert [] + FragmentsOf(base) == FragmentsOf(base) && [] + FragmentsOf(child) == FragmentsOf(child);
    MergeFields(t1, t2, t);
  }

  /** The field by field account of `AddFrom` when the other stream brings fragments and no size. */
  lemma {:induction false} MergeFields(t1: Stream, t2: Stream, t: Stream)
    requires t1.name == t2.name == t.name && t1.fragments.Some? && t2.fragments.Some? && t2.fragments.value != []
    requires t2.size == 0 && t.size == t1.size && t.allocSize == t1.allocSize && t.content == t1.content
    requires t.clusterCount == if t1.clusterCount < t2.clusterCount then t2.clusterCount else t1.clusterCount
    requires t.fragments == Some(t1.fragments.value + t2.fragments.value) && !t.sorted
    ensures AddFrom(t1, t2) == Success(t)
  {
  }

  lemma {:induction false} MaxEndVcnAppend(a: seq<Attribute>, b: seq<Attribute>)
    requires forall x :: x in a + b ==> x.header.form.NonResident?
    ensures forall x :: x in a ==> x.header.form.NonResident?
    ensures forall x :: x in b ==> x.header.form.NonResident?
    ensures MaxEndVcn(a + b) == if MaxEndVcn(b) > MaxEndVcn(a) then MaxEndVcn(b) else MaxEndVcn(a)
    decreases |b|
  {
    assert forall x :: x in a ==> x in a + b;
    assert forall x :: x in b ==> x in a + b;
    if b == [] {
      assert a + b == a;
    } else {
      assert (a + b)[..|a + b| - 1] == a + b[..|b| - 1];
      assert forall x :: x in b[..|b| - 1] ==> x in b;
      MaxEndVcnAppend(a, b[..|b| - 1]);
    }
  }

  lemma {:induction false} FragmentsOfAppend(a: seq<Attribute>, b: seq<Attribute>)
    requires forall x :: x in a + b ==> x.header.form.NonResident?
    ensures forall x :: x in a ==> x.header.form.NonResident?
    ensures forall x :: x in b ==> x.header.form.NonResident?
    ensures FragmentsOf(a + b) == FragmentsOf(a) + FragmentsOf(b)
    decreases |b|
  {
    assert forall x :: x in a ==> x in a + b;
    assert forall x :: x in b ==> x in a + b;
    if b == [] {
      assert a + b == a;
    } else {
      assert (a + b)[..|a + b| - 1] == a + b[..|b| - 1];
      assert forall x :: x in b[..|b| - 1] ==> x in b;
      FragmentsOfAppend(a, b[..|b| - 1]);
    }
  }

  lemma {:induction false} FirstFragmentAppend(a: seq<Attribute>, b: seq<Attribute>)
    requires forall x :: x in a + b ==> x.header.form.NonResident?
    requires forall x :: x in b ==> x.header.form.nonResident.startVcn != 0
    ensures forall x :: x in a ==> x.header.form.NonResident?
    ensures FirstFragment(a + b) == FirstFragment(a)
    decreases |b|
  {
    assert forall x :: x in a ==> x in a + b;
    if b == [] {
      assert a + b == a;
    } else {
      assert (a + b)[..|a + b| - 1] == a + b[..|b| - 1];
      assert b[|b| - 1] in b;
      assert forall x :: x in b[..|b| - 1] ==> x in b;
      FirstFragmentAppend(a, b[..|b| - 1]);
    }
  }

  lemma {:induction false} NoFirstFragment(attrs: seq<Attribute>)
    requires forall x :: x in attrs ==> x.header.form.NonResident? && x.header.form.nonResident.startVcn != 0
    ensures FirstFragment(attrs) == None
    decreases |attrs|
  {
    if attrs != [] {
      assert attrs[|attrs| - 1] in attrs;
      assert forall x :: x in attrs[..|attrs| - 1] ==> x in attrs;
      NoFirstFragment(attrs[..|attrs| - 1]);
    }
  }

  // ---------------------------------------------------------------------------
  // The object
  // ---------------------------------------------------------------------------

  class Datastream {
    const name: Option<seq<Byte>>
    var size: nat
    var allocSize: nat
    var clusterCount: nat
    var fragments: Option<seq<Fragment>>
    var content: Option<seq<Byte>>
    var sorted: bool

    function State(): Stream
      reads this
    {
      Stream(name, size, allocSize, clusterCount, fragments, content, sorted)
    }

    predicate Valid()
      reads this
    {
      SortedFlagHolds(State())
    }

    constructor(name: Option<seq<Byte>>)
      ensures State() == NewStream(name) && Valid()
    {
      this.name := name;
      size, allocSize, clusterCount := 0, 0, 0;
      fragments, content, sorted := None, None, false;
    }

    method Set(s: Stream)
      requires s.name == name
      modifies this
      ensures State() == s
    {
      size, allocSize, clusterCount := s.size, s.allocSize, s.clusterCount;
      fragments, content, sorted := s.fragments, s.content, s.sorted;
    }

    /** `add_data_attribute`; on an error the stream is left as it was. */
    method AddDataAttribute(a: Attribute) returns (r: Result<(), StreamError>)
      requires WellTyped(a) && Valid()
      modifies this
      ensures Valid()
      ensures r.Success? <==> AddData(old(State()), a).Success?
      ensures r.Failure? ==> r.error == AddData(old(State()), a).error
      ensures State() == if r.Success? then AddData(old(State()), a).value else old(State())
    {
      var next := AddData(State(), a);
      if next.Failure? {
        return Failure(next.error);
      }
      Set(next.value);
      return Success(());
    }

    /** `add_from_datastream`; the other stream is read before this one changes. */
    method AddFromDatastream(src: Datastream) returns (r: Result<(), StreamError>)
      requires Valid()
      modifies this
      ensures Valid()
      ensures r.Success? <==> AddFrom(old(State()), old(src.State())).Success?
      ensures r.Failure? ==> r.error == AddFrom(old(State()), old(src.State())).error
      ensures State() == if r.Success? then AddFrom(old(State()), old(src.State())).value else old(State())
    {
      var next := AddFrom(State(), src.State());
      if next.Failure? {
        return Failure(next.error);
      }
      Set(next.value);
      return Success(());
    }

    /**
     * The `dataruns` property: the run lists in ascending VCN order, after sorting the
     * fragments in place when they are not known to be sorted.
     */
    method Dataruns() returns (r: Result<seq<seq<DataRun>>, StreamError>)
      requires Valid()
      modifies this
      ensures Valid()
      ensures IsResident(old(State())) ==> r == Failure(ResidentRuns) && State() == old(State())
      ensures !IsResident(old(State())) ==>
                && State() == old(State()).(fragments := Some(SortByVcn(old(fragments).value)), sorted := true)
                && r == Success(RunsOf(fragments.value))
    {
      if fragments.None? {
        return Failure(ResidentRuns);
      }
      if !sorted {
        SortByVcnSortsStably(fragments.value);
        fragments := Some(SortByVcn(fragments.value));
        sorted := true;
      } else {
        SortByVcnKeepsSorted(fragments.value);
      }
      return Success(RunsOf(fragments.value));
    }
  }
}
