/**
 * `_MFTEntryStub` and `MFT` of libmft/api.py: the first 40 bytes of every entry are
 * read into a stub, the stubs are mapped into the tables of base entries, child entries
 * and empty entries, and those tables decide what `MFT.__getitem__` gives (a base entry
 * with its child entries merged into it) and which entries `MFT.__iter__` visits.
 * The MFT file is given as the list of its entry buffers.
 */
module ApiMft {
  import opened Wrappers
  import opened Bytes
  import opened Functions
  import opened Headers
  import opened ApiConfig
  import opened ApiStream
  import opened ApiAttribute
  import opened ApiEntry

  // ---------------------------------------------------------------------------
  // Stubs
  // ---------------------------------------------------------------------------

  /** `_MFTEntryStub._REPR.size`: 16 skipped bytes, a u16, 14 skipped bytes, a u64. */
  const STUB_SIZE: nat := 40

  datatype Stub = Stub(mftRecord: nat, seqNumber: nat, baseRef: nat, baseSeq: nat)

  /** The first four bytes are zero: the entry is empty. */
  predicate EmptyMark(v: seq<Byte>)
    requires |v| >= 4
  {
    v[0] == 0 && v[1] == 0 && v[2] == 0 && v[3] == 0
  }

  /**
   * `_MFTEntryStub.load_from_file_pointer(binary_stream, record_n)`: none for an empty
   * entry; otherwise the sequence number at offset 16 and the base record reference at
   * offset 32, split into record and sequence number.
   */
  function LoadStub(v: seq<Byte>, n: nat): (r: Option<Stub>)
    requires |v| == STUB_SIZE
    ensures r.None? <==> EmptyMark(v)
    ensures r.Some? ==> r.value.mftRecord == n
  {
    if EmptyMark(v) then None
    else
      var fileRef := SplitFileReference(LeUintAt(v, 32, 8));
      Some(Stub(n, LeUintAt(v, 16, 2), fileRef.0, fileRef.1))
  }

  /**
   * The stub of an entry that is not empty reads the same sequence number and base
   * record as the full entry header decoder of libmft/headers.py.
   */
  lemma {:induction false} StubAgreesWithHeader(w: seq<Byte>, n: nat, baad: Option<bool>)
    requires |w| >= MFT_HEADER_SIZE && !EmptyMark(w)
    ensures var h := ReadMftHeader(w, baad);
      LoadStub(w[..STUB_SIZE], n) == Some(Stub(n, h.seqNumber, h.baseRecordRef, h.baseRecordSeq))
  {
    LeUintAtPrefix(w, STUB_SIZE, 16, 2);
    LeUintAtPrefix(w, STUB_SIZE, 32, 8);
  }

  /** `_MFTEntryStub.is_related`: the child's base record is the parent's record and sequence number. */
  predicate StubRelated(parent: Stub, child: Stub)
  {
    parent.mftRecord == child.baseRef && parent.seqNumber == child.baseSeq
  }

  /** The stubs of the entries, each read from the first `STUB_SIZE` bytes of its buffer. */
  function StubsOf(entries: seq<seq<Byte>>): (r: seq<Option<Stub>>)
    requires forall i :: 0 <= i < |entries| ==> |entries[i]| >= STUB_SIZE
    ensures |r| == |entries|
    ensures forall i :: 0 <= i < |entries| ==> r[i] == LoadStub(entries[i][..STUB_SIZE], i)
    decreases |entries|
  {
    if entries == [] then []
    else StubsOf(entries[..|entries| - 1]) + [LoadStub(entries[|entries| - 1][..STUB_SIZE], |entries| - 1)]
  }

  /** Every stub carries its own position as its record number. */
  predicate Numbered(stubs: seq<Option<Stub>>)
  {
    forall i :: 0 <= i < |stubs| && stubs[i].Some? ==> stubs[i].value.mftRecord == i
  }

  lemma {:induction false} StubsAreNumbered(entries: seq<seq<Byte>>)
    requires forall i :: 0 <= i < |entries| ==> |entries[i]| >= STUB_SIZE
    ensures Numbered(StubsOf(entries))
  {
    var stubs := StubsOf(entries);
    forall i | 0 <= i < |stubs| && stubs[i].Some? ensures stubs[i].value.mftRecord == i {
      assert stubs[i] == LoadStub(entries[i][..STUB_SIZE], i);
    }
  }

  // ---------------------------------------------------------------------------
  // The relation tables
  // ---------------------------------------------------------------------------

  /**
   * `_entries_parent_child` (base entry to its child entries, in order),
   * `_entries_child_parent`, `_empty_entries` and `_number_valid_entries`.
   */
  datatype Tables = Tables(parentChild: map<nat, seq<nat>>, childParent: map<nat, nat>, empty: set<nat>, valid: nat)

  const NO_TABLES: Tables := Tables(map[], map[], {}, 0)

  datatype MftError =
      /** IndexError: the base record is past the last entry. */
    | BaseOutOfRange(entry: nat, base: nat)
      /** AttributeError: the base entry is empty, and `None` has no `is_related`. */
    | BaseIsEmpty(entry: nat, base: nat)
      /** ValueError of `__getitem__`. */
    | EmptyEntry(index: nat)
    | ChildEntry(index: nat)
      /** MFTError "Something is wrong..." of `__iter__`. */
    | SomethingWrong
    | EntryFailed(entryError: EntryError)
    | MergeFailed(streamError: StreamError)

  /** The child entries listed for `p`: `_entries_parent_child[p]`, empty when absent. */
  function ChildrenOf(pc: map<nat, seq<nat>>, p: nat): seq<nat>
  {
    if p in pc then pc[p] else []
  }

  /** One turn of the mapping loop of `_load_stub_info`, for entry `i`. */
  function MapStep(t: Tables, stubs: seq<Option<Stub>>, i: nat): Result<Tables, MftError>
    requires i < |stubs|
  {
    match stubs[i]
    case None => Success(t.(empty := t.empty + {i}))
    case Some(s) =>
      var t1 := t.(valid := t.valid + 1);
      if s.baseRef == 0 then Success(t1)
      else if s.baseRef >= |stubs| then Failure(BaseOutOfRange(i, s.baseRef))
      else match stubs[s.baseRef]
        case None => Failure(BaseIsEmpty(i, s.baseRef))
        case Some(b) =>
          if StubRelated(b, s) then
            Success(t1.(parentChild := t1.parentChild[s.baseRef := ChildrenOf(t1.parentChild, s.baseRef) + [s.mftRecord]],
                        childParent := t1.childParent[s.mftRecord := s.baseRef]))
          else Success(t1)
  }

  /** The mapping loop of `_load_stub_info` over the first `k` stubs, from tables `t`. */
  function MapStubs(t: Tables, stubs: seq<Option<Stub>>, k: nat): Result<Tables, MftError>
    requires k <= |stubs|
  {
    if k == 0 then Success(t)
    else
      var t' :- MapStubs(t, stubs, k - 1);
      MapStep(t', stubs, k - 1)
  }

  /** A failure ends the mapping: the later stubs are not looked at. */
  lemma {:induction false} MapStubsFailureSticks(t: Tables, stubs: seq<Option<Stub>>, i: nat, k: nat)
    requires i <= k <= |stubs| && MapStubs(t, stubs, i).Failure?
    ensures MapStubs(t, stubs, k) == MapStubs(t, stubs, i)
    decreases k
  {
    if k > i {
      MapStubsFailureSticks(t, stubs, i, k - 1);
    }
  }

  /** Entry `c` is a child entry: its base record is another entry, not empty, whose stub it is related to. */
  predicate IsChild(stubs: seq<Option<Stub>>, c: nat)
    requires c < |stubs|
  {
    && stubs[c].Some?
    && stubs[c].value.baseRef != 0
    && stubs[c].value.baseRef < |stubs|
    && stubs[stubs[c].value.baseRef].Some?
    && StubRelated(stubs[stubs[c].value.baseRef].value, stubs[c].value)
  }

  /** Entry `i` names a base record that is past the last entry or empty. */
  predicate Dangling(stubs: seq<Option<Stub>>, i: nat)
    requires i < |stubs|
  {
    && stubs[i].Some?
    && stubs[i].value.baseRef != 0
    && (stubs[i].value.baseRef >= |stubs| || stubs[stubs[i].value.baseRef].None?)
  }

  /** The child entries of `p` among the first `k`, in ascending order. */
  function ChildrenBelow(stubs: seq<Option<Stub>>, p: nat, k: nat): seq<nat>
    requires k <= |stubs|
  {
    if k == 0 then []
    else ChildrenBelow(stubs, p, k - 1) + (if IsChild(stubs, k - 1) && stubs[k - 1].value.baseRef == p then [k - 1] else [])
  }

  /** The number of entries among the first `k` that are not empty. */
  function CountUsed(stubs: seq<Option<Stub>>, k: nat): nat
    requires k <= |stubs|
  {
    if k == 0 then 0 else CountUsed(stubs, k - 1) + (if stubs[k - 1].Some? then 1 else 0)
  }

  /** `empty` holds exactly the empty entries among the first `k`. */
  ghost predicate EmptiesOf(stubs: seq<Option<Stub>>, k: nat, empty: set<nat>)
    requires k <= |stubs|
  {
    forall i: nat :: i in empty <==> i < k && stubs[i].None?
  }

  /** `cp` maps exactly the child entries among the first `k`, each to its base record. */
  ghost predicate ChildLinksOf(stubs: seq<Option<Stub>>, k: nat, cp: map<nat, nat>)
    requires k <= |stubs|
  {
    && (forall c: nat :: c in cp ==> c < k && IsChild(stubs, c) && cp[c] == stubs[c].value.baseRef)
    && (forall c: nat :: c < k && IsChild(stubs, c) ==> c in cp)
  }

  /** `pc` lists under each base entry its child entries among the first `k`, and lists nothing empty. */
  ghost predicate ChildListsOf(stubs: seq<Option<Stub>>, k: nat, pc: map<nat, seq<nat>>)
    requires k <= |stubs|
  {
    && (forall p: nat :: ChildrenOf(pc, p) == ChildrenBelow(stubs, p, k))
    && (forall p: nat :: p in pc ==> pc[p] != [])
  }

  /** The tables after the first `k` stubs, stated entry by entry. */
  ghost predicate TablesOf(stubs: seq<Option<Stub>>, k: nat, t: Tables)
    requires k <= |stubs|
  {
    && EmptiesOf(stubs, k, t.empty)
    && t.valid == CountUsed(stubs, k)
    && ChildLinksOf(stubs, k, t.childParent)
    && ChildListsOf(stubs, k, t.parentChild)
  }

  lemma {:induction false} EmptiesStep(stubs: seq<Option<Stub>>, k: nat, empty: set<nat>)
    requires k < |stubs| && EmptiesOf(stubs, k, empty)
    ensures EmptiesOf(stubs, k + 1, if stubs[k].None? then empty + {k} else empty)
  {
  }

  lemma {:induction false} ChildLinksStep(stubs: seq<Option<Stub>>, k: nat, cp: map<nat, nat>)
    requires k < |stubs| && ChildLinksOf(stubs, k, cp)
    ensures ChildLinksOf(stubs, k + 1, if IsChild(stubs, k) then cp[k := stubs[k].value.baseRef] else cp)
  {
    var cp' := if IsChild(stubs, k) then cp[k := stubs[k].value.baseRef] else cp;
    forall c: nat | c in cp'
      ensures c < k + 1 && IsChild(stubs, c) && cp'[c] == stubs[c].value.baseRef
    {
      if c != k {
        assert c in cp;
      }
    }
  }

  lemma {:induction false} ChildListsStep(stubs: seq<Option<Stub>>, k: nat, pc: map<nat, seq<nat>>)
    requires k < |stubs| && ChildListsOf(stubs, k, pc)
    ensures ChildListsOf(stubs, k + 1, if IsChild(stubs, k) then pc[stubs[k].value.baseRef := ChildrenOf(pc, stubs[k].value.baseRef) + [k]] else pc)
  {
    var pc' := if IsChild(stubs, k) then pc[stubs[k].value.baseRef := ChildrenOf(pc, stubs[k].value.baseRef) + [k]] else pc;
    forall p: nat ensures ChildrenOf(pc', p) == ChildrenBelow(stubs, p, k + 1) {
      assert ChildrenOf(pc, p) == ChildrenBelow(stubs, p, k);
      if !(IsChild(stubs, k) && stubs[k].value.baseRef == p) {
        assert ChildrenBelow(stubs, p, k + 1) == ChildrenBelow(stubs, p, k) + [];
      }
    }
    forall p: nat | p in pc' ensures pc'[p] != [] {
      if p in pc {
        assert pc[p] != [];
      }
    }
  }

  /** One turn of the mapping loop, for an entry that names no missing base record. */
  lemma {:induction false} MapStepOk(stubs: seq<Option<Stub>>, k: nat, t: Tables)
    requires Numbered(stubs) && k < |stubs| && TablesOf(stubs, k, t) && !Dangling(stubs, k)
    ensures MapStep(t, stubs, k).Success? && TablesOf(stubs, k + 1, MapStep(t, stubs, k).value)
  {
    var t' := MapStep(t, stubs, k).value;
    EmptiesStep(stubs, k, t.empty);
    ChildLinksStep(stubs, k, t.childParent);
    ChildListsStep(stubs, k, t.parentChild);
    if stubs[k].Some? {
      assert stubs[k].value.mftRecord == k;
      assert t' == t.(valid := t.valid + 1,
                      childParent := if IsChild(stubs, k) then t.childParent[k := stubs[k].value.baseRef] else t.childParent,
                      parentChild := if IsChild(stubs, k) then t.parentChild[stubs[k].value.baseRef := ChildrenOf(t.parentChild, stubs[k].value.baseRef) + [k]] else t.parentChild);
    }
  }

  /** The tables before any stub is mapped. */
  lemma {:induction false} NoTablesOk(stubs: seq<Option<Stub>>)
    ensures TablesOf(stubs, 0, NO_TABLES)
  {
  }

  /**
   * `_load_stub_info` from empty tables: the mapping fails exactly when an entry names
   * a base record past the last entry or an empty one, with the error of the first
   * such entry; otherwise the tables record every empty entry, count the entries that
   * are not empty, and list exactly the child entries, each under its base entry and
   * in ascending order.
   */
  lemma {:induction false} MapStubsOk(stubs: seq<Option<Stub>>, k: nat)
    requires Numbered(stubs) && k <= |stubs|
    ensures MapStubs(NO_TABLES, stubs, k).Success? <==> forall i :: 0 <= i < k ==> !Dangling(stubs, i)
    ensures MapStubs(NO_TABLES, stubs, k).Success? ==> TablesOf(stubs, k, MapStubs(NO_TABLES, stubs, k).value)
    ensures MapStubs(NO_TABLES, stubs, k).Failure? ==>
              var e := MapStubs(NO_TABLES, stubs, k).error;
              && (e.BaseOutOfRange? || e.BaseIsEmpty?)
              && e.entry < k && Dangling(stubs, e.entry) && (forall i :: 0 <= i < e.entry ==> !Dangling(stubs, i))
              && e.base == stubs[e.entry].value.baseRef && (e.BaseOutOfRange? <==> e.base >= |stubs|)
    decreases k
  {
    if k == 0 {
      NoTablesOk(stubs);
    } else {
      MapStubsOk(stubs, k - 1);
      var prev := MapStubs(NO_TABLES, stubs, k - 1);
      if prev.Success? {
        if !Dangling(stubs, k - 1) {
          MapStepOk(stubs, k - 1, prev.value);
        }
      }
    }
  }

  /** Every listed child entry is below `k`, and is listed under `p` exactly when its base record is `p`. */
  lemma {:induction false} ChildrenBelowMembers(stubs: seq<Option<Stub>>, p: nat, k: nat)
    requires k <= |stubs|
    ensures forall c: nat :: c in ChildrenBelow(stubs, p, k) <==> c < k && IsChild(stubs, c) && stubs[c].value.baseRef == p
    ensures forall i :: 0 <= i < |ChildrenBelow(stubs, p, k)| ==> ChildrenBelow(stubs, p, k)[i] < k
    ensures forall i, j :: 0 <= i < j < |ChildrenBelow(stubs, p, k)| ==> ChildrenBelow(stubs, p, k)[i] < ChildrenBelow(stubs, p, k)[j]
    decreases k
  {
    if k > 0 {
      ChildrenBelowMembers(stubs, p, k - 1);
    }
  }

  /**
   * The two relation tables agree: `c` is listed under `p` exactly when `c` is recorded
   * as a child of `p`, and no empty entry is a child entry.
   */
  lemma {:induction false} TablesAgree(stubs: seq<Option<Stub>>, t: Tables)
    requires TablesOf(stubs, |stubs|, t)
    ensures forall p: nat, c: nat :: c in ChildrenOf(t.parentChild, p) <==> c in t.childParent && t.childParent[c] == p
    ensures forall c: nat :: c in t.childParent ==> c !in t.empty && c < |stubs|
    ensures forall p: nat, c :: c in ChildrenOf(t.parentChild, p) ==> c < |stubs|
  {
    forall p: nat {
      ChildrenBelowMembers(stubs, p, |stubs|);
    }
  }

  // ---------------------------------------------------------------------------
  // Iteration and lookup
  // ---------------------------------------------------------------------------

  /** The entry numbers below `count` that are neither empty nor child entries, in order. */
  function Listed(t: Tables, count: nat): seq<nat>
  {
    if count == 0 then []
    else
      var n := count - 1;
      Listed(t, n) + (if n !in t.empty && n !in t.childParent then [n] else [])
  }

  /** The listed entries are exactly those below `count` that are neither empty nor child entries, ascending. */
  lemma {:induction false} ListedMembers(t: Tables, count: nat)
    ensures forall n: nat :: n in Listed(t, count) <==> n < count && n !in t.empty && n !in t.childParent
    ensures forall i :: 0 <= i < |Listed(t, count)| ==> Listed(t, count)[i] < count
    ensures forall i, j :: 0 <= i < j < |Listed(t, count)| ==> Listed(t, count)[i] < Listed(t, count)[j]
    decreases count
  {
    if count > 0 {
      ListedMembers(t, count - 1);
    }
  }

  /**
   * `MFT.__iter__` over `count` entries: at each entry, more entries given than there
   * are valid ones raises; empty and child entries are skipped.
   */
  function Iterate(t: Tables, count: nat): Result<seq<nat>, MftError>
  {
    if count == 0 then Success([])
    else
      var given :- Iterate(t, count - 1);
      var n := count - 1;
      if |given| > t.valid then Failure(SomethingWrong)
      else if n in t.empty || n in t.childParent then Success(given)
      else Success(given + [n])
  }

  /** Once `__iter__` has raised, it does not go on. */
  lemma {:induction false} IterateFailureSticks(t: Tables, n: nat, count: nat)
    requires n <= count && Iterate(t, n).Failure?
    ensures Iterate(t, count) == Iterate(t, n)
    decreases count
  {
    if count > n {
      IterateFailureSticks(t, n, count - 1);
    }
  }

  /** Every empty entry is recorded as empty, as it is in tables mapped from the stubs. */
  predicate EmptyRecorded(stubs: seq<Option<Stub>>, t: Tables)
  {
    forall i: nat :: i < |stubs| && stubs[i].None? ==> i in t.empty
  }

  /** Each given entry is not empty, so there are never more of them than valid entries. */
  lemma {:induction false} ListedAreUsed(stubs: seq<Option<Stub>>, t: Tables, k: nat)
    requires EmptyRecorded(stubs, t) && k <= |stubs|
    ensures |Listed(t, k)| <= CountUsed(stubs, k)
    decreases k
  {
    if k > 0 {
      ListedAreUsed(stubs, t, k - 1);
    }
  }

  lemma {:induction false} CountUsedGrows(stubs: seq<Option<Stub>>, j: nat, k: nat)
    requires j <= k <= |stubs|
    ensures CountUsed(stubs, j) <= CountUsed(stubs, k)
    decreases k
  {
    if j < k {
      CountUsedGrows(stubs, j, k - 1);
    }
  }

  /**
   * Over tables mapped from the same entries, `__iter__` never raises: it gives exactly
   * the entries that are neither empty nor child entries, in ascending order.
   */
  lemma {:induction false} IterateNeverRaises(stubs: seq<Option<Stub>>, t: Tables, k: nat)
    requires EmptyRecorded(stubs, t) && t.valid == CountUsed(stubs, |stubs|) && k <= |stubs|
    ensures Iterate(t, k) == Success(Listed(t, k))
    decreases k
  {
    if k > 0 {
      IterateNeverRaises(stubs, t, k - 1);
      ListedAreUsed(stubs, t, k - 1);
      CountUsedGrows(stubs, k - 1, |stubs|);
      var given := Listed(t, k - 1);
      assert |given| <= t.valid;
      assert Iterate(t, k) == if k - 1 in t.empty || k - 1 in t.childParent then Success(given) else Success(given + [k - 1]);
      assert given + [] == given;
    }
  }

  /** Every entry number of `xs` is below `n`. */
  predicate InRange(xs: seq<nat>, n: nat)
  {
    forall i :: 0 <= i < |xs| ==> xs[i] < n
  }

  /**
   * After `_load_stub_info` succeeds, `__iter__` never raises: it gives exactly the
   * entries that are neither empty nor child entries, in ascending order.
   */
  lemma {:induction false} IterateAfterLoad(stubs: seq<Option<Stub>>)
    requires Numbered(stubs) && MapStubs(NO_TABLES, stubs, |stubs|).Success?
    ensures var t := MapStubs(NO_TABLES, stubs, |stubs|).value;
      Iterate(t, |stubs|) == Success(Listed(t, |stubs|))
  {
    MapStubsOk(stubs, |stubs|);
    IterateNeverRaises(stubs, MapStubs(NO_TABLES, stubs, |stubs|).value, |stubs|);
  }

  /** The entries and their streams merged, as `merge_entries` does. */
  function MergeLoaded(l: Loaded, child: Loaded): Result<Loaded, StreamError>
  {
    var streams :- MergeStreams(l.streams, child.streams);
    Success(Loaded(MergeGroups(l.attrs, child.attrs), streams))
  }

  /** The switches of `MFTConfig` that decide how an entry is decoded. */
  datatype Switches = Switches(ignoreSignatureCheck: bool, applyFixupArray: bool, loadAttrs: set<nat>)

  /** `MFTEntry.create_from_binary` on an entry buffer, under the switches. */
  function Decoded(sw: Switches, v: seq<Byte>): Result<(MftHeader, Loaded), EntryError>
  {
    CreateEntry(sw.ignoreSignatureCheck, sw.applyFixupArray, sw.loadAttrs, v)
  }

  /** Each entry buffer decoded on its own. */
  function DecodeAll(sw: Switches, entries: seq<seq<Byte>>): (r: seq<Result<(MftHeader, Loaded), EntryError>>)
    ensures |r| == |entries|
  {
    seq(|entries|, i requires 0 <= i < |entries| => Decoded(sw, entries[i]))
  }

  /** Entry `i` is decoded from its own buffer, and a decoded entry is well formed. */
  lemma {:induction false} DecodeAllAt(sw: Switches, entries: seq<seq<Byte>>, i: nat)
    requires i < |entries|
    ensures DecodeAll(sw, entries)[i] == Decoded(sw, entries[i])
    ensures DecodeAll(sw, entries)[i].Success? ==> LoadedOk(DecodeAll(sw, entries)[i].value.1)
  {
  }

  /** Every decoded entry is well formed: its attributes grouped by type, its streams distinctly named. */
  predicate DecodesOk(ds: seq<Result<(MftHeader, Loaded), EntryError>>)
  {
    forall i :: 0 <= i < |ds| && ds[i].Success? ==> LoadedOk(ds[i].value.1)
  }

  lemma {:induction false} DecodeAllOk(sw: Switches, entries: seq<seq<Byte>>)
    ensures DecodesOk(DecodeAll(sw, entries))
  {
    forall i | 0 <= i < |entries| && DecodeAll(sw, entries)[i].Success?
      ensures LoadedOk(DecodeAll(sw, entries)[i].value.1)
    {
      DecodeAllAt(sw, entries, i);
    }
  }

  /** One child entry, decoded as `child`, merged into the entry read so far. */
  function AddChild(sofar: (MftHeader, Loaded), child: Result<(MftHeader, Loaded), EntryError>): Result<(MftHeader, Loaded), MftError>
  {
    if child.Failure? then Failure(EntryFailed(child.error))
    else
      var merged := MergeLoaded(sofar.1, child.value.1);
      if merged.Failure? then Failure(MergeFailed(merged.error)) else Success((sofar.0, merged.value))
  }

  /** What `merge_entries` leaves in an entry, read as the outcome of `AddChild`. */
  lemma {:induction false} MergedIsAddChild(sofar: (MftHeader, Loaded), child: Result<(MftHeader, Loaded), EntryError>,
                                            attrs: map<nat, seq<Attribute>>, streams: Result<seq<Stream>, StreamError>)
    requires child.Success?
    requires attrs == MergeGroups(sofar.1.attrs, child.value.1.attrs)
    requires streams == MergeStreams(sofar.1.streams, child.value.1.streams)
    ensures AddChild(sofar, child) == if streams.Failure? then Failure(MergeFailed(streams.error)) else Success((sofar.0, Loaded(attrs, streams.value)))
  {
  }

  /**
   * `_read_full_entry`: entry `index` decoded, then each entry of `extras` decoded and
   * merged into it, in order; `ds` holds the outcome of decoding each entry.
   */
  function FullEntry(ds: seq<Result<(MftHeader, Loaded), EntryError>>, index: nat, extras: seq<nat>): Result<(MftHeader, Loaded), MftError>
    requires index < |ds| && InRange(extras, |ds|)
    decreases |extras|
  {
    if extras == [] then
      var base := ds[index];
      if base.Failure? then Failure(EntryFailed(base.error)) else Success(base.value)
    else
      var sofar :- FullEntry(ds, index, extras[..|extras| - 1]);
      AddChild(sofar, ds[extras[|extras| - 1]])
  }

  /** The full entry over one more extra entry is the one before it with that entry added. */
  lemma {:induction false} FullEntryStep(ds: seq<Result<(MftHeader, Loaded), EntryError>>, index: nat, extras: seq<nat>, k: nat)
    requires index < |ds| && InRange(extras, |ds|) && k < |extras|
    requires FullEntry(ds, index, extras[..k]).Success?
    ensures FullEntry(ds, index, extras[..k + 1])
            == AddChild(FullEntry(ds, index, extras[..k]).value, ds[extras[k]])
  {
    assert extras[..k + 1][..k] == extras[..k];
  }

  /**
   * A full entry is well formed: its attributes are grouped by type, outside DATA, and
   * its streams carry distinct names; its header is that of the base entry.
   */
  lemma {:induction false} FullEntryOk(ds: seq<Result<(MftHeader, Loaded), EntryError>>, index: nat, extras: seq<nat>)
    requires index < |ds| && InRange(extras, |ds|) && DecodesOk(ds)
    requires FullEntry(ds, index, extras).Success?
    ensures var r := FullEntry(ds, index, extras).value;
      LoadedOk(r.1) && ds[index].Success? && r.0 == ds[index].value.0
    decreases |extras|
  {
    if extras != [] {
      var init := extras[..|extras| - 1];
      FullEntryOk(ds, index, init);
      var sofar := FullEntry(ds, index, init).value;
      var child := ds[extras[|extras| - 1]].value;
      MergeGroupsOk(sofar.1.attrs, child.1.attrs);
      MergeStreamsOk(sofar.1.streams, child.1.streams);
    }
  }

  /** A failure to decode or merge one extra entry is the failure of the whole read. */
  lemma {:induction false} FullEntryFailureSticks(ds: seq<Result<(MftHeader, Loaded), EntryError>>, index: nat, extras: seq<nat>, k: nat)
    requires index < |ds| && InRange(extras, |ds|)
    requires k <= |extras| && FullEntry(ds, index, extras[..k]).Failure?
    ensures FullEntry(ds, index, extras) == FullEntry(ds, index, extras[..k])
    decreases |extras| - k
  {
    if k < |extras| {
      assert extras[..k + 1][..k] == extras[..k];
      FullEntryFailureSticks(ds, index, extras, k + 1);
    } else {
      assert extras[..k] == extras;
    }
  }

  /** An array holding `b`. */
  method BufferOf(b: seq<Byte>) returns (a: array<Byte>)
    ensures fresh(a) && a[..] == b
  {
    a := new Byte[|b|](i requires 0 <= i < |b| => b[i]);
  }

  // ---------------------------------------------------------------------------
  // The MFT object
  // ---------------------------------------------------------------------------

  /** `MFT`: the configuration, the entry buffers of the file, and the relation tables. */
  class Mft {
    const config: MftConfig
    const entries: seq<seq<Byte>>
    var parentChild: map<nat, seq<nat>>
    var childParent: map<nat, nat>
    var emptyEntries: set<nat>
    var validEntries: nat

    function State(): Tables
      reads this
    {
      Tables(parentChild, childParent, emptyEntries, validEntries)
    }

    /** `MFT(file_pointer, mft_config)` before `_load_stub_info`: empty tables. */
    constructor(config: MftConfig, entries: seq<seq<Byte>>)
      ensures this.config == config && this.entries == entries && State() == NO_TABLES
    {
      this.config := config;
      this.entries := entries;
      parentChild, childParent, emptyEntries, validEntries := map[], map[], {}, 0;
    }

    /** `_load_stub_info`: a stub per entry, then the mapping loop over the stubs. */
    method LoadStubInfo() returns (r: Result<(), MftError>)
      requires forall i :: 0 <= i < |entries| ==> |entries[i]| >= STUB_SIZE
      modifies this
      ensures r.Success? <==> MapStubs(old(State()), StubsOf(entries), |entries|).Success?
      ensures r.Success? ==> State() == MapStubs(old(State()), StubsOf(entries), |entries|).value
      ensures r.Failure? ==> r.error == MapStubs(old(State()), StubsOf(entries), |entries|).error
    {
      var temp: seq<Option<Stub>> := [];
      for i := 0 to |entries|
        invariant temp == StubsOf(entries[..i])
      {
        assert entries[..i + 1][..i] == entries[..i];
        temp := temp + [LoadStub(entries[i][..STUB_SIZE], i)];
      }
      assert entries[..|entries|] == entries;
      for i := 0 to |temp|
        invariant MapStubs(old(State()), temp, i) == Success(State())
      {
        r := MapOne(temp, i);
        if r.Failure? {
          MapStubsFailureSticks(old(State()), temp, i + 1, |temp|);
          return;
        }
      }
      return Success(());
    }

    /** One turn of the mapping loop of `_load_stub_info`, for entry `i`. */
    method MapOne(temp: seq<Option<Stub>>, i: nat) returns (r: Result<(), MftError>)
      requires i < |temp|
      modifies this
      ensures r.Success? <==> MapStep(old(State()), temp, i).Success?
      ensures r.Success? ==> State() == MapStep(old(State()), temp, i).value
      ensures r.Failure? ==> r.error == MapStep(old(State()), temp, i).error
    {
      var stub := temp[i];
      if stub.None? {
        emptyEntries := emptyEntries + {i};
        return Success(());
      }
      validEntries := validEntries + 1;
      var s := stub.value;
      if s.baseRef != 0 {
        if s.baseRef >= |temp| {
          return Failure(BaseOutOfRange(i, s.baseRef));
        }
        var b := temp[s.baseRef];
        if b.None? {
          return Failure(BaseIsEmpty(i, s.baseRef));
        }
        if StubRelated(b.value, s) {
          parentChild := parentChild[s.baseRef := ChildrenOf(parentChild, s.baseRef) + [s.mftRecord]];
          childParent := childParent[s.mftRecord := s.baseRef];
        }
      }
      return Success(());
    }

    /** The switches of the configuration. */
    function Sw(): Switches
      reads config
    {
      Switches(config.ignoreSignatureCheck, config.applyFixupArray, config.loadAttrs)
    }

    /** `_read_full_entry(index)` with the entries of `extras` merged into it. */
    method ReadFullEntry(index: nat, extras: seq<nat>) returns (r: Result<MftEntry, MftError>)
      requires index < |entries| && InRange(extras, |entries|)
      ensures var spec := FullEntry(DecodeAll(Sw(), entries), index, extras);
        && (r.Success? <==> spec.Success?)
        && (r.Failure? ==> r.error == spec.error)
        && (r.Success? ==> fresh(r.value) && r.value.Valid())
        && (r.Success? ==> r.value.header == spec.value.0 && r.value.Contents() == spec.value.1)
    {
      ghost var ds := DecodeAll(Sw(), entries);
      var base := ReadOne(index, ds, []);
      assert extras[..0] == [];
      if base.Failure? {
        FullEntryFailureSticks(ds, index, extras, 0);
        return Failure(base.error);
      }
      r := MergeChildren(base.value, index, extras, ds);
    }

    /** The loop of `_read_full_entry`: each entry of `extras` decoded and merged into `entry`, in order. */
    method MergeChildren(entry: MftEntry, ghost index: nat, extras: seq<nat>, ghost ds: seq<Result<(MftHeader, Loaded), EntryError>>)
      returns (r: Result<MftEntry, MftError>)
      requires index < |entries| && InRange(extras, |entries|) && ds == DecodeAll(Sw(), entries)
      requires entry.Valid() && FullEntry(ds, index, []) == Success((entry.header, entry.Contents()))
      modifies entry, set d | d in entry.dataStreams
      ensures var spec := FullEntry(ds, index, extras);
        && (r.Success? <==> spec.Success?)
        && (r.Failure? ==> r.error == spec.error)
        && (r.Success? ==> r.value == entry && entry.Valid() && entry.header == spec.value.0 && entry.Contents() == spec.value.1)
    {
      assert extras[..0] == [];
      for k := 0 to |extras|
        invariant entry.Valid()
        invariant forall d :: d in entry.dataStreams ==> d in old(entry.dataStreams) || fresh(d)
        invariant FullEntry(ds, index, extras[..k]) == Success((entry.header, entry.Contents()))
      {
        FullEntryStep(ds, index, extras, k);
        var next := AddChildAt(entry, extras[k], (entry.header, entry.Contents()), ds);
        if next.Failure? {
          FullEntryFailureSticks(ds, index, extras, k + 1);
          return next;
        }
      }
      assert extras[..|extras|] == extras;
      return Success(entry);
    }

    /** One turn of the loop of `_read_full_entry`: entry `c` decoded and merged into `entry`, which holds `sofar`. */
    method AddChildAt(entry: MftEntry, c: nat, ghost sofar: (MftHeader, Loaded), ghost ds: seq<Result<(MftHeader, Loaded), EntryError>>)
      returns (r: Result<MftEntry, MftError>)
      requires c < |entries| && ds == DecodeAll(Sw(), entries)
      requires entry.Valid() && entry.header == sofar.0 && entry.Contents() == sofar.1
      modifies entry, set d | d in entry.dataStreams
      ensures var spec := AddChild(sofar, ds[c]);
        && (r.Success? <==> spec.Success?)
        && (r.Failure? ==> r.error == spec.error)
        && (r.Success? ==> r.value == entry && entry.Valid() && entry.header == spec.value.0 && entry.Contents() == spec.value.1)
      ensures forall d :: d in entry.dataStreams ==> d in old(entry.dataStreams) || fresh(d)
    {
      var child := ReadOne(c, ds, entry.dataStreams);
      if child.Failure? {
        return child;
      }
      r := MergeChild(entry, child.value, sofar, ds[c]);
    }

    /** `MFTEntry.create_from_binary` on entry `c`, whose decoding is `ds[c]`. */
    method ReadOne(c: nat, ghost ds: seq<Result<(MftHeader, Loaded), EntryError>>, ghost other: seq<Datastream>) returns (r: Result<MftEntry, MftError>)
      requires c < |entries| && ds == DecodeAll(Sw(), entries)
      ensures r.Success? <==> ds[c].Success?
      ensures r.Failure? ==> r.error == EntryFailed(ds[c].error)
      ensures r.Success? ==> fresh(r.value) && r.value.Valid() && r.value.header == ds[c].value.0 && r.value.Contents() == ds[c].value.1
      ensures r.Success? ==> forall d :: d in r.value.dataStreams ==> fresh(d)
      ensures r.Success? ==> forall i, j :: 0 <= i < |other| && 0 <= j < |r.value.dataStreams| ==> other[i] != r.value.dataStreams[j]
    {
      DecodeAllAt(Sw(), entries, c);
      var binary := BufferOf(entries[c]);
      var entry := MftEntry.CreateFromBinary(config, binary, c);
      if entry.Failure? {
        return Failure(EntryFailed(entry.error));
      }
      var source := entry.value;
      forall i, j | 0 <= i < |other| && 0 <= j < |source.dataStreams|
        ensures other[i] != source.dataStreams[j]
      {
        assert source.dataStreams[j] in source.dataStreams;
      }
      return Success(source);
    }

    /** One turn of the loop of `_read_full_entry`: `source`, decoded as `child`, merged into `entry`, which holds `sofar`. */
    method MergeChild(entry: MftEntry, source: MftEntry, ghost sofar: (MftHeader, Loaded), ghost child: Result<(MftHeader, Loaded), EntryError>)
      returns (r: Result<MftEntry, MftError>)
      requires child.Success? && source != entry && source.Valid() && source.Contents() == child.value.1
      requires forall i, j :: 0 <= i < |entry.dataStreams| && 0 <= j < |source.dataStreams| ==> entry.dataStreams[i] != source.dataStreams[j]
      requires entry.Valid() && entry.header == sofar.0 && entry.Contents() == sofar.1
      modifies entry, set d | d in entry.dataStreams
      ensures var spec := AddChild(sofar, child);
        && (r.Success? <==> spec.Success?)
        && (r.Failure? ==> r.error == spec.error)
        && (r.Success? ==> r.value == entry && entry.Valid() && entry.header == spec.value.0 && entry.Contents() == spec.value.1)
      ensures forall d :: d in entry.dataStreams ==> d in old(entry.dataStreams) || d in source.dataStreams
    {
      var merged := entry.MergeEntries(source);
      ghost var streams := MergeStreams(sofar.1.streams, child.value.1.streams);
      MergedIsAddChild(sofar, child, entry.attrs, streams);
      if merged.Failure? {
        return Failure(MergeFailed(merged.error));
      }
      assert entry.Contents() == Loaded(entry.attrs, streams.value);
      return Success(entry);
    }

    /**
     * `__getitem__(index)`: an empty entry and a child entry are refused; any other
     * entry is read with its child entries merged into it.
     */
    method GetItem(index: nat) returns (r: Result<MftEntry, MftError>)
      requires index < |entries| && InRange(ChildrenOf(parentChild, index), |entries|)
      ensures index in emptyEntries ==> r == Failure(EmptyEntry(index))
      ensures index !in emptyEntries && index in childParent ==> r == Failure(ChildEntry(index))
      ensures index !in emptyEntries && index !in childParent ==>
        var spec := FullEntry(DecodeAll(Sw(), entries), index, ChildrenOf(parentChild, index));
        && (r.Success? <==> spec.Success?)
        && (r.Failure? ==> r.error == spec.error)
        && (r.Success? ==> fresh(r.value) && r.value.Valid())
        && (r.Success? ==> r.value.header == spec.value.0 && r.value.Contents() == spec.value.1)
    {
      if index in emptyEntries {
        return Failure(EmptyEntry(index));
      }
      if index in childParent {
        return Failure(ChildEntry(index));
      }
      r := ReadFullEntry(index, ChildrenOf(parentChild, index));
    }

    /** The entry numbers `__iter__` visits, in order; it gives `self[n]` for each. */
    method IterEntries() returns (r: Result<seq<nat>, MftError>)
      ensures r == Iterate(State(), |entries|)
    {
      var given: seq<nat> := [];
      for n := 0 to |entries|
        invariant Iterate(State(), n) == Success(given)
      {
        if |given| > validEntries {
          IterateFailureSticks(State(), n + 1, |entries|);
          return Failure(SomethingWrong);
        }
        if n in emptyEntries || n in childParent {
          continue;
        }
        given := given + [n];
      }
      return Success(given);
    }
  }
}
