/**
 * `Datastream` of libmft/api2.py: one named data stream of an entry. A resident stream
 * keeps its content. A non-resident one keeps its fragments (the run list of one DATA
 * attribute, keyed by the first virtual cluster, VCN, it covers) pending until they can
 * be chained: `_collapse` moves a pending fragment into `_data_runs` when it starts
 * right after the last cluster taken so far, and repeats until a whole pass moves
 * nothing.
 */
module Api2Stream {
  import opened Wrappers
  import opened Bytes
  import opened Headers
  import opened DataRuns
  import opened ApiConfig
  import opened ApiAttribute

  /** One item `start_vcn: (end_vcn, data_runs)` of `_pending_processing`. */
  datatype Pending = Pending(startVcn: nat, endVcn: nat, runs: seq<DataRun>)

  /**
   * The state of a stream. `pending` is `_pending_processing` in its iteration
   * (insertion) order; it and `dataRuns` become absent once resident data arrives.
   * `clusterCount` is the last VCN taken, -1 while the fragment at VCN 0 waits.
   */
  datatype Stream2 = Stream2(
    name: Option<seq<Byte>>,
    size: nat,
    allocSize: nat,
    clusterCount: int,
    pending: Option<seq<Pending>>,
    dataRuns: Option<seq<seq<DataRun>>>,
    content: Option<seq<Byte>>)

  /** The exceptions `add_data_attribute` lets escape. */
  datatype StreamError2 =
      /** TypeError: a non-resident fragment after resident data, whose `_pending_processing` is None. */
    | PendingGone
      /** AttributeError: resident data whose content was not loaded (`load_data` off). */
    | ContentNotLoaded

  /** A state, and the exception raised on the way to it, if any: the source changes fields before it raises. */
  datatype Partial<T> = Partial(value: T, error: Option<StreamError2>)

  /** `Datastream(name)`. */
  function NewStream2(name: Option<seq<Byte>>): Stream2
  {
    Stream2(name, 0, 0, 0, Some([]), Some([]), None)
  }

  /** `is_resident`: the stream has no run lists. */
  predicate IsResident2(s: Stream2)
  {
    s.dataRuns.None?
  }

  /** The keys of `_pending_processing` are unique. */
  predicate UniqueStarts(ps: seq<Pending>)
  {
    forall i, j :: 0 <= i < j < |ps| ==> ps[i].startVcn != ps[j].startVcn
  }

  /** Pending fragments and run lists are present together, and pending keys are unique. */
  predicate StreamOk(s: Stream2)
  {
    && (s.pending.None? <==> s.dataRuns.None?)
    && (s.pending.Some? ==> UniqueStarts(s.pending.value))
  }

  lemma {:induction false} NewStreamOk(name: Option<seq<Byte>>)
    ensures StreamOk(NewStream2(name)) && !IsResident2(NewStream2(name))
  {
  }

  // ---------------------------------------------------------------------------
  // The pending dictionary
  // ---------------------------------------------------------------------------

  /** The position of the item keyed `vcn`. */
  function IndexOfStart(ps: seq<Pending>, vcn: nat): (r: Option<nat>)
    ensures r.Some? ==> r.value < |ps| && ps[r.value].startVcn == vcn
    ensures r.None? ==> forall i :: 0 <= i < |ps| ==> ps[i].startVcn != vcn
  {
    if ps == [] then None
    else if ps[0].startVcn == vcn then Some(0)
    else
      match IndexOfStart(ps[1..], vcn)
      case None => None
      case Some(i) => Some(i + 1)
  }

  /**
   * `_pending_processing[start_vcn] = (end_vcn, data_runs)`: an item with the same key
   * is replaced where it stands, otherwise the item goes last.
   */
  function Put(ps: seq<Pending>, p: Pending): (r: seq<Pending>)
  {
    match IndexOfStart(ps, p.startVcn)
    case Some(i) => ps[i := p]
    case None => ps + [p]
  }

  /**
   * After `Put` the keys stay unique, the new fragment is there, the fragments with
   * other keys all stay, and the only one that goes is the one with the same key.
   */
  lemma {:induction false} PutReplaces(ps: seq<Pending>, p: Pending)
    requires UniqueStarts(ps)
    ensures UniqueStarts(Put(ps, p)) && p in Put(ps, p)
    ensures forall q :: q in ps && q.startVcn != p.startVcn ==> q in Put(ps, p)
    ensures forall q :: q in Put(ps, p) ==> q == p || (q in ps && q.startVcn != p.startVcn)
  {
    var r := Put(ps, p);
    match IndexOfStart(ps, p.startVcn)
    case Some(i) =>
      assert r[i] == p;
      forall j, k | 0 <= j < k < |r| ensures r[j].startVcn != r[k].startVcn {
        if j != i && k != i {
          assert r[j] == ps[j] && r[k] == ps[k];
        } else if j == i {
          assert r[k] == ps[k] && ps[i].startVcn == p.startVcn;
        } else {
          assert r[j] == ps[j] && ps[i].startVcn == p.startVcn;
        }
      }
      forall q | q in ps && q.startVcn != p.startVcn
        ensures q in r
      {
        var k :| 0 <= k < |ps| && ps[k] == q;
        assert r[k] == q;
      }
      forall q | q in r
        ensures q == p || (q in ps && q.startVcn != p.startVcn)
      {
        var k :| 0 <= k < |r| && r[k] == q;
        if k != i {
          assert ps[k] == q;
        }
      }
    case None =>
      assert r[|ps|] == p;
      forall j, k | 0 <= j < k < |r| ensures r[j].startVcn != r[k].startVcn {
        assert r[j] == ps[j];
        if k < |ps| {
          assert r[k] == ps[k];
        }
      }
  }

  /** The fragments whose key is not in `keys`, in order: `del` of each key. */
  function Without(ps: seq<Pending>, keys: set<nat>): (r: seq<Pending>)
  {
    if ps == [] then []
    else if ps[0].startVcn in keys then Without(ps[1..], keys)
    else [ps[0]] + Without(ps[1..], keys)
  }

  /** The keys of some fragments. */
  function Starts(ms: seq<Pending>): (r: set<nat>)
  {
    if ms == [] then {} else {ms[0].startVcn} + Starts(ms[1..])
  }

  /** A key is among the keys of some fragments only when one of them has it. */
  lemma {:induction false} StartsMember(ms: seq<Pending>, k: nat)
    requires k in Starts(ms)
    ensures exists q :: q in ms && q.startVcn == k
    decreases |ms|
  {
    if ms[0].startVcn != k {
      StartsMember(ms[1..], k);
      var q :| q in ms[1..] && q.startVcn == k;
      assert q in ms;
    }
  }

  // ---------------------------------------------------------------------------
  // Chains of fragments
  // ---------------------------------------------------------------------------

  /** Each fragment starts right after the last cluster of the one before; the first right after `cc`. */
  predicate Contiguous(ms: seq<Pending>, cc: int)
  {
    ms == [] || (ms[0].startVcn == cc + 1 && Contiguous(ms[1..], ms[0].endVcn))
  }

  /** The last cluster of the chain, `cc` when it is empty. */
  function LastEnd(ms: seq<Pending>, cc: int): int
  {
    if ms == [] then cc else LastEnd(ms[1..], ms[0].endVcn)
  }

  /** Two chains, the second starting where the first ends, make one chain. */
  lemma {:induction false} ContiguousAppend(a: seq<Pending>, b: seq<Pending>, cc: int)
    requires Contiguous(a, cc) && Contiguous(b, LastEnd(a, cc))
    ensures Contiguous(a + b, cc) && LastEnd(a + b, cc) == LastEnd(b, LastEnd(a, cc))
    decreases |a|
  {
    if a != [] {
      ContiguousAppend(a[1..], b, a[0].endVcn);
      assert (a + b)[1..] == a[1..] + b;
    } else {
      assert a + b == b;
    }
  }

  /** The run lists of some fragments, in order. */
  function RunsOf(ms: seq<Pending>): (r: seq<seq<DataRun>>)
    ensures |r| == |ms|
  {
    if ms == [] then [] else [ms[0].runs] + RunsOf(ms[1..])
  }

  lemma {:induction false} RunsOfAppend(a: seq<Pending>, b: seq<Pending>)
    ensures RunsOf(a + b) == RunsOf(a) + RunsOf(b)
    decreases |a|
  {
    if a == [] {
      assert a + b == b;
    } else {
      var ab := a + b;
      assert ab[0] == a[0] && ab[1..] == a[1..] + b;
      RunsOfAppend(a[1..], b);
      assert RunsOf(ab) == [a[0].runs] + (RunsOf(a[1..]) + RunsOf(b));
      SeqAssoc([a[0].runs], RunsOf(a[1..]), RunsOf(b));
    }
  }

  // ---------------------------------------------------------------------------
  // _collapse
  // ---------------------------------------------------------------------------

  /** What one pass leaves: the fragments moved, in order, those kept, in order, and the count. */
  datatype Swept = Swept(moved: seq<Pending>, kept: seq<Pending>, clusterCount: int)

  /**
   * One pass of the `for` loop of `_collapse` over the items in order from count `cc`:
   * an item whose key is the count plus one is moved and its last VCN becomes the count,
   * so one pass can move several chained fragments.
   */
  function Pass(ps: seq<Pending>, cc: int): (r: Swept)
    ensures |r.moved| + |r.kept| == |ps|
    decreases |ps|
  {
    if ps == [] then Swept([], [], cc)
    else if ps[0].startVcn == cc + 1 then
      var r := Pass(ps[1..], ps[0].endVcn);
      Swept([ps[0]] + r.moved, r.kept, r.clusterCount)
    else
      var r := Pass(ps[1..], cc);
      Swept(r.moved, [ps[0]] + r.kept, r.clusterCount)
  }

  /**
   * The fragments a pass moves form a chain from the count it starts with, the count
   * it ends with is the end of that chain, and every item is either moved or kept.
   */
  lemma {:induction false} PassChains(ps: seq<Pending>, cc: int)
    ensures var r := Pass(ps, cc);
      && Contiguous(r.moved, cc) && r.clusterCount == LastEnd(r.moved, cc)
      && multiset(r.moved) + multiset(r.kept) == multiset(ps)
    decreases |ps|
  {
    if ps != [] {
      assert ps == [ps[0]] + ps[1..];
      if ps[0].startVcn == cc + 1 {
        PassChains(ps[1..], ps[0].endVcn);
        var r := Pass(ps[1..], ps[0].endVcn);
        assert ([ps[0]] + r.moved)[1..] == r.moved;
      } else {
        PassChains(ps[1..], cc);
      }
    }
  }

  /** A pass moves nothing exactly when no item is keyed the count plus one; it then keeps all. */
  lemma {:induction false} PassIdle(ps: seq<Pending>, cc: int)
    ensures Pass(ps, cc).moved == [] <==> forall p :: p in ps ==> p.startVcn != cc + 1
    ensures Pass(ps, cc).moved == [] ==> Pass(ps, cc).kept == ps && Pass(ps, cc).clusterCount == cc
    decreases |ps|
  {
    if ps != [] {
      PassIdle(ps[1..], cc);
      assert forall p :: p in ps <==> p == ps[0] || p in ps[1..];
    }
  }

  /** The tail of a list with unique keys has unique keys, none of them the key of the head. */
  lemma {:induction false} TailUnique(ps: seq<Pending>)
    requires ps != [] && UniqueStarts(ps)
    ensures UniqueStarts(ps[1..]) && forall q :: q in ps[1..] ==> q.startVcn != ps[0].startVcn
  {
    var rest := ps[1..];
    forall i, j | 0 <= i < j < |rest| ensures rest[i].startVcn != rest[j].startVcn {
      assert rest[i] == ps[i + 1] && rest[j] == ps[j + 1];
    }
    forall q | q in rest ensures q.startVcn != ps[0].startVcn {
      var k :| 0 <= k < |rest| && rest[k] == q;
      assert ps[k + 1] == q;
    }
  }

  /** The fragments a pass moves or keeps come from the items it passed over. */
  lemma {:induction false} PassMembers(ps: seq<Pending>, cc: int, q: Pending)
    requires q in Pass(ps, cc).moved || q in Pass(ps, cc).kept
    ensures q in ps
  {
    var r := Pass(ps, cc);
    PassChains(ps, cc);
    assert q in multiset(r.moved) + multiset(r.kept);
    assert q in multiset(ps);
  }

  /** With unique keys, the items a pass keeps are the items without the moved keys, and their keys stay unique. */
  lemma {:induction false} PassKept(ps: seq<Pending>, cc: int)
    requires UniqueStarts(ps)
    ensures Pass(ps, cc).kept == Without(ps, Starts(Pass(ps, cc).moved))
    ensures UniqueStarts(Pass(ps, cc).kept)
    decreases |ps|
  {
    if ps != [] {
      TailUnique(ps);
      var next := if ps[0].startVcn == cc + 1 then ps[0].endVcn else cc;
      PassKept(ps[1..], next);
      if ps[0].startVcn == cc + 1 {
        PassKeptMove(ps, cc);
      } else {
        PassKeptStay(ps, cc);
      }
    }
  }

  /** `PassKept` when the head is moved. */
  lemma {:induction false} PassKeptMove(ps: seq<Pending>, cc: int)
    requires ps != [] && ps[0].startVcn == cc + 1
    requires forall q :: q in ps[1..] ==> q.startVcn != ps[0].startVcn
    requires var r := Pass(ps[1..], ps[0].endVcn); r.kept == Without(ps[1..], Starts(r.moved)) && UniqueStarts(r.kept)
    ensures Pass(ps, cc).kept == Without(ps, Starts(Pass(ps, cc).moved)) && UniqueStarts(Pass(ps, cc).kept)
  {
    var r := Pass(ps[1..], ps[0].endVcn);
    assert Pass(ps, cc) == Swept([ps[0]] + r.moved, r.kept, r.clusterCount);
    assert ([ps[0]] + r.moved)[1..] == r.moved;
    assert Starts([ps[0]] + r.moved) == Starts(r.moved) + {ps[0].startVcn};
    WithoutAbsent(ps[1..], Starts(r.moved), ps[0].startVcn);
  }

  /** `PassKept` when the head is kept. */
  lemma {:induction false} PassKeptStay(ps: seq<Pending>, cc: int)
    requires ps != [] && ps[0].startVcn != cc + 1
    requires forall q :: q in ps[1..] ==> q.startVcn != ps[0].startVcn
    requires var r := Pass(ps[1..], cc); r.kept == Without(ps[1..], Starts(r.moved)) && UniqueStarts(r.kept)
    ensures Pass(ps, cc).kept == Without(ps, Starts(Pass(ps, cc).moved)) && UniqueStarts(Pass(ps, cc).kept)
  {
    var r := Pass(ps[1..], cc);
    assert Pass(ps, cc) == Swept(r.moved, [ps[0]] + r.kept, r.clusterCount);
    if ps[0].startVcn in Starts(r.moved) {
      StartsMember(r.moved, ps[0].startVcn);
      var q :| q in r.moved && q.startVcn == ps[0].startVcn;
      PassMembers(ps[1..], cc, q);
      assert false;
    }
    forall q | q in r.kept ensures q.startVcn != ps[0].startVcn {
      PassMembers(ps[1..], cc, q);
    }
    ConsUnique(ps[0], r.kept);
  }

  /** Leaving out a key no item has changes nothing. */
  lemma {:induction false} WithoutAbsent(ps: seq<Pending>, keys: set<nat>, k: nat)
    requires forall q :: q in ps ==> q.startVcn != k
    ensures Without(ps, keys + {k}) == Without(ps, keys)
    decreases |ps|
  {
    if ps != [] {
      assert ps[0] in ps;
      forall q | q in ps[1..] ensures q.startVcn != k {
        assert q in ps;
      }
      WithoutAbsent(ps[1..], keys, k);
    }
  }

  lemma {:induction false} ConsUnique(p: Pending, ps: seq<Pending>)
    requires UniqueStarts(ps) && forall q :: q in ps ==> q.startVcn != p.startVcn
    ensures UniqueStarts([p] + ps)
  {
    var r := [p] + ps;
    forall i, j | 0 <= i < j < |r| ensures r[i].startVcn != r[j].startVcn {
      assert r[j] == ps[j - 1];
      if i > 0 {
        assert r[i] == ps[i - 1];
      }
    }
  }

  /** Deleting the keys one by one deletes them all. */
  lemma {:induction false} WithoutMore(ps: seq<Pending>, keys: set<nat>, k: nat)
    ensures Without(Without(ps, keys), {k}) == Without(ps, keys + {k})
    decreases |ps|
  {
    if ps != [] {
      WithoutMore(ps[1..], keys, k);
      if ps[0].startVcn !in keys {
        var w := Without(ps, keys);
        assert w == [ps[0]] + Without(ps[1..], keys);
        assert w[1..] == Without(ps[1..], keys);
      }
    }
  }

  /** What `_collapse` leaves: all fragments moved, in order, those still pending, and the count. */
  datatype Collapsed = Collapsed(moved: seq<Pending>, pending: seq<Pending>, clusterCount: int)

  /** `_collapse` from items `ps` and count `cc`: passes until one moves nothing. */
  function CollapseOf(ps: seq<Pending>, cc: int): (r: Collapsed)
    decreases |ps|
  {
    var p := Pass(ps, cc);
    if p.moved == [] then Collapsed([], ps, cc)
    else
      var r := CollapseOf(p.kept, p.clusterCount);
      Collapsed(p.moved + r.moved, r.pending, r.clusterCount)
  }

  /**
   * The fragments `_collapse` moves form one chain from the count it starts with, the
   * count ends at the last cluster of that chain, no fragment is dropped, and no pending
   * item starts right after the count.
   */
  lemma {:induction false} CollapseChains(ps: seq<Pending>, cc: int)
    ensures var r := CollapseOf(ps, cc);
      && Contiguous(r.moved, cc) && r.clusterCount == LastEnd(r.moved, cc)
      && multiset(r.moved) + multiset(r.pending) == multiset(ps)
      && forall p :: p in r.pending ==> p.startVcn != r.clusterCount + 1
  {
    CollapseLinks(ps, cc);
    CollapseKeepsAll(ps, cc);
  }

  /** The chain half of `CollapseChains`. */
  lemma {:induction false} CollapseLinks(ps: seq<Pending>, cc: int)
    ensures var r := CollapseOf(ps, cc);
      Contiguous(r.moved, cc) && r.clusterCount == LastEnd(r.moved, cc)
    decreases |ps|
  {
    var p := Pass(ps, cc);
    if p.moved != [] {
      PassChains(ps, cc);
      CollapseLinks(p.kept, p.clusterCount);
      var r := CollapseOf(p.kept, p.clusterCount);
      ContiguousAppend(p.moved, r.moved, cc);
    }
  }

  /** The bookkeeping half of `CollapseChains`: nothing dropped, and a fixed point reached. */
  lemma {:induction false} CollapseKeepsAll(ps: seq<Pending>, cc: int)
    ensures var r := CollapseOf(ps, cc);
      && multiset(r.moved) + multiset(r.pending) == multiset(ps)
      && forall p :: p in r.pending ==> p.startVcn != r.clusterCount + 1
    decreases |ps|
  {
    var p := Pass(ps, cc);
    if p.moved == [] {
      PassIdle(ps, cc);
    } else {
      PassChains(ps, cc);
      CollapseKeepsAll(p.kept, p.clusterCount);
      var r := CollapseOf(p.kept, p.clusterCount);
      assert multiset(p.moved + r.moved) == multiset(p.moved) + multiset(r.moved);
    }
  }

  /** A pass that moves nothing ends the collapse. */
  lemma {:induction false} CollapseIdle(ps: seq<Pending>, cc: int)
    requires Pass(ps, cc).moved == []
    ensures CollapseOf(ps, cc) == Collapsed([], ps, cc)
  {
  }

  /** A pass that moves something is followed by the collapse of what it kept. */
  lemma {:induction false} CollapseStep(ps: seq<Pending>, cc: int)
    requires Pass(ps, cc).moved != []
    ensures var p := Pass(ps, cc);
      var r := CollapseOf(p.kept, p.clusterCount);
      CollapseOf(ps, cc) == Collapsed(p.moved + r.moved, r.pending, r.clusterCount)
  {
  }

  /** The invariant of `_collapse`: what is left to do from items `ps` and count `cc`, after the fragments `taken`, completes `spec`. */
  ghost predicate CollapsingAt(spec: Collapsed, taken: seq<Pending>, runs0: seq<seq<DataRun>>,
                               ps: seq<Pending>, cc: int, runs: seq<seq<DataRun>>)
  {
    && UniqueStarts(ps)
    && runs == runs0 + RunsOf(taken)
    && var c := CollapseOf(ps, cc);
      spec == Collapsed(taken + c.moved, c.pending, c.clusterCount)
  }

  /** One turn of the `while` loop of `_collapse` that moved something keeps its invariant. */
  lemma {:induction false} TurnMoved(spec: Collapsed, taken: seq<Pending>, runs0: seq<seq<DataRun>>,
                                     ps: seq<Pending>, cc: int, runs: seq<seq<DataRun>>)
    requires CollapsingAt(spec, taken, runs0, ps, cc, runs) && Pass(ps, cc).moved != []
    ensures var p := Pass(ps, cc);
      CollapsingAt(spec, taken + p.moved, runs0, p.kept, p.clusterCount, runs + RunsOf(p.moved))
  {
    var p := Pass(ps, cc);
    var c := CollapseOf(p.kept, p.clusterCount);
    CollapseStep(ps, cc);
    assert spec == Collapsed(taken + (p.moved + c.moved), c.pending, c.clusterCount);
    SeqAssoc(taken, p.moved, c.moved);
    assert spec == Collapsed((taken + p.moved) + c.moved, c.pending, c.clusterCount);
    PassKept(ps, cc);
    RunsOfAppend(taken, p.moved);
    SeqAssoc(runs0, RunsOf(taken), RunsOf(p.moved));
  }

  lemma {:induction false} SeqAssoc<T>(a: seq<T>, b: seq<T>, c: seq<T>)
    ensures (a + b) + c == a + (b + c)
  {
    assert (a + b) + c == a + (b + c);
  }

  /** Pending keys stay unique through the collapse. */
  lemma {:induction false} CollapseKeepsUnique(ps: seq<Pending>, cc: int)
    requires UniqueStarts(ps)
    ensures UniqueStarts(CollapseOf(ps, cc).pending)
    decreases |ps|
  {
    var p := Pass(ps, cc);
    if p.moved == [] {
      CollapseIdle(ps, cc);
    } else {
      PassKept(ps, cc);
      CollapseKeepsUnique(p.kept, p.clusterCount);
      CollapseStep(ps, cc);
    }
  }

  /** Collapsing again changes nothing. */
  lemma {:induction false} CollapseIdempotent(ps: seq<Pending>, cc: int)
    ensures var r := CollapseOf(ps, cc);
      CollapseOf(r.pending, r.clusterCount) == Collapsed([], r.pending, r.clusterCount)
  {
    var r := CollapseOf(ps, cc);
    CollapseChains(ps, cc);
    PassIdle(r.pending, r.clusterCount);
  }

  /** A fragment keyed the count plus one, the only one with that key, is the first fragment moved. */
  lemma {:induction false} NextFragmentLeads(ps: seq<Pending>, cc: int, f: Pending)
    requires UniqueStarts(ps) && f in ps && f.startVcn == cc + 1
    ensures CollapseOf(ps, cc).moved != [] && CollapseOf(ps, cc).moved[0] == f
  {
    PassLeads(ps, cc, f);
    PassIdle(ps, cc);
  }

  lemma {:induction false} PassLeads(ps: seq<Pending>, cc: int, f: Pending)
    requires UniqueStarts(ps) && f in ps && f.startVcn == cc + 1
    ensures Pass(ps, cc).moved != [] && Pass(ps, cc).moved[0] == f
    decreases |ps|
  {
    if ps[0] != f {
      assert f in ps[1..];
      assert ps[0].startVcn != f.startVcn by {
        var k :| 0 <= k < |ps| && ps[k] == f;
      }
      assert UniqueStarts(ps[1..]) by {
        forall i, j | 0 <= i < j < |ps[1..]| ensures ps[1..][i].startVcn != ps[1..][j].startVcn {
          assert ps[1..][i] == ps[i + 1] && ps[1..][j] == ps[j + 1];
        }
      }
      PassLeads(ps[1..], cc, f);
    }
  }

  // ---------------------------------------------------------------------------
  // add_data_attribute
  // ---------------------------------------------------------------------------

  /** What the stream accepts: a DATA attribute whose header is consistent, with its raw bytes as content when it has any. */
  predicate DataAttribute(a: Attribute)
  {
    && WellFormed(a.header)
    && a.header.attrTypeId == DATA
    && (a.content.Some? ==> a.content.value.DataContent?)
  }

  /** The fragment a non-resident attribute contributes. */
  function FragmentOf(nh: NonResidentHeader): Pending
  {
    Pending(nh.startVcn, nh.endVcn, nh.dataRuns)
  }

  /** The stream once a non-resident fragment was put pending and the pending items collapsed. */
  function AddFragment(s: Stream2, nh: NonResidentHeader): (r: Stream2)
    requires StreamOk(s) && s.pending.Some?
  {
    var ps := Put(s.pending.value, FragmentOf(nh));
    var t := if nh.startVcn == 0 then s.(clusterCount := -1, size := nh.currSstream, allocSize := nh.allocSstream) else s;
    var c := CollapseOf(ps, t.clusterCount);
    t.(pending := Some(c.pending), clusterCount := c.clusterCount, dataRuns := Some(t.dataRuns.value + RunsOf(c.moved)))
  }

  /**
   * `add_data_attribute`. The type and name checks of the source do nothing. A
   * non-resident attribute is pending under its first VCN (one starting at VCN 0 also
   * resets the count and gives the sizes) and the stream collapses; resident data sets
   * both sizes to its length, drops the run lists and keeps its bytes.
   */
  function AddData2(s: Stream2, a: Attribute): (r: Partial<Stream2>)
    requires StreamOk(s) && DataAttribute(a)
  {
    match a.header.form
    case NonResident(nh) =>
      if s.pending.None? then Partial(s, Some(PendingGone))
      else Partial(AddFragment(s, nh), None)
    case Resident(rh) =>
      var t := s.(size := rh.contentLen, allocSize := rh.contentLen, dataRuns := None, pending := None);
      if a.content.None? then Partial(t, Some(ContentNotLoaded))
      else Partial(t.(content := Some(a.content.value.data)), None)
  }

  /** A fragment added to a non-resident stream leaves it consistent, non-resident and with its name. */
  lemma {:induction false} AddFragmentOk(s: Stream2, nh: NonResidentHeader)
    requires StreamOk(s) && s.pending.Some?
    ensures StreamOk(AddFragment(s, nh)) && !IsResident2(AddFragment(s, nh)) && AddFragment(s, nh).name == s.name
  {
    var ps := Put(s.pending.value, FragmentOf(nh));
    PutReplaces(s.pending.value, FragmentOf(nh));
    var cc := if nh.startVcn == 0 then -1 else s.clusterCount;
    CollapseKeepsUnique(ps, cc);
  }

  /**
   * Adding data keeps the stream consistent and its name; the stream is resident
   * afterwards exactly when the data is resident or the stream already was; only a
   * non-resident fragment after resident data raises a TypeError, and then nothing changes.
   */
  lemma {:induction false} AddDataKeepsStream(s: Stream2, a: Attribute)
    requires StreamOk(s) && DataAttribute(a)
    ensures StreamOk(AddData2(s, a).value) && AddData2(s, a).value.name == s.name
    ensures IsResident2(AddData2(s, a).value) <==> !a.header.nonResident || IsResident2(s)
    ensures AddData2(s, a).error == Some(PendingGone) <==> a.header.nonResident && IsResident2(s)
    ensures AddData2(s, a).error == Some(PendingGone) ==> AddData2(s, a).value == s
  {
    match a.header.form
    case NonResident(nh) =>
      if s.pending.Some? {
        AddFragmentOk(s, nh);
      }
    case Resident(rh) =>
  }

  /** Resident data sets both sizes to the content length and makes the stream resident. */
  lemma {:induction false} ResidentDataSizes(s: Stream2, a: Attribute)
    requires StreamOk(s) && DataAttribute(a) && a.header.form.Resident?
    ensures var r := AddData2(s, a).value;
      && r.size == r.allocSize == a.header.form.resident.contentLen
      && IsResident2(r) && r.pending.None?
      && (a.content.Some? <==> AddData2(s, a).error.None?)
      && (a.content.Some? ==> r.content == Some(a.content.value.data))
  {
  }

  /**
   * The fragment at VCN 0 on a non-resident stream: the sizes come from it, and its run
   * list is the first one the collapse appends.
   */
  lemma {:induction false} FirstFragmentLeads(s: Stream2, nh: NonResidentHeader)
    requires StreamOk(s) && s.pending.Some? && nh.startVcn == 0
    ensures var r := AddFragment(s, nh);
      && r.size == nh.currSstream && r.allocSize == nh.allocSstream
      && |r.dataRuns.value| > |s.dataRuns.value| && r.dataRuns.value[|s.dataRuns.value|] == nh.dataRuns
  {
    var ps := Put(s.pending.value, FragmentOf(nh));
    PutReplaces(s.pending.value, FragmentOf(nh));
    NextFragmentLeads(ps, -1, FragmentOf(nh));
    var c := CollapseOf(ps, -1);
    assert RunsOf(c.moved)[0] == c.moved[0].runs;
  }

  /**
   * After a fragment is added to a non-resident stream, the run lists are the old ones
   * followed by a chain of fragments from the old count (from -1 for a fragment at
   * VCN 0), the count is the end of that chain, every fragment is either still pending
   * or in the chain, and none pending starts right after the count.
   */
  lemma {:induction false} AddFragmentChains(s: Stream2, nh: NonResidentHeader)
    requires StreamOk(s) && s.pending.Some?
    ensures var r := AddFragment(s, nh);
      var from := if nh.startVcn == 0 then -1 else s.clusterCount;
      exists moved: seq<Pending> ::
        && r.dataRuns == Some(s.dataRuns.value + RunsOf(moved))
        && Contiguous(moved, from) && r.clusterCount == LastEnd(moved, from)
        && multiset(moved) + multiset(r.pending.value) == multiset(Put(s.pending.value, FragmentOf(nh)))
        && (forall p :: p in r.pending.value ==> p.startVcn != r.clusterCount + 1)
  {
    var from := if nh.startVcn == 0 then -1 else s.clusterCount;
    var c := CollapseOf(Put(s.pending.value, FragmentOf(nh)), from);
    var r := AddFragment(s, nh);
    CollapseChains(Put(s.pending.value, FragmentOf(nh)), from);
    assert r.dataRuns == Some(s.dataRuns.value + RunsOf(c.moved)) && r.pending == Some(c.pending)
      && r.clusterCount == c.clusterCount;
    assert Contiguous(c.moved, from) && r.clusterCount == LastEnd(c.moved, from);
  }

  // ---------------------------------------------------------------------------
  // The object
  // ---------------------------------------------------------------------------

  class Datastream2 {
    const name: Option<seq<Byte>>
    var size: nat
    var allocSize: nat
    var clusterCount: int
    var pending: Option<seq<Pending>>
    var dataRuns: Option<seq<seq<DataRun>>>
    var content: Option<seq<Byte>>

    function State(): Stream2
      reads this
    {
      Stream2(name, size, allocSize, clusterCount, pending, dataRuns, content)
    }

    predicate Valid()
      reads this
    {
      StreamOk(State())
    }

    /** `Datastream(name)`: nothing taken, nothing pending. */
    constructor(name: Option<seq<Byte>>)
      ensures State() == NewStream2(name) && Valid()
    {
      this.name := name;
      size, allocSize, clusterCount := 0, 0, 0;
      pending, dataRuns, content := Some([]), Some([]), None;
    }

    /** `is_resident`. */
    method IsResident() returns (b: bool)
      ensures b <==> IsResident2(State())
    {
      return dataRuns.None?;
    }

    /** `add_data_attribute`; the exception raised, if any, after the fields it changed. */
    method AddDataAttribute(a: Attribute) returns (err: Option<StreamError2>)
      requires Valid() && DataAttribute(a)
      modifies this
      ensures Valid()
      ensures Partial(State(), err) == AddData2(old(State()), a)
    {
      AddDataKeepsStream(State(), a);
      match a.header.form
      case NonResident(nh) =>
        if pending.None? {
          return Some(PendingGone);
        }
        AddPending(nh);
        return None;
      case Resident(rh) =>
        size := rh.contentLen;
        allocSize := rh.contentLen;
        dataRuns := None;
        pending := None;
        if a.content.None? {
          return Some(ContentNotLoaded);
        }
        content := Some(a.content.value.data);
        return None;
    }

    /** The non-resident branch of `add_data_attribute`. */
    method AddPending(nh: NonResidentHeader)
      requires Valid() && pending.Some?
      modifies this
      ensures State() == AddFragment(old(State()), nh)
    {
      PutReplaces(pending.value, FragmentOf(nh));
      pending := Some(Put(pending.value, FragmentOf(nh)));
      if nh.startVcn == 0 {
        clusterCount := -1;
        size := nh.currSstream;
        allocSize := nh.allocSstream;
      }
      Collapse();
    }

    /** `_collapse`: passes over the pending items, each followed by the deletion of the moved keys, until a pass moves nothing. */
    method Collapse()
      requires pending.Some? && dataRuns.Some? && UniqueStarts(pending.value)
      modifies this
      ensures var c := CollapseOf(old(pending.value), old(clusterCount));
        && pending == Some(c.pending) && clusterCount == c.clusterCount
        && dataRuns == Some(old(dataRuns.value) + RunsOf(c.moved))
      ensures size == old(size) && allocSize == old(allocSize) && content == old(content)
    {
      ghost var spec := CollapseOf(pending.value, clusterCount);
      ghost var taken: seq<Pending> := [];
      assert old(dataRuns.value) + RunsOf(taken) == old(dataRuns.value);
      var changed := true;
      while changed
        invariant Collapsing(spec, taken, old(dataRuns.value))
        invariant size == old(size) && allocSize == old(allocSize) && content == old(content)
        invariant !changed ==> Pass(pending.value, clusterCount).moved == []
        decreases if changed then |pending.value| + 1 else 0
      {
        changed, taken := CollapseTurn(spec, taken, old(dataRuns.value));
      }
      CollapseIdle(pending.value, clusterCount);
      assert taken + [] == taken;
      assert spec == Collapsed(taken, pending.value, clusterCount);
    }

    /** The invariant of `_collapse`, on this stream. */
    ghost predicate Collapsing(spec: Collapsed, taken: seq<Pending>, runs0: seq<seq<DataRun>>)
      reads this
    {
      pending.Some? && dataRuns.Some? && CollapsingAt(spec, taken, runs0, pending.value, clusterCount, dataRuns.value)
    }

    /** One turn of the `while` loop of `_collapse`. */
    method CollapseTurn(ghost spec: Collapsed, ghost taken: seq<Pending>, ghost runs0: seq<seq<DataRun>>)
      returns (changed: bool, ghost taken': seq<Pending>)
      requires Collapsing(spec, taken, runs0)
      modifies this
      ensures Collapsing(spec, taken', runs0)
      ensures size == old(size) && allocSize == old(allocSize) && content == old(content)
      ensures !changed ==> Pass(pending.value, clusterCount).moved == []
      ensures changed ==> |pending.value| < |old(pending.value)|
    {
      ghost var before, cc, runs := pending.value, clusterCount, dataRuns.value;
      ghost var moved;
      changed, moved := SweepOnce();
      if changed {
        TurnMoved(spec, taken, runs0, before, cc, runs);
        taken' := taken + moved;
      } else {
        PassIdle(before, cc);
        taken' := taken;
      }
    }

    /**
     * One turn of the `while` loop of `_collapse`: the `for` loop over the items, then
     * the `del` of each moved key. Gives whether a fragment moved, and which did.
     */
    method SweepOnce() returns (changed: bool, ghost moved: seq<Pending>)
      requires pending.Some? && dataRuns.Some? && UniqueStarts(pending.value)
      modifies this
      ensures var p := Pass(old(pending.value), old(clusterCount));
        && moved == p.moved && (changed <==> moved != [])
        && pending == Some(p.kept) && clusterCount == p.clusterCount
        && dataRuns == Some(old(dataRuns.value) + RunsOf(p.moved))
        && UniqueStarts(p.kept)
      ensures size == old(size) && allocSize == old(allocSize) && content == old(content)
    {
      var remove;
      changed, remove, moved := PassOver();
      PassKept(old(pending.value), old(clusterCount));
      DeleteKeys(remove, moved);
    }

    /** The `for` loop of `_collapse`: the keys to delete, in order. */
    method PassOver() returns (changed: bool, remove: seq<nat>, ghost moved: seq<Pending>)
      requires pending.Some? && dataRuns.Some?
      modifies this
      ensures var p := Pass(old(pending.value), old(clusterCount));
        && moved == p.moved && (changed <==> moved != [])
        && clusterCount == p.clusterCount
        && dataRuns == Some(old(dataRuns.value) + RunsOf(p.moved))
      ensures |remove| == |moved| && forall j :: 0 <= j < |moved| ==> remove[j] == moved[j].startVcn
      ensures pending == old(pending) && size == old(size) && allocSize == old(allocSize) && content == old(content)
    {
      var items := pending.value;
      ghost var cc0 := clusterCount;
      remove := [];
      changed := false;
      moved := [];
      assert items[0..] == items;
      assert old(dataRuns.value) + RunsOf(moved) == old(dataRuns.value);
      for i := 0 to |items|
        invariant changed <==> moved != []
        invariant pending == old(pending) && size == old(size) && allocSize == old(allocSize) && content == old(content)
        invariant dataRuns == Some(old(dataRuns.value) + RunsOf(moved))
        invariant |remove| == |moved| && forall j :: 0 <= j < |moved| ==> remove[j] == moved[j].startVcn
        invariant Pass(items, cc0).moved == moved + Pass(items[i..], clusterCount).moved
        invariant Pass(items, cc0).clusterCount == Pass(items[i..], clusterCount).clusterCount
      {
        PassAdvance(items, i, clusterCount, cc0, moved);
        if items[i].startVcn == clusterCount + 1 {
          clusterCount := items[i].endVcn;
          RunsOfAppend(moved, [items[i]]);
          assert RunsOf([items[i]]) == [items[i].runs];
          SeqAssoc(old(dataRuns.value), RunsOf(moved), [items[i].runs]);
          dataRuns := Some(dataRuns.value + [items[i].runs]);
          remove := remove + [items[i].startVcn];
          moved := moved + [items[i]];
          changed := true;
        }
      }
    }

    /** The `del` loop of `_collapse`. */
    method DeleteKeys(remove: seq<nat>, ghost moved: seq<Pending>)
      requires pending.Some?
      requires |remove| == |moved| && forall j :: 0 <= j < |moved| ==> remove[j] == moved[j].startVcn
      modifies this
      ensures pending == Some(Without(old(pending.value), Starts(moved)))
      ensures clusterCount == old(clusterCount) && dataRuns == old(dataRuns)
      ensures size == old(size) && allocSize == old(allocSize) && content == old(content)
    {
      ghost var items := pending.value;
      WithoutNothing(items);
      for j := 0 to |remove|
        invariant pending == Some(Without(items, Starts(moved[..j])))
        invariant clusterCount == old(clusterCount) && dataRuns == old(dataRuns)
        invariant size == old(size) && allocSize == old(allocSize) && content == old(content)
      {
        WithoutMore(items, Starts(moved[..j]), remove[j]);
        StartsSnoc(moved, j);
        pending := Some(Without(pending.value, {remove[j]}));
      }
      assert moved[..|remove|] == moved;
    }
  }

  /** One turn of the `for` loop of `_collapse`: the item at `i` is moved or passed over. */
  lemma {:induction false} PassAdvance(items: seq<Pending>, i: nat, cc: int, cc0: int, moved: seq<Pending>)
    requires i < |items|
    requires Pass(items, cc0).moved == moved + Pass(items[i..], cc).moved
    requires Pass(items, cc0).clusterCount == Pass(items[i..], cc).clusterCount
    ensures var take := items[i].startVcn == cc + 1;
      var next := if take then items[i].endVcn else cc;
      var moved' := if take then moved + [items[i]] else moved;
      && Pass(items, cc0).moved == moved' + Pass(items[i + 1..], next).moved
      && Pass(items, cc0).clusterCount == Pass(items[i + 1..], next).clusterCount
  {
    var ps := items[i..];
    assert ps[0] == items[i] && ps[1..] == items[i + 1..];
    if items[i].startVcn == cc + 1 {
      assert Pass(ps, cc).moved == [items[i]] + Pass(items[i + 1..], items[i].endVcn).moved;
      assert moved + ([items[i]] + Pass(items[i + 1..], items[i].endVcn).moved)
          == (moved + [items[i]]) + Pass(items[i + 1..], items[i].endVcn).moved;
    }
  }

  lemma {:induction false} WithoutNothing(ps: seq<Pending>)
    ensures Without(ps, Starts([])) == ps
    decreases |ps|
  {
    if ps != [] {
      WithoutNothing(ps[1..]);
      assert [ps[0]] + ps[1..] == ps;
    }
  }

  lemma {:induction false} StartsSnoc(ms: seq<Pending>, j: nat)
    requires j < |ms|
    ensures Starts(ms[..j + 1]) == Starts(ms[..j]) + {ms[j].startVcn}
    decreases j
  {
    if j > 0 {
      StartsSnoc(ms[1..], j - 1);
      assert ms[..j + 1][1..] == ms[1..][..j];
      assert ms[..j][1..] == ms[1..][..j - 1];
    }
  }
}
