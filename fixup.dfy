/**
 * `apply_fixup_array` of libmft/util/functions.py: NTFS protects multi-sector records
 * with an update sequence. The last two bytes of every sector were replaced on disk
 * by a signature (fixup element 0); the original bytes are kept in the fixup array
 * (elements 1, 2, ...). The repair checks each sector tail against the signature and
 * writes the saved bytes back, in place.
 *
 * The fixup array is a view into the same buffer, so the loop below reads the
 * signature and the replacement from the CURRENT bytes, as the source does; the
 * lemmas then show what the repair does when the array does not overlap a tail.
 */
module Fixup {
  import opened Wrappers
  import opened Bytes

  datatype FixupOutcome =
    | Applied
      /** FixUpError: the tail at `position` does not hold the signature. */
    | SectorMismatch(position: int)
      /** ValueError of the slice assignment: fixup element `index` is missing or short. */
    | ReplacementMismatch(index: nat)
      /** `fx_count == 1` divides the entry size by zero. */
    | ZeroDivision
      /** The loop never ends: empty slices keep comparing equal. */
    | NeverReturns

  /** The sector size the source infers, `int(entry_size / (fx_count - 1))`. */
  function Sector(entrySize: nat, fxCount: nat): nat
    requires fxCount >= 2
  {
    entrySize / (fxCount - 1)
  }

  /**
   * Position of the two-byte tail of sector `index` (1-based), `sector * index - 2`,
   * counted up sector by sector so that the proofs need no multiplication.
   */
  function TailStart(sector: nat, index: nat): int
  {
    if index == 0 then -2 else TailStart(sector, index - 1) + sector
  }

  lemma {:induction false} TailStartIsProduct(sector: nat, index: nat)
    ensures TailStart(sector, index) == sector * index - 2
  {
    if index > 0 {
      TailStartIsProduct(sector, index - 1);
    }
  }

  /** The fixup array, `bin_view[fx_offset:fx_offset + 2*fx_count]`. */
  function FixupView(s: seq<Byte>, fxOffset: nat, fxCount: nat): seq<Byte>
  {
    Slice(s, fxOffset, fxOffset + 2 * fxCount)
  }

  /** `s` with the bytes `rep` written from position `lo` on. */
  function Overwrite(s: seq<Byte>, lo: nat, rep: seq<Byte>): (t: seq<Byte>)
    requires lo + |rep| <= |s|
    ensures |t| == |s|
    ensures forall k :: 0 <= k < |s| ==> t[k] == if lo <= k < lo + |rep| then rep[k - lo] else s[k]
  {
    s[..lo] + rep + s[lo + |rep|..]
  }

  /**
   * The checks of one turn of the loop at tail position `p` for sector `index`, over
   * the current bytes `s`: the outcome if the loop stops here, `None` if it goes on.
   */
  function TailCheck(s: seq<Byte>, fxOffset: nat, fxCount: nat, p: int, index: nat): Option<FixupOutcome>
  {
    var fx := FixupView(s, fxOffset, fxCount);
    var tail := Slice(s, p, p + 2);
    if tail != Slice(fx, 0, 2) then Some(SectorMismatch(p))
    else if |Slice(fx, index * 2, index * 2 + 2)| != |tail| then Some(ReplacementMismatch(index))
    else None
  }

  /** The write of one turn of the loop: fixup element `index` over the tail at `p`. */
  function TailRepair(s: seq<Byte>, fxOffset: nat, fxCount: nat, p: int, index: nat): (t: seq<Byte>)
    requires TailCheck(s, fxOffset, fxCount, p, index).None?
    ensures |t| == |s|
  {
    Overwrite(s, SliceBound(|s|, p), Slice(FixupView(s, fxOffset, fxCount), index * 2, index * 2 + 2))
  }

  /**
   * The check-and-replace loop from sector `index` on, over the current bytes `s`:
   * the outcome and the bytes when it stops.
   */
  function FixupFrom(s: seq<Byte>, fxOffset: nat, fxCount: nat, sector: nat, index: nat): (r: (FixupOutcome, seq<Byte>))
    requires 1 <= sector && 1 <= index
    ensures |r.1| == |s|
    decreases |s| + 2 - TailStart(sector, index)
  {
    var p := TailStart(sector, index);
    if p > |s| then (Applied, s)
    else
      var stop := TailCheck(s, fxOffset, fxCount, p, index);
      if stop.Some? then (stop.value, s)
      else FixupFrom(TailRepair(s, fxOffset, fxCount, p, index), fxOffset, fxCount, sector, index + 1)
  }

  /** A turn of the loop that neither stops nor leaves it hands on the repaired bytes. */
  lemma FixupFromStep(s: seq<Byte>, fxOffset: nat, fxCount: nat, sector: nat, index: nat)
    requires 1 <= sector && 1 <= index && TailStart(sector, index) <= |s|
    requires TailCheck(s, fxOffset, fxCount, TailStart(sector, index), index).None?
    ensures FixupFrom(s, fxOffset, fxCount, sector, index)
         == FixupFrom(TailRepair(s, fxOffset, fxCount, TailStart(sector, index), index), fxOffset, fxCount, sector, index + 1)
  {
  }

  /** A turn of the loop whose checks fail ends the loop with their outcome. */
  lemma FixupFromHalts(s: seq<Byte>, fxOffset: nat, fxCount: nat, sector: nat, index: nat)
    requires 1 <= sector && 1 <= index && TailStart(sector, index) <= |s|
    requires TailCheck(s, fxOffset, fxCount, TailStart(sector, index), index).Some?
    ensures FixupFrom(s, fxOffset, fxCount, sector, index)
         == (TailCheck(s, fxOffset, fxCount, TailStart(sector, index), index).value, s)
  {
  }

  /** What `apply_fixup_array(s, fx_offset, fx_count, len(s))` does: its outcome and the new bytes. */
  function Fixup(s: seq<Byte>, fxOffset: nat, fxCount: nat): (FixupOutcome, seq<Byte>)
  {
    if fxCount == 0 then (NeverReturns, s)
    else if fxCount == 1 then (ZeroDivision, s)
    else if Sector(|s|, fxCount) == 0 then
      // the position stays at -2, where the tail `s[-2:0]` is empty
      if Slice(FixupView(s, fxOffset, fxCount), 0, 2) == [] then (NeverReturns, s) else (SectorMismatch(-2), s)
    else FixupFrom(s, fxOffset, fxCount, Sector(|s|, fxCount), 1)
  }

  /** Slice assignment `buf[lo:lo + len(rep)] = rep` on a memoryview. */
  method AssignSlice(buf: array<Byte>, lo: nat, rep: seq<Byte>)
    requires lo + |rep| <= buf.Length
    modifies buf
    ensures buf[..] == Overwrite(old(buf[..]), lo, rep)
  {
    forall k | 0 <= k < |rep| {
      buf[lo + k] := rep[k];
    }
  }

  /**
   * One turn of the loop on the buffer: compare the tail at `position` with the
   * signature and, on a match, write fixup element `index` over it.
   */
  method RepairTail(buf: array<Byte>, fxOffset: nat, fxCount: nat, position: int, index: nat) returns (stop: Option<FixupOutcome>)
    modifies buf
    ensures stop == TailCheck(old(buf[..]), fxOffset, fxCount, position, index)
    ensures buf[..] == if stop.None? then TailRepair(old(buf[..]), fxOffset, fxCount, position, index) else old(buf[..])
  {
    var bytes := buf[..];
    var fxArray := Slice(bytes, fxOffset, fxOffset + 2 * fxCount);
    var tail := Slice(bytes, position, position + 2);
    if tail != Slice(fxArray, 0, 2) {
      return Some(SectorMismatch(position));
    }
    var rep := Slice(fxArray, index * 2, index * 2 + 2);
    if |rep| != |tail| {
      return Some(ReplacementMismatch(index));
    }
    AssignSlice(buf, SliceBound(|bytes|, position), rep);
    return None;
  }

  /**
   * The repair on the entry buffer. The caller has checked that the buffer is as long
   * as the entry (`entry_alloc_len`).
   */
  method ApplyFixupArray(buf: array<Byte>, fxOffset: nat, fxCount: nat, entrySize: nat) returns (r: FixupOutcome)
    requires buf.Length == entrySize
    modifies buf
    ensures (r, buf[..]) == Fixup(old(buf[..]), fxOffset, fxCount)
  {
    if fxCount == 0 {
      return NeverReturns;
    }
    var fxLen := fxCount - 1;
    if fxLen == 0 {
      return ZeroDivision;
    }
    var sectorSize := entrySize / fxLen;
    if sectorSize == 0 {
      var fxArray := Slice(buf[..], fxOffset, fxOffset + 2 * fxCount);
      if Slice(fxArray, 0, 2) == [] {
        return NeverReturns;
      }
      return SectorMismatch(-2);
    }
    var index := 1;
    var position := sectorSize * index - 2;
    TailStartIsProduct(sectorSize, index);
    while position <= entrySize
      invariant 1 <= index && position == TailStart(sectorSize, index)
      invariant FixupFrom(buf[..], fxOffset, fxCount, sectorSize, index) == Fixup(old(buf[..]), fxOffset, fxCount)
      decreases entrySize + 2 - position
    {
      ghost var before := buf[..];
      var stop := RepairTail(buf, fxOffset, fxCount, position, index);
      if stop.Some? {
        FixupFromHalts(before, fxOffset, fxCount, sectorSize, index);
        return stop.value;
      }
      FixupFromStep(before, fxOffset, fxCount, sectorSize, index);
      index := index + 1;
      position := sectorSize * index - 2;
      TailStartIsProduct(sectorSize, index);
    }
    return Applied;
  }


  // ---------------------------------------------------------------------------
  // What the repair does on a well-formed entry: the fixup array lies inside the
  // entry and overlaps no sector tail, and sectors are at least two bytes long.
  // ---------------------------------------------------------------------------

  /**
   * The fixup array lies inside the `n` bytes, between the tails of sectors `m` and
   * `m + 1` (sector 0 has its "tail" just before the buffer), so no tail overlaps it.
   */
  predicate Arranged(n: nat, fxOffset: nat, fxCount: nat, sector: nat, m: nat)
  {
    && 2 <= fxCount
    && 2 <= sector
    && fxOffset + 2 * fxCount <= n
    && TailStart(sector, m) + 2 <= fxOffset
    && fxOffset + 2 * fxCount <= TailStart(sector, m + 1)
  }

  /** `Arranged` for the sector size the repair infers from the entry size. */
  predicate Layout(n: nat, fxOffset: nat, fxCount: nat, m: nat)
  {
    2 <= fxCount && Arranged(n, fxOffset, fxCount, Sector(n, fxCount), m)
  }

  /** The two bytes ending at `sector * i` hold the signature, fixup element 0. */
  predicate TailMatches(s: seq<Byte>, fxOffset: nat, sector: nat, i: nat)
  {
    var p := TailStart(sector, i);
    0 <= p && p + 2 <= |s| && fxOffset + 2 <= |s| && s[p] == s[fxOffset] && s[p + 1] == s[fxOffset + 1]
  }

  /** Sector `i` can be repaired: its tail holds the signature and fixup element `i` exists. */
  predicate Good(s: seq<Byte>, fxOffset: nat, fxCount: nat, sector: nat, i: nat)
  {
    TailMatches(s, fxOffset, sector, i) && i < fxCount
  }

  /** How the loop ends at sector `j`. */
  function Verdict(s: seq<Byte>, fxOffset: nat, sector: nat, j: nat): FixupOutcome
  {
    if TailStart(sector, j) > |s| then Applied
    else if !TailMatches(s, fxOffset, sector, j) then SectorMismatch(TailStart(sector, j))
    else ReplacementMismatch(j)
  }

  lemma {:induction false} TailStartGrows(sector: nat, i: nat, j: nat)
    requires i < j
    ensures TailStart(sector, i) + sector <= TailStart(sector, j)
    decreases j
  {
    if i + 1 < j {
      TailStartGrows(sector, i, j - 1);
    }
  }

  /** A two-byte Python slice inside the sequence holds exactly those two bytes. */
  lemma SlicePair(t: seq<Byte>, p: int)
    requires 0 <= p && p + 2 <= |t|
    ensures Slice(t, p, p + 2) == [t[p], t[p + 1]]
  {
  }

  /** Writing a pair of bytes with `Overwrite` updates two positions. */
  lemma OverwritePair(t: seq<Byte>, p: nat, a: Byte, b: Byte)
    requires p + 2 <= |t|
    ensures Overwrite(t, p, [a, b]) == t[p := a][p + 1 := b]
  {
    assert forall k :: 0 <= k < |t| ==> Overwrite(t, p, [a, b])[k] == t[p := a][p + 1 := b][k];
  }

  /** The tail at `p` equals the signature slice exactly when both its bytes are inside and match. */
  lemma SignatureCompare(t: seq<Byte>, fxOffset: nat, fxCount: nat, p: int)
    requires 2 <= fxCount && fxOffset + 2 * fxCount <= |t| && 0 <= p <= |t|
    ensures (Slice(t, p, p + 2) == Slice(FixupView(t, fxOffset, fxCount), 0, 2))
        <==> (p + 2 <= |t| && t[p] == t[fxOffset] && t[p + 1] == t[fxOffset + 1])
  {
    var fx := FixupView(t, fxOffset, fxCount);
    assert fx == t[fxOffset..fxOffset + 2 * fxCount];
    SlicePair(fx, 0);
    if p + 2 <= |t| {
      SlicePair(t, p);
    }
  }

  /** Fixup element `index` is the pair of bytes at `fxOffset + 2 * index`, or empty past the array. */
  lemma ReplacementSlice(t: seq<Byte>, fxOffset: nat, fxCount: nat, index: nat)
    requires fxOffset + 2 * fxCount <= |t|
    ensures index < fxCount ==>
      Slice(FixupView(t, fxOffset, fxCount), index * 2, index * 2 + 2) == [t[fxOffset + index * 2], t[fxOffset + index * 2 + 1]]
    ensures fxCount <= index ==> Slice(FixupView(t, fxOffset, fxCount), index * 2, index * 2 + 2) == []
  {
    var fx := FixupView(t, fxOffset, fxCount);
    assert fx == t[fxOffset..fxOffset + 2 * fxCount];
    if index < fxCount {
      SlicePair(fx, index * 2);
    }
  }

  /** The checks of the turn at sector `index`, read off the current bytes `t` alone. */
  lemma VisitChecks(t: seq<Byte>, fxOffset: nat, fxCount: nat, sector: nat, index: nat)
    requires 2 <= fxCount && fxOffset + 2 * fxCount <= |t|
    requires 0 <= TailStart(sector, index) <= |t|
    ensures TailCheck(t, fxOffset, fxCount, TailStart(sector, index), index)
         == if Good(t, fxOffset, fxCount, sector, index) then None else Some(Verdict(t, fxOffset, sector, index))
  {
    SignatureCompare(t, fxOffset, fxCount, TailStart(sector, index));
    ReplacementSlice(t, fxOffset, fxCount, index);
  }

  /** The write of the turn at a repairable sector `index` updates the two tail bytes. */
  lemma VisitWrites(t: seq<Byte>, fxOffset: nat, fxCount: nat, sector: nat, index: nat)
    requires 2 <= fxCount && fxOffset + 2 * fxCount <= |t|
    requires 0 <= TailStart(sector, index) && Good(t, fxOffset, fxCount, sector, index)
    ensures TailCheck(t, fxOffset, fxCount, TailStart(sector, index), index).None?
    ensures var p := TailStart(sector, index);
      TailRepair(t, fxOffset, fxCount, p, index) == t[p := t[fxOffset + index * 2]][p + 1 := t[fxOffset + index * 2 + 1]]
  {
    var p := TailStart(sector, index);
    VisitChecks(t, fxOffset, fxCount, sector, index);
    ReplacementSlice(t, fxOffset, fxCount, index);
    OverwritePair(t, p, t[fxOffset + index * 2], t[fxOffset + index * 2 + 1]);
  }

  /** `s` with the tails of sectors 1..n replaced by fixup elements 1..n, all read from `s`. */
  function Repaired(s: seq<Byte>, fxOffset: nat, sector: nat, n: nat): (t: seq<Byte>)
    ensures |t| == |s|
  {
    if n == 0 then s
    else
      var prev := Repaired(s, fxOffset, sector, n - 1);
      var p := TailStart(sector, n);
      if 0 <= p && p + 2 <= |s| && fxOffset + n * 2 + 2 <= |s|
      then prev[p := s[fxOffset + n * 2]][p + 1 := s[fxOffset + n * 2 + 1]]
      else prev
  }

  /** Repairing sectors 1..n leaves every byte from the end of tail `n` on as it was. */
  lemma {:induction false} RepairedBeyond(s: seq<Byte>, fxOffset: nat, sector: nat, n: nat, k: int)
    requires 0 <= k < |s| && TailStart(sector, n) + 2 <= k
    ensures Repaired(s, fxOffset, sector, n)[k] == s[k]
  {
    if n > 0 {
      RepairedBeyond(s, fxOffset, sector, n - 1, k);
    }
  }

  /** Repairing sectors 1..n leaves the bytes between tails `m` and `m + 1` as they were. */
  lemma {:induction false} RepairedBetween(s: seq<Byte>, fxOffset: nat, sector: nat, n: nat, m: nat, k: int)
    requires 0 <= k < |s| && TailStart(sector, m) + 2 <= k < TailStart(sector, m + 1)
    ensures Repaired(s, fxOffset, sector, n)[k] == s[k]
  {
    if n > 0 {
      RepairedBetween(s, fxOffset, sector, n - 1, m, k);
      if n < m {
        TailStartGrows(sector, n, m);
      } else if m + 1 < n {
        TailStartGrows(sector, m + 1, n);
      }
    }
  }

  /** The first sector from `index` on that the loop does not repair: past the end, or not `Good`. */
  function Stop(s: seq<Byte>, fxOffset: nat, fxCount: nat, sector: nat, index: nat): (j: nat)
    requires 1 <= sector
    ensures index <= j
    decreases |s| + 2 - TailStart(sector, index)
  {
    if TailStart(sector, index) > |s| || !Good(s, fxOffset, fxCount, sector, index) then index
    else Stop(s, fxOffset, fxCount, sector, index + 1)
  }

  /** `Stop` is the first sector from `index` on that is past the end or cannot be repaired. */
  lemma {:induction false} StopIsFirstBad(s: seq<Byte>, fxOffset: nat, fxCount: nat, sector: nat, index: nat)
    requires 1 <= sector
    ensures var j := Stop(s, fxOffset, fxCount, sector, index);
      && index <= j
      && (forall i :: index <= i < j ==> TailStart(sector, i) <= |s| && Good(s, fxOffset, fxCount, sector, i))
      && (TailStart(sector, j) > |s| || !Good(s, fxOffset, fxCount, sector, j))
    decreases |s| + 2 - TailStart(sector, index)
  {
    if TailStart(sector, index) <= |s| && Good(s, fxOffset, fxCount, sector, index) {
      StopIsFirstBad(s, fxOffset, fxCount, sector, index + 1);
    }
  }

  /** Two sequences that agree on the signature and on tail `i` agree on what the turn at `i` decides. */
  lemma SameDecision(t: seq<Byte>, s: seq<Byte>, fxOffset: nat, fxCount: nat, sector: nat, i: nat)
    requires |t| == |s| && fxOffset + 2 <= |s|
    requires t[fxOffset] == s[fxOffset] && t[fxOffset + 1] == s[fxOffset + 1]
    requires var p := TailStart(sector, i); 0 <= p && p + 2 <= |s| ==> t[p] == s[p] && t[p + 1] == s[p + 1]
    ensures Good(t, fxOffset, fxCount, sector, i) == Good(s, fxOffset, fxCount, sector, i)
    ensures Verdict(t, fxOffset, sector, i) == Verdict(s, fxOffset, sector, i)
  {
  }

  /** Before sector `index` is visited, the signature and fixup element `index` hold their original bytes. */
  lemma RepairedKeepsArray(s: seq<Byte>, fxOffset: nat, fxCount: nat, sector: nat, index: nat, m: nat)
    requires Arranged(|s|, fxOffset, fxCount, sector, m) && 1 <= index
    ensures var t := Repaired(s, fxOffset, sector, index - 1);
      && t[fxOffset] == s[fxOffset] && t[fxOffset + 1] == s[fxOffset + 1]
      && (index < fxCount ==>
            t[fxOffset + index * 2] == s[fxOffset + index * 2] && t[fxOffset + index * 2 + 1] == s[fxOffset + index * 2 + 1])
  {
    RepairedBetween(s, fxOffset, sector, index - 1, m, fxOffset);
    RepairedBetween(s, fxOffset, sector, index - 1, m, fxOffset + 1);
    if index < fxCount {
      RepairedBetween(s, fxOffset, sector, index - 1, m, fxOffset + index * 2);
      RepairedBetween(s, fxOffset, sector, index - 1, m, fxOffset + index * 2 + 1);
    }
  }

  /** Before sector `index` is visited, its tail holds its original bytes. */
  lemma RepairedKeepsTail(s: seq<Byte>, fxOffset: nat, sector: nat, index: nat)
    requires 2 <= sector && 1 <= index && 0 <= TailStart(sector, index) && TailStart(sector, index) + 2 <= |s|
    ensures var t, p := Repaired(s, fxOffset, sector, index - 1), TailStart(sector, index);
      t[p] == s[p] && t[p + 1] == s[p + 1]
  {
    TailStartGrows(sector, index - 1, index);
    RepairedBeyond(s, fxOffset, sector, index - 1, TailStart(sector, index));
    RepairedBeyond(s, fxOffset, sector, index - 1, TailStart(sector, index) + 1);
  }

  /** The turn at sector `index`, after sectors 1..index-1 were repaired, decides on the original bytes. */
  lemma TurnOnRepaired(s: seq<Byte>, fxOffset: nat, fxCount: nat, sector: nat, index: nat, m: nat)
    requires Arranged(|s|, fxOffset, fxCount, sector, m)
    requires 1 <= index && 0 <= TailStart(sector, index) <= |s|
    ensures var t, p := Repaired(s, fxOffset, sector, index - 1), TailStart(sector, index);
      && TailCheck(t, fxOffset, fxCount, p, index)
           == (if Good(s, fxOffset, fxCount, sector, index) then None else Some(Verdict(s, fxOffset, sector, index)))
      && (Good(s, fxOffset, fxCount, sector, index) ==>
            TailRepair(t, fxOffset, fxCount, p, index) == Repaired(s, fxOffset, sector, index))
  {
    var t := Repaired(s, fxOffset, sector, index - 1);
    RepairedKeepsArray(s, fxOffset, fxCount, sector, index, m);
    if TailStart(sector, index) + 2 <= |s| {
      RepairedKeepsTail(s, fxOffset, sector, index);
    }
    SameDecision(t, s, fxOffset, fxCount, sector, index);
    VisitChecks(t, fxOffset, fxCount, sector, index);
    if Good(s, fxOffset, fxCount, sector, index) {
      VisitWrites(t, fxOffset, fxCount, sector, index);
    }
  }

  /** Sector `index` is the last one visited: past the end, or not repairable. */
  lemma FixupFromStops(s: seq<Byte>, fxOffset: nat, fxCount: nat, sector: nat, index: nat, m: nat)
    requires Arranged(|s|, fxOffset, fxCount, sector, m)
    requires 1 <= index && TailStart(sector, index - 1) <= |s|
    requires TailStart(sector, index) > |s| || !Good(s, fxOffset, fxCount, sector, index)
    ensures FixupFrom(Repaired(s, fxOffset, sector, index - 1), fxOffset, fxCount, sector, index)
         == (Verdict(s, fxOffset, sector, index), Repaired(s, fxOffset, sector, index - 1))
  {
    if TailStart(sector, index) <= |s| {
      TailStartGrows(sector, 0, index);
      TurnOnRepaired(s, fxOffset, fxCount, sector, index, m);
    }
  }

  /** Sector `index` is repaired and the loop moves on to the next one. */
  lemma FixupFromRepairs(s: seq<Byte>, fxOffset: nat, fxCount: nat, sector: nat, index: nat, m: nat)
    requires Arranged(|s|, fxOffset, fxCount, sector, m)
    requires 1 <= index && TailStart(sector, index) <= |s| && Good(s, fxOffset, fxCount, sector, index)
    ensures FixupFrom(Repaired(s, fxOffset, sector, index - 1), fxOffset, fxCount, sector, index)
         == FixupFrom(Repaired(s, fxOffset, sector, index), fxOffset, fxCount, sector, index + 1)
  {
    TailStartGrows(sector, 0, index);
    TurnOnRepaired(s, fxOffset, fxCount, sector, index, m);
  }

  /**
   * The loop run from sector `index`, after sectors 1..index-1 were repaired, when
   * sectors index..j-1 can be repaired and sector `j` cannot: it repairs them and ends
   * with `Verdict` at `j`.
   */
  lemma {:induction false} FixupFromRepaired(s: seq<Byte>, fxOffset: nat, fxCount: nat, sector: nat, index: nat, j: nat, m: nat)
    requires Arranged(|s|, fxOffset, fxCount, sector, m)
    requires 1 <= index <= j && TailStart(sector, index - 1) <= |s|
    requires forall i :: index <= i < j ==> TailStart(sector, i) <= |s| && Good(s, fxOffset, fxCount, sector, i)
    requires TailStart(sector, j) > |s| || !Good(s, fxOffset, fxCount, sector, j)
    ensures FixupFrom(Repaired(s, fxOffset, sector, index - 1), fxOffset, fxCount, sector, index)
         == (Verdict(s, fxOffset, sector, j), Repaired(s, fxOffset, sector, j - 1))
    decreases j - index
  {
    if index == j {
      FixupFromStops(s, fxOffset, fxCount, sector, index, m);
    } else {
      FixupFromRepairs(s, fxOffset, fxCount, sector, index, m);
      FixupFromRepaired(s, fxOffset, fxCount, sector, index + 1, j, m);
    }
  }

  /** The loop run from the first sector on a well-arranged entry. */
  lemma FixupFromStart(s: seq<Byte>, fxOffset: nat, fxCount: nat, sector: nat, m: nat)
    requires Arranged(|s|, fxOffset, fxCount, sector, m)
    ensures var j := Stop(s, fxOffset, fxCount, sector, 1);
      FixupFrom(s, fxOffset, fxCount, sector, 1) == (Verdict(s, fxOffset, sector, j), Repaired(s, fxOffset, sector, j - 1))
  {
    StopIsFirstBad(s, fxOffset, fxCount, sector, 1);
    FixupFromRepaired(s, fxOffset, fxCount, sector, 1, Stop(s, fxOffset, fxCount, sector, 1), m);
  }

  /** With at least two fixup elements and a positive sector size the repair is the loop from sector 1. */
  lemma FixupStartsLoop(s: seq<Byte>, fxOffset: nat, fxCount: nat)
    requires 2 <= fxCount && 1 <= Sector(|s|, fxCount)
    ensures Fixup(s, fxOffset, fxCount) == FixupFrom(s, fxOffset, fxCount, Sector(|s|, fxCount), 1)
  {
  }

  /** On a well-formed entry the repair stops at the first bad sector, having repaired all before it. */
  lemma FixupResult(s: seq<Byte>, fxOffset: nat, fxCount: nat, m: nat)
    requires Layout(|s|, fxOffset, fxCount, m)
    ensures var sector := Sector(|s|, fxCount);
      var j := Stop(s, fxOffset, fxCount, sector, 1);
      Fixup(s, fxOffset, fxCount) == (Verdict(s, fxOffset, sector, j), Repaired(s, fxOffset, sector, j - 1))
  {
    FixupStartsLoop(s, fxOffset, fxCount);
    FixupFromStart(s, fxOffset, fxCount, Sector(|s|, fxCount), m);
  }

  // ---------------------------------------------------------------------------
  // Consequences: which bytes change, what the tails hold, when the repair succeeds.
  // ---------------------------------------------------------------------------

  /** Every byte that `Repaired` changes lies in the tail of one of the sectors 1..n. */
  lemma {:induction false} RepairedOnlyTails(s: seq<Byte>, fxOffset: nat, sector: nat, n: nat, k: int)
    requires 0 <= k < |s| && Repaired(s, fxOffset, sector, n)[k] != s[k]
    ensures exists i :: 1 <= i <= n && TailStart(sector, i) <= k < TailStart(sector, i) + 2
  {
    if n > 0 {
      var p := TailStart(sector, n);
      if !(p <= k < p + 2) {
        RepairedOnlyTails(s, fxOffset, sector, n - 1, k);
      }
    }
  }

  /** After repairing sectors 1..n, the tail of each of them holds its fixup element. */
  lemma {:induction false} RepairedTail(s: seq<Byte>, fxOffset: nat, sector: nat, n: nat, i: nat)
    requires 2 <= sector && 1 <= i <= n
    requires 0 <= TailStart(sector, i) && TailStart(sector, i) + 2 <= |s| && fxOffset + i * 2 + 2 <= |s|
    ensures var t := Repaired(s, fxOffset, sector, n);
      t[TailStart(sector, i)] == s[fxOffset + i * 2] && t[TailStart(sector, i) + 1] == s[fxOffset + i * 2 + 1]
    decreases n
  {
    if i < n {
      RepairedTail(s, fxOffset, sector, n - 1, i);
      TailStartGrows(sector, i, n);
    }
  }

  /** `Stop` does not report success while a visited sector cannot be repaired, and does otherwise. */
  lemma StopPastEnd(s: seq<Byte>, fxOffset: nat, fxCount: nat, sector: nat)
    requires 1 <= sector
    ensures (TailStart(sector, Stop(s, fxOffset, fxCount, sector, 1)) > |s|)
        <==> (forall i :: 1 <= i && TailStart(sector, i) <= |s| ==> Good(s, fxOffset, fxCount, sector, i))
  {
    var j := Stop(s, fxOffset, fxCount, sector, 1);
    StopIsFirstBad(s, fxOffset, fxCount, sector, 1);
    if TailStart(sector, j) > |s| {
      forall i | 1 <= i && TailStart(sector, i) <= |s|
        ensures Good(s, fxOffset, fxCount, sector, i)
      {
        if j <= i {
          if j < i {
            TailStartGrows(sector, j, i);
          }
          assert false;
        }
      }
    }
  }

  /**
   * On a well-formed entry the repair succeeds exactly when every sector tail it visits
   * holds the signature and has a fixup element.
   */
  lemma FixupAppliedIff(s: seq<Byte>, fxOffset: nat, fxCount: nat, m: nat)
    requires Layout(|s|, fxOffset, fxCount, m)
    ensures var sector := Sector(|s|, fxCount);
      (Fixup(s, fxOffset, fxCount).0 == Applied)
        <==> (forall i :: 1 <= i && TailStart(sector, i) <= |s| ==> Good(s, fxOffset, fxCount, sector, i))
  {
    FixupResult(s, fxOffset, fxCount, m);
    StopPastEnd(s, fxOffset, fxCount, Sector(|s|, fxCount));
  }

  /**
   * When sectors 1..j-1 can all be repaired, a byte that repairing them changes lies in
   * one of their tails, and that tail holds the sector's fixup element.
   */
  lemma RepairedFrame(s: seq<Byte>, fxOffset: nat, fxCount: nat, sector: nat, j: nat, k: int)
    requires 2 <= sector && 1 <= j && fxOffset + 2 * fxCount <= |s|
    requires forall i :: 1 <= i < j ==> TailStart(sector, i) <= |s| && Good(s, fxOffset, fxCount, sector, i)
    requires 0 <= k < |s| && Repaired(s, fxOffset, sector, j - 1)[k] != s[k]
    ensures exists i :: (
      && 1 <= i < fxCount && 0 <= TailStart(sector, i) <= k < TailStart(sector, i) + 2 <= |s|
      && Repaired(s, fxOffset, sector, j - 1)[TailStart(sector, i)] == s[fxOffset + i * 2]
      && Repaired(s, fxOffset, sector, j - 1)[TailStart(sector, i) + 1] == s[fxOffset + i * 2 + 1])
  {
    RepairedOnlyTails(s, fxOffset, sector, j - 1, k);
    var i :| 1 <= i <= j - 1 && TailStart(sector, i) <= k < TailStart(sector, i) + 2;
    assert Good(s, fxOffset, fxCount, sector, i);
    RepairedTail(s, fxOffset, sector, j - 1, i);
    var t := Repaired(s, fxOffset, sector, j - 1);
    assert 1 <= i < fxCount && 0 <= TailStart(sector, i) <= k < TailStart(sector, i) + 2 <= |s|;
    assert t[TailStart(sector, i)] == s[fxOffset + i * 2] && t[TailStart(sector, i) + 1] == s[fxOffset + i * 2 + 1];
  }

  /**
   * With whole sectors of at least three bytes, the visited tails are those of sectors
   * 1..fxCount-1, the last one being the final two bytes.
   */
  lemma StopWholeSectors(s: seq<Byte>, fxOffset: nat, fxCount: nat, sector: nat)
    requires 2 <= fxCount && 3 <= sector && TailStart(sector, fxCount - 1) == |s| - 2
    ensures (TailStart(sector, Stop(s, fxOffset, fxCount, sector, 1)) > |s|)
        <==> (forall i :: 1 <= i < fxCount ==> TailMatches(s, fxOffset, sector, i))
    ensures TailStart(sector, Stop(s, fxOffset, fxCount, sector, 1)) > |s| ==> Stop(s, fxOffset, fxCount, sector, 1) == fxCount
  {
    var j := Stop(s, fxOffset, fxCount, sector, 1);
    StopIsFirstBad(s, fxOffset, fxCount, sector, 1);
    if TailStart(sector, j) > |s| {
      if j < fxCount {
        if j < fxCount - 1 {
          TailStartGrows(sector, j, fxCount - 1);
        }
        assert false;
      }
      if fxCount < j {
        assert false;
      }
    } else {
      forall i | 1 <= i < fxCount
        ensures TailStart(sector, i) <= |s|
      {
        if i < fxCount - 1 {
          TailStartGrows(sector, i, fxCount - 1);
        }
      }
    }
  }

  /** An entry size that is a multiple of `fxCount - 1` is cut into whole sectors: the last tail ends the entry. */
  lemma WholeSectorsLastTail(n: nat, fxCount: nat)
    requires 2 <= fxCount && n % (fxCount - 1) == 0
    ensures TailStart(Sector(n, fxCount), fxCount - 1) == n - 2
  {
    assert n == Sector(n, fxCount) * (fxCount - 1);
    TailStartIsProduct(Sector(n, fxCount), fxCount - 1);
  }

  /**
   * When the entry size is a multiple of `fxCount - 1` and sectors have at least three
   * bytes, the repair succeeds exactly when the tails of sectors 1..fxCount-1 hold the
   * signature; it then stops at sector fxCount, so by `FixupResult` exactly those
   * fxCount-1 tails are rewritten, the last being the final two bytes of the entry.
   */
  lemma FixupWholeSectors(s: seq<Byte>, fxOffset: nat, fxCount: nat, m: nat)
    requires Layout(|s|, fxOffset, fxCount, m)
    requires |s| % (fxCount - 1) == 0 && 3 <= Sector(|s|, fxCount)
    ensures var sector := Sector(|s|, fxCount);
      && TailStart(sector, fxCount - 1) == |s| - 2
      && (Fixup(s, fxOffset, fxCount).0 == Applied <==> forall i :: 1 <= i < fxCount ==> TailMatches(s, fxOffset, sector, i))
      && (Fixup(s, fxOffset, fxCount).0 == Applied ==> Stop(s, fxOffset, fxCount, sector, 1) == fxCount)
  {
    WholeSectorsLastTail(|s|, fxCount);
    FixupResult(s, fxOffset, fxCount, m);
    StopWholeSectors(s, fxOffset, fxCount, Sector(|s|, fxCount));
  }
}
