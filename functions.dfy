/**
 * Helpers of libmft/util/functions.py: the split of an NTFS file reference and
 * the membership test over a sorted list. The fixup repair of the same file is
 * in module Fixup; `is_related` is `Headers.IsRelated`.
 */
module Functions {
  import opened Wrappers

  const TWO48: nat := 0x1_0000_0000_0000
  const TWO16: nat := 0x1_0000

  /**
   * `get_file_reference`: a 64-bit file reference holds the record number in its low
   * 48 bits and the sequence number in its high 16 bits. The masks of the source are
   * written as remainders, which agree with `&` on the non-negative values it receives.
   */
  function SplitFileReference(fileRef: nat): (r: (nat, nat))
    ensures r.0 < TWO48 && r.1 < TWO16
    ensures fileRef < TWO48 * TWO16 ==> r.1 * TWO48 + r.0 == fileRef
  {
    (fileRef % TWO48, (fileRef / TWO48) % TWO16)
  }

  /** The 64-bit file reference of record `record` with sequence number `seqNumber`. */
  function JoinFileReference(record: nat, seqNumber: nat): (x: nat)
    requires record < TWO48 && seqNumber < TWO16
    ensures x < TWO48 * TWO16
  {
    seqNumber * TWO48 + record
  }

  /** Splitting a joined reference gives back its two parts. */
  lemma SplitJoin(record: nat, seqNumber: nat)
    requires record < TWO48 && seqNumber < TWO16
    ensures SplitFileReference(JoinFileReference(record, seqNumber)) == (record, seqNumber)
  {
    var x := JoinFileReference(record, seqNumber);
    assert x / TWO48 == seqNumber;
  }

  predicate Sorted(xs: seq<int>)
  {
    forall i, j :: 0 <= i < j < |xs| ==> xs[i] <= xs[j]
  }

  /** Python's `bisect_left`: the first position at which `x` could be inserted keeping `xs` sorted. */
  function BisectLeft(xs: seq<int>, x: int): (i: nat)
    requires Sorted(xs)
    ensures i <= |xs|
    ensures forall j :: 0 <= j < i ==> xs[j] < x
    ensures forall j :: i <= j < |xs| ==> x <= xs[j]
  {
    if |xs| == 0 || x <= xs[0] then 0 else 1 + BisectLeft(xs[1..], x)
  }

  /** Raising `False` is itself an error in Python: it ends in a TypeError. */
  datatype BisectError = RaiseNotException

  /**
   * `exits_bisect`: True when `item` is in the sorted list; an absent item does not
   * give False but the error raised by `raise False`.
   */
  function ExistsBisect(xs: seq<int>, item: int): (r: Result<bool, BisectError>)
    requires Sorted(xs)
    ensures r.Success? <==> item in xs
    ensures r.Success? ==> r.value
  {
    var i := BisectLeft(xs, item);
    if i != |xs| && xs[i] == item then Success(true) else Failure(RaiseNotException)
  }
}
