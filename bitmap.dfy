/**
 * The BITMAP content of libmft/attrcontent.py: a run of bytes in which bit `n mod 8` of
 * byte `n div 8` tells whether entry `n` is allocated.
 */
module Bitmaps {
  import opened Wrappers
  import opened Bytes

  /** Bit `k` of `x`, counting from the least significant one: `x & (1 << k) != 0`. */
  predicate BitOf(x: nat, k: nat)
    decreases k
  {
    if k == 0 then x % 2 == 1 else BitOf(x / 2, k - 1)
  }

  function Pow2(k: nat): (p: nat)
    ensures p >= 1
  {
    if k == 0 then 1 else 2 * Pow2(k - 1)
  }

  /** Entry `n` of the bitmap `b`, for `0 <= n < 8 * |b|`. */
  predicate Allocated(b: seq<Byte>, n: nat)
    requires n < 8 * |b|
  {
    BitOf(b[n / 8], n % 8)
  }

  datatype BitmapError = IndexOutOfRange   // IndexError of `bytes[index]`

  /**
   * `Bitmap.entry_allocated`: `divmod(n, 8)` floors, and a negative byte index counts from
   * the end of the bitmap as Python indexing does.
   */
  function EntryAllocated(b: seq<Byte>, n: int): (r: Result<bool, BitmapError>)
    ensures r.Success? <==> -8 * |b| <= n < 8 * |b|
    ensures 0 <= n < 8 * |b| ==> r == Success(Allocated(b, n))
    ensures n < 0 && r.Success? ==> r == Success(Allocated(b, n + 8 * |b|))
  {
    var index, offset := n / 8, n % 8;
    if 0 <= index < |b| then Success(BitOf(b[index], offset))
    else if -|b| <= index < 0 then Success(BitOf(b[index + |b|], offset))
    else Failure(IndexOutOfRange)
  }

  /**
   * `Bitmap.allocated_entries`: the numbers of the allocated entries, in ascending order
   * and each once, exactly those whose bit is set.
   */
  method AllocatedEntries(b: seq<Byte>) returns (entries: seq<nat>)
    ensures forall i, j :: 0 <= i < j < |entries| ==> entries[i] < entries[j]
    ensures forall n: nat :: n in entries <==> n < 8 * |b| && Allocated(b, n)
  {
    entries := [];
    var n := 0;
    while n < 8 * |b|
      invariant n <= 8 * |b|
      invariant forall i, j :: 0 <= i < j < |entries| ==> entries[i] < entries[j]
      invariant forall i :: 0 <= i < |entries| ==> entries[i] < n
      invariant forall m: nat :: m in entries <==> m < n && Allocated(b, m)
    {
      var bit := EntryAllocated(b, n);
      if bit.value {
        entries := entries + [n];
      }
      n := n + 1;
    }
  }

  /**
   * `Bitmap.get_next_empty`: the first byte that is not 0xFF, and in it the first clear
   * bit; nothing when there is no such byte.
   */
  method NextEmpty(b: seq<Byte>) returns (r: Option<nat>)
    ensures r.Some? ==> r.value < 8 * |b| && !Allocated(b, r.value)
    ensures r.Some? ==> forall n :: 0 <= n < r.value ==> Allocated(b, n)
    ensures r.None? <==> forall n :: 0 <= n < 8 * |b| ==> Allocated(b, n)
  {
    var i := 0;
    while i < |b|
      invariant i <= |b|
      invariant forall n :: 0 <= n < 8 * i ==> Allocated(b, n)
    {
      if b[i] != 255 {
        var offset := 0;
        while offset < 8
          invariant offset <= 8
          invariant forall n :: 0 <= n < 8 * i + offset ==> Allocated(b, n)
        {
          assert (8 * i + offset) / 8 == i && (8 * i + offset) % 8 == offset;
          if !BitOf(b[i], offset) {
            return Some(i * 8 + offset);
          }
          offset := offset + 1;
        }
      } else {
        forall n | 8 * i <= n < 8 * i + 8
          ensures Allocated(b, n)
        {
          assert Pow2(8) == 256;
          MaskBits(b[i], 8);
          assert n / 8 == i && 0 <= n % 8 < 8;
          assert BitOf(b[i], n % 8);
        }
      }
      i := i + 1;
    }
    return None;
  }

  /** The `k` low bits of `2^k - 1` are all set. */
  lemma {:induction false} MaskBits(x: nat, k: nat)
    requires x == Pow2(k) - 1
    ensures forall j :: 0 <= j < k ==> BitOf(x, j)
    decreases k
  {
    if k > 0 {
      assert Pow2(k) == 2 * Pow2(k - 1);
      assert x % 2 == 1 && x / 2 == Pow2(k - 1) - 1;
      MaskBits(x / 2, k - 1);
      forall j | 0 <= j < k
        ensures BitOf(x, j)
      {
        if j > 0 {
          assert BitOf(x / 2, j - 1);
        }
      }
    }
  }

  /** A value below `2^k` with its `k` low bits all set is `2^k - 1`. */
  lemma {:induction false} BitsMask(x: nat, k: nat)
    requires x < Pow2(k)
    requires forall j :: 0 <= j < k ==> BitOf(x, j)
    ensures x == Pow2(k) - 1
    decreases k
  {
    if k > 0 {
      assert Pow2(k) == 2 * Pow2(k - 1);
      forall j | 0 <= j < k - 1
        ensures BitOf(x / 2, j)
      {
        assert BitOf(x, j + 1);
      }
      BitsMask(x / 2, k - 1);
      assert BitOf(x, 0);
      assert x == 2 * (x / 2) + 1;
    }
  }

  /** Every entry is allocated exactly when every byte of the bitmap is 0xFF. */
  lemma {:induction false} FullBitmap(b: seq<Byte>)
    ensures (forall n :: 0 <= n < 8 * |b| ==> Allocated(b, n)) <==> forall i :: 0 <= i < |b| ==> b[i] == 255
  {
    if forall n :: 0 <= n < 8 * |b| ==> Allocated(b, n) {
      forall i | 0 <= i < |b|
        ensures b[i] == 255
      {
        forall j | 0 <= j < 8
          ensures BitOf(b[i], j)
        {
          assert Allocated(b, 8 * i + j) by {
            assert (8 * i + j) / 8 == i && (8 * i + j) % 8 == j;
          }
        }
        assert Pow2(8) == 256;
        BitsMask(b[i], 8);
      }
    }
    if forall i :: 0 <= i < |b| ==> b[i] == 255 {
      forall n | 0 <= n < 8 * |b|
        ensures Allocated(b, n)
      {
        assert 0 <= n % 8 < 8 && b[n / 8] == 255;
        assert Pow2(8) == 256;
        MaskBits(b[n / 8], 8);
        assert BitOf(b[n / 8], n % 8);
      }
    }
  }

  /** Bits below `2^k` are untouched by adding a multiple of `2^k`. */
  lemma {:induction false} LowBits(a: nat, l: nat, k: nat, j: nat)
    requires j < k
    ensures BitOf(a + Pow2(k) * l, j) == BitOf(a, j)
    decreases j
  {
    var p := Pow2(k - 1);
    assert Pow2(k) * l == 2 * (p * l);
    if j > 0 {
      assert (a + 2 * (p * l)) / 2 == a / 2 + p * l;
      LowBits(a / 2, l, k - 1, j - 1);
    }
  }

  /** Bits from `k` on of `a + 2^k * l` with `a < 2^k` are those of `l`. */
  lemma {:induction false} HighBits(a: nat, l: nat, k: nat, j: nat)
    requires a < Pow2(k) && k <= j
    ensures BitOf(a + Pow2(k) * l, j) == BitOf(l, j - k)
    decreases k
  {
    if k > 0 {
      var p := Pow2(k - 1);
      assert Pow2(k) * l == 2 * (p * l);
      assert (a + 2 * (p * l)) / 2 == a / 2 + p * l;
      HighBits(a / 2, l, k - 1, j - 1);
    }
  }

  /**
   * The bitmap read as one little-endian number: entry `n` is bit `n` of it, so the byte
   * and bit split of `entry_allocated` numbers the entries in order.
   */
  lemma {:induction false} AllocatedIsBitOfNumber(b: seq<Byte>, n: nat)
    requires n < 8 * |b|
    ensures Allocated(b, n) == BitOf(LeUint(b), n)
    decreases |b|
  {
    assert Pow2(8) == 256;
    assert LeUint(b) == b[0] + 256 * LeUint(b[1..]);
    if n < 8 {
      LowBits(b[0], LeUint(b[1..]), 8, n);
    } else {
      HighBits(b[0], LeUint(b[1..]), 8, n);
      AllocatedIsBitOfNumber(b[1..], n - 8);
      assert b[1..][(n - 8) / 8] == b[n / 8];
    }
  }
}
