/**
 * Bytes, little-endian integers and Python slice semantics.
 *
 * Every on-disk structure of the decoder is read with `struct.unpack` ("<" formats,
 * little-endian) or `int.from_bytes(..., "little")`. Python slices clamp their bounds
 * to the sequence, which the decoders rely on; `Slice` reproduces that.
 */
module Bytes {

  type Byte = b: int | 0 <= b < 256

  function Pow256(n: nat): (p: nat)
    ensures p >= 1
  {
    if n == 0 then 1 else 256 * Pow256(n - 1)
  }

  /** Unsigned little-endian value of `s` (`int.from_bytes(s, "little")`, 0 for an empty `s`). */
  function LeUint(s: seq<Byte>): nat
  {
    if |s| == 0 then 0 else s[0] + 256 * LeUint(s[1..])
  }

  /** `w` bytes hold values below `256^w`. */
  lemma {:induction false} LeUintBound(s: seq<Byte>)
    ensures LeUint(s) < Pow256(|s|)
  {
    if |s| > 0 {
      LeUintBound(s[1..]);
    }
  }

  /** Signed (two's complement) little-endian value (`int.from_bytes(s, "little", signed=True)`). */
  function LeInt(s: seq<Byte>): int
  {
    if |s| == 0 then 0
    else if s[|s| - 1] >= 128 then LeUint(s) - Pow256(|s|)
    else LeUint(s)
  }

  function Min(a: int, b: int): int { if a < b then a else b }

  function Max(a: int, b: int): int { if a < b then b else a }

  /** Where a Python slice bound `i` lands in a sequence of length `n`: negative bounds count from the end. */
  function SliceBound(n: nat, i: int): (b: nat)
    ensures b <= n
    ensures 0 <= i ==> b == Min(i, n)
  {
    if i < 0 then (if i + n < 0 then 0 else i + n) else if i > n then n else i
  }

  /** Python `s[a:b]`: both bounds are clamped to the sequence, an inverted range is empty. */
  function Slice<T>(s: seq<T>, a: int, b: int): (r: seq<T>)
    ensures var lo, hi := SliceBound(|s|, a), SliceBound(|s|, b);
      |r| == (if lo < hi then hi - lo else 0)
  {
    var lo, hi := SliceBound(|s|, a), SliceBound(|s|, b);
    if lo < hi then s[lo..hi] else []
  }

  /** Python `s[a:b]` for non-negative bounds, which only clamp at the end. */
  function Clamp<T>(s: seq<T>, a: nat, b: nat): (r: seq<T>)
  {
    if b <= a || |s| <= a then [] else if |s| < b then s[a..] else s[a..b]
  }

  /** The first `n` items of the tail from `a` are the `n` items from `a`. */
  lemma {:induction false} ClampOfTail<T>(s: seq<T>, a: nat, n: nat)
    ensures Clamp(Clamp(s, a, |s|), 0, n) == Clamp(s, a, a + n)
  {
    if a < |s| && 0 < n {
      var t := s[a..];
      if |t| < n {
        assert t[0..] == t;
      } else {
        assert t[0..n] == s[a..a + n];
      }
    }
  }

  /** Unsigned field of `w` bytes at offset `off` (one field of a `struct.unpack`). */
  function Uint(s: seq<Byte>, off: nat, w: nat): (v: nat)
    requires off + w <= |s|
    ensures v < Pow256(w)
  {
    LeUintBound(s[off..off + w]);
    LeUint(s[off..off + w])
  }

  /** Little-endian encoding of `x` in exactly `w` bytes. */
  function EncodeUint(x: nat, w: nat): (r: seq<Byte>)
    requires x < Pow256(w)
    ensures |r| == w
  {
    if w == 0 then [] else [x % 256] + EncodeUint(x / 256, w - 1)
  }

  /** `LeUint` inverts `EncodeUint`. */
  lemma {:induction false} LeUintEncodeUint(x: nat, w: nat)
    requires x < Pow256(w)
    ensures LeUint(EncodeUint(x, w)) == x
  {
    if w > 0 {
      LeUintEncodeUint(x / 256, w - 1);
      assert EncodeUint(x, w)[1..] == EncodeUint(x / 256, w - 1);
    }
  }

  /** The top byte of a `w`-byte encoding has its high bit set iff `x` is in the upper half. */
  lemma {:induction false} EncodeUintTopBit(x: nat, w: nat)
    requires 1 <= w && x < Pow256(w)
    ensures EncodeUint(x, w)[w - 1] >= 128 <==> x >= 128 * Pow256(w - 1)
  {
    if w > 1 {
      EncodeUintTopBit(x / 256, w - 1);
      assert EncodeUint(x, w)[w - 1] == EncodeUint(x / 256, w - 1)[w - 2];
    }
  }

  /** Two's complement encoding of `x` in exactly `w` bytes. */
  function EncodeInt(x: int, w: nat): (r: seq<Byte>)
    requires 1 <= w && -128 * Pow256(w - 1) <= x < 128 * Pow256(w - 1)
    ensures |r| == w
  {
    EncodeUint(if x < 0 then x + Pow256(w) else x, w)
  }

  /** `LeInt` inverts `EncodeInt`. */
  lemma {:induction false} LeIntEncodeInt(x: int, w: nat)
    requires 1 <= w && -128 * Pow256(w - 1) <= x < 128 * Pow256(w - 1)
    ensures LeInt(EncodeInt(x, w)) == x
  {
    var u := if x < 0 then x + Pow256(w) else x;
    EncodeUintTopBit(u, w);
    LeUintEncodeUint(u, w);
  }

  /** Number of bytes that holds `x` unsigned: the fewest, and at least one. */
  function UintWidth(x: nat): (w: nat)
    ensures 1 <= w && x < Pow256(w)
  {
    if x < 256 then 1 else 1 + UintWidth(x / 256)
  }

  /** No fewer bytes than `UintWidth(x)` hold `x`. */
  lemma {:induction false} UintWidthMinimal(x: nat)
    ensures UintWidth(x) == 1 || Pow256(UintWidth(x) - 1) <= x
  {
    if x >= 256 {
      UintWidthMinimal(x / 256);
    }
  }

  /** Number of bytes that holds `x` in two's complement: the fewest, and at least one. */
  function IntWidth(x: int): (w: nat)
    ensures 1 <= w && -128 * Pow256(w - 1) <= x < 128 * Pow256(w - 1)
    decreases if x < 0 then -x else x
  {
    if -128 <= x < 128 then 1 else 1 + IntWidth(x / 256)
  }

  /** No fewer bytes than `IntWidth(x)` hold `x`. */
  lemma {:induction false} IntWidthMinimal(x: int)
    ensures IntWidth(x) == 1 || x < -128 * Pow256(IntWidth(x) - 2) || 128 * Pow256(IntWidth(x) - 2) <= x
    decreases if x < 0 then -x else x
  {
    if !(-128 <= x < 128) {
      IntWidthMinimal(x / 256);
    }
  }

  lemma {:induction false} Pow256Grows(a: nat, b: nat)
    requires a <= b
    ensures Pow256(a) <= Pow256(b)
    decreases b
  {
    if a < b {
      Pow256Grows(a, b - 1);
    }
  }

  /** A value below `256^w` needs at most `w` bytes. */
  lemma {:induction false} UintWidthAtMost(x: nat, w: nat)
    requires 1 <= w && x < Pow256(w)
    ensures UintWidth(x) <= w
  {
    if UintWidth(x) > w {
      UintWidthMinimal(x);
      Pow256Grows(w, UintWidth(x) - 1);
    }
  }

  /** A value in the two's complement range of `w` bytes needs at most `w` bytes. */
  lemma {:induction false} IntWidthAtMost(x: int, w: nat)
    requires 1 <= w && -128 * Pow256(w - 1) <= x < 128 * Pow256(w - 1)
    ensures IntWidth(x) <= w
  {
    if IntWidth(x) > w {
      IntWidthMinimal(x);
      Pow256Grows(w - 1, IntWidth(x) - 2);
    }
  }

  /**
   * `int.from_bytes(v[from:from + n], "little")` read in place: the bytes past the end
   * of `v` are simply not there, as the slice clamps.
   */
  function LeUintAt(v: seq<Byte>, from: nat, n: nat): nat
    decreases n
  {
    if n == 0 || |v| <= from then 0 else v[from] + 256 * LeUintAt(v, from + 1, n - 1)
  }

  /** `n` bytes read in place hold values below `256^n`. */
  lemma {:induction false} LeUintAtBound(v: seq<Byte>, from: nat, n: nat)
    ensures LeUintAt(v, from, n) < Pow256(n)
    decreases n
  {
    if n > 0 && from < |v| {
      LeUintAtBound(v, from + 1, n - 1);
      Pow256Grows(n - 1, n);
    } else if n > 0 {
      Pow256Grows(0, n);
    }
  }

  /** Length of the clamped slice `v[from:from + n]`. */
  function ClampedLength(len: nat, from: nat, n: nat): (m: nat)
    ensures m <= n && from + m <= Max(len, from)
    ensures m < n ==> from + m == Max(len, from)
  {
    if len <= from then 0 else Min(n, len - from)
  }

  /** `int.from_bytes(v[from:from + n], "little", signed=True)` read in place. */
  function LeIntAt(v: seq<Byte>, from: nat, n: nat): int
  {
    var m := ClampedLength(|v|, from, n);
    if m == 0 then 0
    else if v[from + m - 1] >= 128 then LeUintAt(v, from, m) - Pow256(m)
    else LeUintAt(v, from, m)
  }

  /** The in-place read is the read of the clamped slice. */
  lemma {:induction false} LeUintAtIsClamp(v: seq<Byte>, from: nat, n: nat)
    ensures LeUintAt(v, from, n) == LeUint(Clamp(v, from, from + n))
    decreases n
  {
    if n > 0 && from < |v| {
      LeUintAtIsClamp(v, from + 1, n - 1);
      var c := Clamp(v, from, from + n);
      assert c[0] == v[from];
      assert c[1..] == Clamp(v, from + 1, from + n);
    }
  }

  /** Reading `n` bytes in place reads only the first `ClampedLength` of them. */
  lemma {:induction false} LeUintAtClamped(v: seq<Byte>, from: nat, n: nat)
    ensures LeUintAt(v, from, ClampedLength(|v|, from, n)) == LeUintAt(v, from, n)
    decreases n
  {
    if n > 0 && from < |v| {
      LeUintAtClamped(v, from + 1, n - 1);
    }
  }

  /** The signed in-place read is the signed read of the clamped slice. */
  lemma {:induction false} LeIntAtIsClamp(v: seq<Byte>, from: nat, n: nat)
    ensures LeIntAt(v, from, n) == LeInt(Clamp(v, from, from + n))
  {
    var m := ClampedLength(|v|, from, n);
    var c := Clamp(v, from, from + n);
    assert |c| == m;
    LeUintAtIsClamp(v, from, m);
    assert Clamp(v, from, from + m) == c;
    if m > 0 {
      assert c[m - 1] == v[from + m - 1];
    }
  }

  /** The view `v` holds the bytes `e` from position `at` on. */
  predicate At(v: seq<Byte>, at: nat, e: seq<Byte>)
    decreases |e|
  {
    if |e| == 0 then at <= |v| else at < |v| && v[at] == e[0] && At(v, at + 1, e[1..])
  }

  /** `At` is the pointwise statement. */
  lemma {:induction false} AtIndex(v: seq<Byte>, at: nat, e: seq<Byte>, i: nat)
    requires At(v, at, e) && i < |e|
    ensures at + |e| <= |v| && v[at + i] == e[i]
    decreases |e|
  {
    if i > 0 {
      AtIndex(v, at + 1, e[1..], i - 1);
    } else {
      AtBound(v, at, e);
    }
  }

  lemma {:induction false} AtBound(v: seq<Byte>, at: nat, e: seq<Byte>)
    requires At(v, at, e)
    ensures at + |e| <= |v|
    decreases |e|
  {
    if |e| > 0 {
      AtBound(v, at + 1, e[1..]);
    }
  }

  /** The pointwise statement is `At`. */
  lemma {:induction false} AtFromIndex(v: seq<Byte>, at: nat, e: seq<Byte>)
    requires at + |e| <= |v|
    requires forall i :: 0 <= i < |e| ==> v[at + i] == e[i]
    ensures At(v, at, e)
    decreases |e|
  {
    if |e| > 0 {
      assert v[at + 0] == e[0];
      forall i | 0 <= i < |e[1..]|
        ensures v[at + 1 + i] == e[1..][i]
      {
        assert v[at + (1 + i)] == e[1 + i];
      }
      AtFromIndex(v, at + 1, e[1..]);
    }
  }

  /** A view holding `a + b` holds `a`, and `b` right after it. */
  lemma {:induction false} AtSplit(v: seq<Byte>, at: nat, a: seq<Byte>, b: seq<Byte>)
    requires At(v, at, a + b)
    ensures At(v, at, a) && At(v, at + |a|, b)
    decreases |a|
  {
    if |a| > 0 {
      assert (a + b)[0] == a[0];
      assert (a + b)[1..] == a[1..] + b;
      AtSplit(v, at + 1, a[1..], b);
    } else {
      assert a + b == b;
      AtBound(v, at, b);
    }
  }

  /** Reading in place where the view holds `e` reads `e`. */
  lemma {:induction false} LeUintAtEncoded(v: seq<Byte>, at: nat, e: seq<Byte>)
    requires At(v, at, e)
    ensures LeUintAt(v, at, |e|) == LeUint(e)
    decreases |e|
  {
    if |e| > 0 {
      LeUintAtEncoded(v, at + 1, e[1..]);
    }
  }

  /** Reading a signed value in place where the view holds `e` reads `e`. */
  lemma {:induction false} LeIntAtEncoded(v: seq<Byte>, at: nat, e: seq<Byte>)
    requires At(v, at, e)
    ensures LeIntAt(v, at, |e|) == LeInt(e)
  {
    LeUintAtEncoded(v, at, e);
    if |e| > 0 {
      AtIndex(v, at, e, |e| - 1);
    }
  }

  /** A view holding `pre + EncodeUint(x, w)` holds `pre`, and `x` reads back right after it. */
  lemma {:induction false} FieldAt(v: seq<Byte>, at: nat, pre: seq<Byte>, x: nat, w: nat)
    requires x < Pow256(w) && At(v, at, pre + EncodeUint(x, w))
    ensures At(v, at, pre) && LeUintAt(v, at + |pre|, w) == x
  {
    AtSplit(v, at, pre, EncodeUint(x, w));
    LeUintAtEncoded(v, at + |pre|, EncodeUint(x, w));
    LeUintEncodeUint(x, w);
  }

  /** A sequence holds its own prefix. */
  lemma {:induction false} AtPrefix(a: seq<Byte>, b: seq<Byte>)
    ensures At(a + b, 0, a)
  {
    forall i | 0 <= i < |a|
      ensures (a + b)[0 + i] == a[i]
    {
    }
    AtFromIndex(a + b, 0, a);
  }

  /** Little-endian layouts of the `struct` codes H, I and Q. */
  function U16(x: nat): (b: seq<Byte>)
    requires x < 0x1_0000
    ensures |b| == 2
  {
    EncodeUint(x, 2)
  }

  function U32(x: nat): (b: seq<Byte>)
    requires x < 0x1_0000_0000
    ensures |b| == 4
  {
    EncodeUint(x, 4)
  }

  function U64(x: nat): (b: seq<Byte>)
    requires x < 0x1_0000_0000_0000_0000
    ensures |b| == 8
  {
    EncodeUint(x, 8)
  }

  /** Reading `n` bytes in place only looks at the bytes below `from + n`. */
  lemma {:induction false} LeUintAtPrefix(v: seq<Byte>, k: nat, from: nat, n: nat)
    requires from + n <= k <= |v|
    ensures LeUintAt(v[..k], from, n) == LeUintAt(v, from, n)
    decreases n
  {
    if n > 0 {
      LeUintAtPrefix(v, k, from + 1, n - 1);
    }
  }
}
