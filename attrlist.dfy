/**
 * The attribute contents of libmft/attrcontent.py that are sequences of records laid
 * back to back: ATTRIBUTE_LIST (a run of `AttributeListEntry`) and EA (a run of
 * `EaEntry`). Both are read by the same loop, modelled once as `Walk` over a record
 * decoder and a record size.
 */
module AttrLists {
  import opened Wrappers
  import opened Bytes
  import opened Functions
  import opened AttrContent

  // ---------------------------------------------------------------------------
  // Records laid back to back
  // ---------------------------------------------------------------------------

  /**
   * The loop of `AttributeList.create_from_binary` and `Ea.create_from_binary`: the record
   * at `offset` is decoded from the rest of the view, the next one starts `size(record)`
   * bytes further, and the walk stops once that passes the end of the view. The first
   * record is read even from an empty view; a record of size 0 that ends before the end
   * of the view is read again forever.
   */
  function Chain<E>(v: seq<Byte>, offset: nat, decode: seq<Byte> -> Result<E, ContentError>, size: E -> nat)
    : (r: Result<seq<E>, ContentError>)
    requires offset <= |v|
    ensures r.Success? ==> |r.value| >= 1
    decreases |v| - offset
  {
    var e :- decode(v[offset..]);
    var next := offset + size(e);
    if next >= |v| then Success([e])
    else if next == offset then Failure(NoProgress)
    else
      var rest :- Chain(v, next, decode, size);
      Success([e] + rest)
  }

  /** The bytes the records `es` span, one after the other. */
  function Span<E>(es: seq<E>, size: E -> nat): nat
  {
    if |es| == 0 then 0 else size(es[0]) + Span(es[1..], size)
  }

  /** Where record `i` of `es` starts when the first one starts at `offset`. */
  function Pos<E>(es: seq<E>, size: E -> nat, offset: nat, i: nat): nat
    requires i <= |es|
  {
    offset + Span(es[..i], size)
  }

  /** The record `x` decodes from the view at `p`. */
  ghost predicate DecodesTo<E>(v: seq<Byte>, p: nat, decode: seq<Byte> -> Result<E, ContentError>, x: E)
  {
    p <= |v| && decode(v[p..]) == Success(x)
  }

  /** Each record of `es` decodes from where the ones before it end. */
  ghost predicate DecodedAt<E>(v: seq<Byte>, offset: nat, es: seq<E>, decode: seq<Byte> -> Result<E, ContentError>, size: E -> nat)
  {
    forall i :: 0 <= i < |es| ==> DecodesTo(v, Pos(es, size, offset, i), decode, es[i])
  }

  /** The record `x` spans at least one byte, and the next one starts at `next`, inside the view. */
  ghost predicate EndsInside<E>(v: seq<Byte>, x: E, size: E -> nat, next: nat)
  {
    size(x) > 0 && next < |v|
  }

  /** Every record of `es` but the last spans at least one byte and ends inside the view. */
  ghost predicate Continues<E>(v: seq<Byte>, offset: nat, es: seq<E>, size: E -> nat)
  {
    forall i :: 0 <= i < |es| - 1 ==> EndsInside(v, es[i], size, Pos(es, size, offset, i + 1))
  }

  /**
   * `es` is what lies in `v` from `offset` on: at least one record, each decoding from where
   * the ones before it end, every one but the last ending inside the view after at least
   * one byte, and the last one ending at or past the end of the view.
   */
  ghost predicate Laid<E>(v: seq<Byte>, offset: nat, es: seq<E>, decode: seq<Byte> -> Result<E, ContentError>, size: E -> nat)
  {
    && |es| >= 1
    && DecodedAt(v, offset, es, decode, size)
    && Continues(v, offset, es, size)
    && offset + Span(es, size) >= |v|
  }

  /** The records after the first start where the first one ends. */
  lemma {:induction false} PosCons<E>(e: E, rest: seq<E>, size: E -> nat, offset: nat, i: nat)
    requires i <= |rest|
    ensures Pos([e] + rest, size, offset, i + 1) == Pos(rest, size, offset + size(e), i)
    ensures Pos([e] + rest, size, offset, 0) == offset
  {
    assert ([e] + rest)[..i + 1][1..] == rest[..i];
    assert ([e] + rest)[..i + 1][0] == e;
    assert ([e] + rest)[..0] == [];
  }

  lemma {:induction false} SpanCons<E>(e: E, rest: seq<E>, size: E -> nat)
    ensures Span([e] + rest, size) == size(e) + Span(rest, size)
  {
    assert ([e] + rest)[1..] == rest;
  }

  lemma {:induction false} DecodedAtCons<E>(v: seq<Byte>, offset: nat, e: E, rest: seq<E>,
                                            decode: seq<Byte> -> Result<E, ContentError>, size: E -> nat)
    ensures DecodedAt(v, offset, [e] + rest, decode, size)
      <==> offset <= |v| && decode(v[offset..]) == Success(e) && DecodedAt(v, offset + size(e), rest, decode, size)
  {
    if DecodedAt(v, offset, [e] + rest, decode, size) {
      DecodedAtTail(v, offset, e, rest, decode, size);
    }
    if offset <= |v| && decode(v[offset..]) == Success(e) && DecodedAt(v, offset + size(e), rest, decode, size) {
      DecodedAtPrepend(v, offset, e, rest, decode, size);
    }
  }

  lemma {:induction false} DecodedAtTail<E>(v: seq<Byte>, offset: nat, e: E, rest: seq<E>,
                                            decode: seq<Byte> -> Result<E, ContentError>, size: E -> nat)
    requires DecodedAt(v, offset, [e] + rest, decode, size)
    ensures offset <= |v| && decode(v[offset..]) == Success(e) && DecodedAt(v, offset + size(e), rest, decode, size)
  {
    var es := [e] + rest;
    PosCons(e, rest, size, offset, 0);
    assert es[0] == e;
    assert DecodesTo(v, Pos(es, size, offset, 0), decode, es[0]);
    forall i | 0 <= i < |rest|
      ensures DecodesTo(v, Pos(rest, size, offset + size(e), i), decode, rest[i])
    {
      PosCons(e, rest, size, offset, i);
      assert es[i + 1] == rest[i];
      assert DecodesTo(v, Pos(es, size, offset, i + 1), decode, es[i + 1]);
    }
  }

  lemma {:induction false} DecodedAtPrepend<E>(v: seq<Byte>, offset: nat, e: E, rest: seq<E>,
                                               decode: seq<Byte> -> Result<E, ContentError>, size: E -> nat)
    requires offset <= |v| && decode(v[offset..]) == Success(e) && DecodedAt(v, offset + size(e), rest, decode, size)
    ensures DecodedAt(v, offset, [e] + rest, decode, size)
  {
    var es := [e] + rest;
    forall i | 0 <= i < |es|
      ensures DecodesTo(v, Pos(es, size, offset, i), decode, es[i])
    {
      if i > 0 {
        PosCons(e, rest, size, offset, i - 1);
        assert es[i] == rest[i - 1];
        assert DecodesTo(v, Pos(rest, size, offset + size(e), i - 1), decode, rest[i - 1]);
      } else {
        PosCons(e, rest, size, offset, 0);
        assert es[0] == e;
      }
    }
  }

  lemma {:induction false} ContinuesCons<E>(v: seq<Byte>, offset: nat, e: E, rest: seq<E>, size: E -> nat)
    ensures Continues(v, offset, [e] + rest, size)
      <==> |rest| == 0 || (size(e) > 0 && offset + size(e) < |v| && Continues(v, offset + size(e), rest, size))
  {
    if Continues(v, offset, [e] + rest, size) && |rest| > 0 {
      ContinuesTail(v, offset, e, rest, size);
    }
    if |rest| > 0 && size(e) > 0 && offset + size(e) < |v| && Continues(v, offset + size(e), rest, size) {
      ContinuesPrepend(v, offset, e, rest, size);
    }
    if |rest| == 0 {
      assert |[e] + rest| - 1 == 0;
    }
  }

  lemma {:induction false} ContinuesTail<E>(v: seq<Byte>, offset: nat, e: E, rest: seq<E>, size: E -> nat)
    requires Continues(v, offset, [e] + rest, size) && |rest| > 0
    ensures size(e) > 0 && offset + size(e) < |v| && Continues(v, offset + size(e), rest, size)
  {
    var es := [e] + rest;
    PosCons(e, rest, size, offset, 0);
    assert es[0] == e;
    assert EndsInside(v, es[0], size, Pos(es, size, offset, 1));
    forall i | 0 <= i < |rest| - 1
      ensures EndsInside(v, rest[i], size, Pos(rest, size, offset + size(e), i + 1))
    {
      PosCons(e, rest, size, offset, i + 1);
      assert es[i + 1] == rest[i];
      assert EndsInside(v, es[i + 1], size, Pos(es, size, offset, i + 2));
    }
  }

  lemma {:induction false} ContinuesPrepend<E>(v: seq<Byte>, offset: nat, e: E, rest: seq<E>, size: E -> nat)
    requires |rest| > 0 && size(e) > 0 && offset + size(e) < |v| && Continues(v, offset + size(e), rest, size)
    ensures Continues(v, offset, [e] + rest, size)
  {
    var es := [e] + rest;
    forall i | 0 <= i < |es| - 1
      ensures EndsInside(v, es[i], size, Pos(es, size, offset, i + 1))
    {
      PosCons(e, rest, size, offset, i);
      if i > 0 {
        assert es[i] == rest[i - 1];
        assert EndsInside(v, rest[i - 1], size, Pos(rest, size, offset + size(e), i));
      } else {
        assert es[0] == e;
      }
    }
  }

  /** What `Chain` returns is laid in the view. */
  lemma {:induction false} ChainLaid<E>(v: seq<Byte>, offset: nat, decode: seq<Byte> -> Result<E, ContentError>, size: E -> nat)
    requires offset <= |v| && Chain(v, offset, decode, size).Success?
    ensures Laid(v, offset, Chain(v, offset, decode, size).value, decode, size)
    decreases |v| - offset
  {
    var es := Chain(v, offset, decode, size).value;
    var e := decode(v[offset..]).value;
    var next := offset + size(e);
    var rest := if next < |v| then Chain(v, next, decode, size).value else [];
    if next < |v| {
      ChainLaid(v, next, decode, size);
    }
    assert es == [e] + rest;
    DecodedAtCons(v, offset, e, rest, decode, size);
    ContinuesCons(v, offset, e, rest, size);
    SpanCons(e, rest, size);
  }

  /** Whatever is laid in the view is what `Chain` returns. */
  lemma {:induction false} LaidChain<E>(v: seq<Byte>, offset: nat, es: seq<E>, decode: seq<Byte> -> Result<E, ContentError>, size: E -> nat)
    requires offset <= |v| && Laid(v, offset, es, decode, size)
    ensures Chain(v, offset, decode, size) == Success(es)
    decreases |es|
  {
    var e, rest := es[0], es[1..];
    assert es == [e] + rest;
    DecodedAtTail(v, offset, e, rest, decode, size);
    SpanCons(e, rest, size);
    var next := offset + size(e);
    if |rest| == 0 {
      assert Span(rest, size) == 0;
      ChainLast(v, offset, decode, size, e);
      assert es == [e];
    } else {
      ContinuesTail(v, offset, e, rest, size);
      assert Laid(v, next, rest, decode, size);
      LaidChain(v, next, rest, decode, size);
      ChainCons(v, offset, decode, size, e, rest);
    }
  }

  /** A record that reaches the end of the view is the last one. */
  lemma {:induction false} ChainLast<E>(v: seq<Byte>, offset: nat, decode: seq<Byte> -> Result<E, ContentError>, size: E -> nat, e: E)
    requires offset <= |v| && decode(v[offset..]) == Success(e) && offset + size(e) >= |v|
    ensures Chain(v, offset, decode, size) == Success([e])
  {
  }

  /** A record that ends inside the view after at least one byte is followed by the walk from its end. */
  lemma {:induction false} ChainCons<E>(v: seq<Byte>, offset: nat, decode: seq<Byte> -> Result<E, ContentError>, size: E -> nat, e: E, rest: seq<E>)
    requires offset <= |v| && decode(v[offset..]) == Success(e) && size(e) > 0 && offset + size(e) < |v|
    requires Chain(v, offset + size(e), decode, size) == Success(rest)
    ensures Chain(v, offset, decode, size) == Success([e] + rest)
  {
  }

  /** The walk succeeds with `es` exactly when `es` lies back to back in the view. */
  lemma {:induction false} ChainIff<E>(v: seq<Byte>, es: seq<E>, decode: seq<Byte> -> Result<E, ContentError>, size: E -> nat)
    ensures Chain(v, 0, decode, size) == Success(es) <==> Laid(v, 0, es, decode, size)
  {
    if Chain(v, 0, decode, size) == Success(es) {
      ChainLaid(v, 0, decode, size);
    }
    if Laid(v, 0, es, decode, size) {
      LaidChain(v, 0, es, decode, size);
    }
  }

  /** The outcome of the records still to read, after the ones already read. */
  function After<E>(read: seq<E>, r: Result<seq<E>, ContentError>): Result<seq<E>, ContentError>
  {
    if r.Success? then Success(read + r.value) else r
  }

  /** The loop itself, appending each record as it is read. */
  method Walk<E>(v: seq<Byte>, decode: seq<Byte> -> Result<E, ContentError>, size: E -> nat)
    returns (r: Result<seq<E>, ContentError>)
    ensures r == Chain(v, 0, decode, size)
  {
    var offset := 0;
    var list: seq<E> := [];
    assert After(list, Chain(v, offset, decode, size)) == Chain(v, 0, decode, size) by {
      assert Chain(v, 0, decode, size).Success? ==> [] + Chain(v, 0, decode, size).value == Chain(v, 0, decode, size).value;
    }
    while true
      invariant offset <= |v|
      invariant Chain(v, 0, decode, size) == After(list, Chain(v, offset, decode, size))
      decreases |v| - offset
    {
      var entry := decode(v[offset..]);
      if entry.Failure? {
        return Failure(entry.error);
      }
      var next := offset + size(entry.value);
      if next >= |v| {
        return Success(list + [entry.value]);
      }
      if next == offset {
        return Failure(NoProgress);
      }
      var rest := Chain(v, next, decode, size);
      if rest.Success? {
        assert list + ([entry.value] + rest.value) == (list + [entry.value]) + rest.value;
      }
      list := list + [entry.value];
      offset := next;
    }
  }

  // ---------------------------------------------------------------------------
  // ATTRIBUTE_LIST
  // ---------------------------------------------------------------------------

  /** Size of the layout "<IH2B2QH". */
  const ATTR_LIST_ENTRY_SIZE: nat := 26

  /** One entry; the name length is that of the name, as the source derives it. */
  datatype AttrListEntry = AttrListEntry(
    attrType: nat,
    entryLen: nat,
    nameOffset: nat,
    startVcn: nat,
    fileRef: nat,
    fileSeq: nat,
    attrId: nat,
    name: Option<seq<Byte>>)

  /**
   * `AttributeListEntry.create_from_binary`: the fixed fields, the file reference split
   * into record and sequence numbers, and a name of `2 * n` bytes at the name offset when
   * the name-length byte `n` is not 0.
   */
  function DecodeAttrListEntry(w: seq<Byte>): (r: Result<AttrListEntry, ContentError>)
    ensures r.Success? <==> |w| >= ATTR_LIST_ENTRY_SIZE
    ensures r.Success? ==> (r.value.name.Some? <==> w[6] > 0)
    ensures r.Success? && r.value.name.Some? && w[7] as int + 2 * w[6] as int <= |w| ==> |r.value.name.value| == 2 * w[6] as int
    ensures r.Success? ==> r.value.entryLen < 0x1_0000 && r.value.nameOffset == w[7]
    ensures r.Success? ==> r.value.fileRef < TWO48 && r.value.fileSeq < TWO16
    ensures r.Success? ==> JoinFileReference(r.value.fileRef, r.value.fileSeq) == LeUintAt(w, 16, 8)
  {
    if |w| < ATTR_LIST_ENTRY_SIZE then Failure(Truncated)
    else
      var nameLen: nat, nameOffset: nat := w[6], w[7];
      var name := if nameLen > 0 then Some(Clamp(w, nameOffset, nameOffset + 2 * nameLen)) else None;
      var reference := LeUintAt(w, 16, 8);
      LeUintAtBound(w, 16, 8);
      LeUintAtBound(w, 4, 2);
      var (fileRef, fileSeq) := SplitFileReference(reference);
      Success(AttrListEntry(LeUintAt(w, 0, 4), LeUintAt(w, 4, 2), nameOffset, LeUintAt(w, 8, 8),
                            fileRef, fileSeq, LeUintAt(w, 24, 2), name))
  }

  /** `len(entry)`: the entry-length field. */
  function EntryLength(e: AttrListEntry): nat
  {
    e.entryLen
  }

  /** `AttributeList.create_from_binary`. */
  method DecodeAttributeList(v: seq<Byte>) returns (r: Result<seq<AttrListEntry>, ContentError>)
    ensures r == Chain(v, 0, DecodeAttrListEntry, EntryLength)
  {
    r := Walk(v, DecodeAttrListEntry, EntryLength);
  }

  /**
   * An attribute list read from `v` holds at least one entry; each entry is read where the
   * ones before it end, every one but the last ends inside the content, and the last one
   * ends at or past its end.
   */
  lemma {:induction false} AttributeListLaid(v: seq<Byte>, es: seq<AttrListEntry>)
    ensures Chain(v, 0, DecodeAttrListEntry, EntryLength) == Success(es)
      <==> Laid(v, 0, es, DecodeAttrListEntry, EntryLength)
  {
    ChainIff(v, es, DecodeAttrListEntry, EntryLength);
  }

  // ---------------------------------------------------------------------------
  // EA
  // ---------------------------------------------------------------------------

  /** Size of the layout "<I2BH". */
  const EA_ENTRY_SIZE: nat := 8

  datatype EaEntry = EaEntry(offsetNextEa: nat, flags: nat, name: seq<Byte>, value: seq<Byte>)

  /**
   * Where the value starts: `ceil((8 + n) / 8) * 8`, the first multiple of 8 at or after
   * the end of a name of `n` bytes.
   */
  function EaValueOffset(nameLen: nat): (at: nat)
    ensures at % 8 == 0 && EA_ENTRY_SIZE + nameLen <= at < EA_ENTRY_SIZE + nameLen + 8
  {
    (EA_ENTRY_SIZE + nameLen + 7) / 8 * 8
  }

  /** `EaEntry.create_from_binary`: the name right after the header, the value 8-byte aligned after it. */
  function DecodeEaEntry(w: seq<Byte>): (r: Result<EaEntry, ContentError>)
    ensures r.Success? <==> |w| >= EA_ENTRY_SIZE
    ensures r.Success? ==> |r.value.name| == Min(w[5], |w| - EA_ENTRY_SIZE)
    ensures r.Success? && EaValueOffset(w[5]) + LeUintAt(w, 6, 2) <= |w| ==>
      r.value.value == w[EaValueOffset(w[5])..EaValueOffset(w[5]) + LeUintAt(w, 6, 2)]
  {
    if |w| < EA_ENTRY_SIZE then Failure(Truncated)
    else
      var nameLen: nat, valueLen := w[5], LeUintAt(w, 6, 2);
      var at := EaValueOffset(nameLen);
      Success(EaEntry(LeUintAt(w, 0, 4), w[4], Clamp(w, EA_ENTRY_SIZE, EA_ENTRY_SIZE + nameLen), Clamp(w, at, at + valueLen)))
  }

  /** `len(entry)`: the offset of the next entry. */
  function EaEntryLength(e: EaEntry): nat
  {
    e.offsetNextEa
  }

  /** `Ea.create_from_binary`. */
  method DecodeEa(v: seq<Byte>) returns (r: Result<seq<EaEntry>, ContentError>)
    ensures r == Chain(v, 0, DecodeEaEntry, EaEntryLength)
  {
    r := Walk(v, DecodeEaEntry, EaEntryLength);
  }

  /** An EA content is read as entries laid back to back, exactly as an attribute list is. */
  lemma {:induction false} EaLaid(v: seq<Byte>, es: seq<EaEntry>)
    ensures Chain(v, 0, DecodeEaEntry, EaEntryLength) == Success(es)
      <==> Laid(v, 0, es, DecodeEaEntry, EaEntryLength)
  {
    ChainIff(v, es, DecodeEaEntry, EaEntryLength);
  }
}
