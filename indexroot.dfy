/**
 * The INDEX_ROOT content of libmft/attrcontent.py: the root header, the index node header
 * after it, and the index entries of the root node, read one after the other up to the one
 * flagged as the last.
 */
module IndexRoots {
  import opened Wrappers
  import opened Bytes
  import opened AttrContent
  import opened AttrLists
  import Headers

  /** Size of the root layout "<3IB3x". */
  const INDEX_ROOT_SIZE: nat := 16
  /** Size of the node header layout "<4I". */
  const INDEX_NODE_HEADER_SIZE: nat := 16
  /** Size of the entry layout "<Q2HI". */
  const INDEX_ENTRY_SIZE: nat := 16
  /** The entry flags: the entry points to a sub-node, and the entry is the node's last one. */
  const CHILD_NODE_EXISTS: nat := 1
  const LAST_ENTRY: nat := 2

  datatype IndexNodeHeader = IndexNodeHeader(startOffset: nat, endOffset: nat, endAllocOffset: nat, flags: nat)

  /** The key an entry holds: a FILE_NAME content in a file-name index, its raw bytes otherwise. */
  datatype IndexKey =
    | FileNameKey(fileName: FileName)
    | RawKey(bytes: seq<Byte>)

  datatype IndexEntry = IndexEntry(
    generic: nat,
    entryLen: nat,
    contentLen: nat,
    flags: nat,
    content: IndexKey,
    vcnChildNode: Option<nat>)

  datatype IndexRoot = IndexRoot(
    attrType: Option<nat>,
    collationRule: nat,
    indexLenInBytes: nat,
    indexLenInCluster: nat,
    nodeHeader: IndexNodeHeader,
    entries: seq<IndexEntry>)

  /** `flags & bit` for a one-bit mask `bit` of 1 or 2. */
  predicate HasFlag(flags: nat, bit: nat)
    requires bit == CHILD_NODE_EXISTS || bit == LAST_ENTRY
  {
    (flags / bit) % 2 == 1
  }

  /**
   * Where the child node's VCN is read: after the content, moved forward by
   * `(entry_len - (16 + content_len)) % 8` so that it ends a whole number of 8-byte
   * steps before the end of the entry.
   */
  function ChildVcnOffset(entryLen: nat, contentLen: nat): (at: nat)
    ensures INDEX_ENTRY_SIZE + contentLen <= at < INDEX_ENTRY_SIZE + contentLen + 8
    ensures (entryLen - at) % 8 == 0
  {
    var contentEnd := INDEX_ENTRY_SIZE + contentLen;
    contentEnd + (entryLen - contentEnd) % 8
  }

  /**
   * The entry's key from `body`, the clamped `content_len` bytes after the entry header:
   * a file name only in a FILE_NAME index and when `content_len` is not 0, the raw bytes
   * otherwise. A file name that does not fit in `body` fails as `struct.unpack` does.
   */
  function DecodeKey(body: seq<Byte>, contentLen: nat, contentType: Option<nat>): (r: Result<IndexKey, ContentError>)
    ensures r.Success? ==> (r.value.FileNameKey? <==> contentType == Some(Headers.FILE_NAME) && contentLen != 0)
    ensures r.Success? && r.value.FileNameKey? ==> DecodeFileName(body) == Success(r.value.fileName)
    ensures r.Success? && r.value.RawKey? ==> r.value.bytes == body
    ensures r.Failure? <==> contentType == Some(Headers.FILE_NAME) && contentLen != 0 && |body| < FILE_NAME_SIZE
  {
    if contentType == Some(Headers.FILE_NAME) && contentLen != 0 then
      var f :- DecodeFileName(body);
      Success(FileNameKey(f))
    else Success(RawKey(body))
  }

  /** The bytes of the key of an entry read from `w`. */
  function KeyBytesAt(w: seq<Byte>): seq<Byte>
  {
    Clamp(w, INDEX_ENTRY_SIZE, INDEX_ENTRY_SIZE + LeUintAt(w, 10, 2))
  }

  /**
   * `IndexEntry.create_from_binary`: the header fields, the key from the `content_len`
   * bytes after the header, and the child node's VCN only when CHILD_NODE_EXISTS is set.
   * It fails when the header is cut short, when the key does, or when the VCN lies past
   * the end of the view.
   */
  function DecodeIndexEntry(w: seq<Byte>, contentType: Option<nat>): (r: Result<IndexEntry, ContentError>)
    ensures r.Success? <==>
      && |w| >= INDEX_ENTRY_SIZE
      && DecodeKey(KeyBytesAt(w), LeUintAt(w, 10, 2), contentType).Success?
      && (HasFlag(LeUintAt(w, 12, 4), CHILD_NODE_EXISTS) ==> ChildVcnOffset(LeUintAt(w, 8, 2), LeUintAt(w, 10, 2)) + 8 <= |w|)
    ensures r.Success? ==>
      && r.value.generic == LeUintAt(w, 0, 8) && r.value.entryLen == LeUintAt(w, 8, 2)
      && r.value.contentLen == LeUintAt(w, 10, 2) && r.value.flags == LeUintAt(w, 12, 4)
      && Success(r.value.content) == DecodeKey(KeyBytesAt(w), r.value.contentLen, contentType)
    ensures r.Success? ==> (r.value.vcnChildNode.Some? <==> HasFlag(r.value.flags, CHILD_NODE_EXISTS))
    ensures r.Success? && r.value.vcnChildNode.Some? ==>
      var at := ChildVcnOffset(r.value.entryLen, r.value.contentLen);
      at + 8 <= |w| && r.value.vcnChildNode.value == LeUintAt(w, at, 8)
  {
    if |w| < INDEX_ENTRY_SIZE then Failure(Truncated)
    else
      var entryLen, contentLen, flags := LeUintAt(w, 8, 2), LeUintAt(w, 10, 2), LeUintAt(w, 12, 4);
      var content :- DecodeKey(KeyBytesAt(w), contentLen, contentType);
      var vcn :- if !HasFlag(flags, CHILD_NODE_EXISTS) then Success(None)
        else
          var at := ChildVcnOffset(entryLen, contentLen);
          if at + 8 <= |w| then Success(Some(LeUintAt(w, at, 8))) else Failure(Truncated);
      Success(IndexEntry(LeUintAt(w, 0, 8), entryLen, contentLen, flags, content, vcn))
  }

  /**
   * A FILE_NAME index entry whose `content_len` is not 0 but whose key holds fewer bytes
   * than the fixed part of a file name, because `content_len` is smaller or the view ends
   * first, fails as `struct.unpack` does on the short slice.
   */
  lemma {:induction false} CutFileNameKeyFails(w: seq<Byte>)
    requires LeUintAt(w, 10, 2) != 0
    requires LeUintAt(w, 10, 2) < FILE_NAME_SIZE || |w| < INDEX_ENTRY_SIZE + FILE_NAME_SIZE
    ensures DecodeIndexEntry(w, Some(Headers.FILE_NAME)) == Failure(Truncated)
  {
    if |w| >= INDEX_ENTRY_SIZE {
      assert |KeyBytesAt(w)| < FILE_NAME_SIZE;
    }
  }

  /** The bytes of a key as the entry holds them. */
  function KeyBytes(k: IndexKey): seq<Byte>
    requires k.FileNameKey? ==> FileNameEncodable(k.fileName)
  {
    match k
    case FileNameKey(f) => EncodeFileName(f)
    case RawKey(b) => b
  }

  /** An entry that fits its fields, whose key is the kind the index holds, and whose VCN follows its flag. */
  predicate IndexEntryEncodable(e: IndexEntry, contentType: Option<nat>)
  {
    && e.generic < U64_LIMIT && e.entryLen < 0x1_0000 && e.flags < U32_LIMIT
    && (e.content.FileNameKey? ==> FileNameEncodable(e.content.fileName))
    && e.contentLen == |KeyBytes(e.content)| && e.contentLen < 0x1_0000
    && (e.content.FileNameKey? <==> contentType == Some(Headers.FILE_NAME) && e.contentLen != 0)
    && (e.vcnChildNode.Some? <==> HasFlag(e.flags, CHILD_NODE_EXISTS))
    && (e.vcnChildNode.Some? ==> e.vcnChildNode.value < U64_LIMIT)
  }

  function Zeros(n: nat): (z: seq<Byte>)
    ensures |z| == n
  {
    seq(n, _ => 0)
  }

  /** The entry header "<Q2HI". */
  function EncodeIndexEntryHead(e: IndexEntry, contentType: Option<nat>): (b: seq<Byte>)
    requires IndexEntryEncodable(e, contentType)
    ensures |b| == INDEX_ENTRY_SIZE
  {
    U64(e.generic) + U16(e.entryLen) + U16(e.contentLen) + U32(e.flags)
  }

  /** The entry laid out: the header, the key, and the VCN at `ChildVcnOffset` when there is one. */
  function EncodeIndexEntry(e: IndexEntry, contentType: Option<nat>): (b: seq<Byte>)
    requires IndexEntryEncodable(e, contentType)
  {
    var key := KeyBytes(e.content);
    EncodeIndexEntryHead(e, contentType) + key
    + match e.vcnChildNode
      case None => []
      case Some(vcn) => Zeros(ChildVcnOffset(e.entryLen, e.contentLen) - (INDEX_ENTRY_SIZE + e.contentLen)) + U64(vcn)
  }

  /** The header of an encoded entry holds its four fields. */
  lemma {:induction false} IndexEntryHeadAt(v: seq<Byte>, e: IndexEntry, contentType: Option<nat>)
    requires IndexEntryEncodable(e, contentType) && At(v, 0, EncodeIndexEntryHead(e, contentType))
    ensures |v| >= INDEX_ENTRY_SIZE
    ensures LeUintAt(v, 0, 8) == e.generic && LeUintAt(v, 8, 2) == e.entryLen
    ensures LeUintAt(v, 10, 2) == e.contentLen && LeUintAt(v, 12, 4) == e.flags
  {
    var p1 := U64(e.generic);
    var p2 := p1 + U16(e.entryLen);
    var p3 := p2 + U16(e.contentLen);
    AtBound(v, 0, p3 + U32(e.flags));
    FieldAt(v, 0, p3, e.flags, 4);
    FieldAt(v, 0, p2, e.contentLen, 2);
    FieldAt(v, 0, p1, e.entryLen, 2);
    FirstFieldAt(v, 0, e.generic, 8);
  }

  /** An encoded entry, whatever follows it, holds its key right after the header. */
  lemma {:induction false} IndexEntryKeyAt(e: IndexEntry, contentType: Option<nat>, rest: seq<Byte>)
    requires IndexEntryEncodable(e, contentType)
    ensures var v := EncodeIndexEntry(e, contentType) + rest;
      && |v| >= INDEX_ENTRY_SIZE
      && LeUintAt(v, 0, 8) == e.generic && LeUintAt(v, 8, 2) == e.entryLen
      && LeUintAt(v, 10, 2) == e.contentLen && LeUintAt(v, 12, 4) == e.flags
      && KeyBytesAt(v) == KeyBytes(e.content)
  {
    var head, key := EncodeIndexEntryHead(e, contentType), KeyBytes(e.content);
    var v := EncodeIndexEntry(e, contentType) + rest;
    var tail := v[INDEX_ENTRY_SIZE + |key|..];
    assert v == head + (key + tail);
    AtPrefix(head, key + tail);
    IndexEntryHeadAt(v, e, contentType);
    assert v[INDEX_ENTRY_SIZE..INDEX_ENTRY_SIZE + |key|] == key;
  }

  /** An encoded entry with a child node, whatever follows it, holds the VCN at `ChildVcnOffset`. */
  lemma {:induction false} IndexEntryVcnAt(e: IndexEntry, contentType: Option<nat>, rest: seq<Byte>)
    requires IndexEntryEncodable(e, contentType) && e.vcnChildNode.Some?
    ensures var v, at := EncodeIndexEntry(e, contentType) + rest, ChildVcnOffset(e.entryLen, e.contentLen);
      at + 8 <= |v| && LeUintAt(v, at, 8) == e.vcnChildNode.value
  {
    var v := EncodeIndexEntry(e, contentType) + rest;
    var at := ChildVcnOffset(e.entryLen, e.contentLen);
    var pre := EncodeIndexEntryHead(e, contentType) + KeyBytes(e.content) + Zeros(at - (INDEX_ENTRY_SIZE + e.contentLen));
    assert |pre| == at;
    assert v == (pre + U64(e.vcnChildNode.value)) + rest;
    AtPrefix(pre + U64(e.vcnChildNode.value), rest);
    AtBound(v, 0, pre + U64(e.vcnChildNode.value));
    FieldAt(v, 0, pre, e.vcnChildNode.value, 8);
  }

  /** Decoding an encoded entry, whatever follows it, gives the entry back. */
  lemma {:induction false} IndexEntryRoundTrip(e: IndexEntry, contentType: Option<nat>, rest: seq<Byte>)
    requires IndexEntryEncodable(e, contentType)
    ensures DecodeIndexEntry(EncodeIndexEntry(e, contentType) + rest, contentType) == Success(e)
  {
    var v := EncodeIndexEntry(e, contentType) + rest;
    IndexEntryKeyAt(e, contentType, rest);
    if e.content.FileNameKey? {
      FileNameRoundTrip(e.content.fileName);
    }
    assert DecodeKey(KeyBytesAt(v), e.contentLen, contentType) == Success(e.content);
    if e.vcnChildNode.Some? {
      IndexEntryVcnAt(e, contentType, rest);
    }
  }

  /** `len(entry)`: the entry-length field. */
  function IndexEntryLength(e: IndexEntry): nat
  {
    e.entryLen
  }

  predicate IsLast(e: IndexEntry)
  {
    HasFlag(e.flags, LAST_ENTRY)
  }

  /**
   * Records read one after the other from `offset` on, each from the rest of the view and
   * the next one `size(record)` bytes further, up to and including the first one that is
   * `last`; a record of size 0 that is not the last would be read again forever. A record
   * never decodes from an empty view, which ends the walk at the end of the view.
   */
  function Until<E>(v: seq<Byte>, offset: nat, decode: seq<Byte> -> Result<E, ContentError>, size: E -> nat, last: E -> bool)
    : (r: Result<seq<E>, ContentError>)
    requires forall w :: decode(w).Success? ==> |w| > 0
    ensures r.Success? ==> |r.value| >= 1
    decreases |v| - offset
  {
    var e :- decode(Clamp(v, offset, |v|));
    if last(e) then Success([e])
    else if size(e) == 0 then Failure(NoProgress)
    else
      var rest :- Until(v, offset + size(e), decode, size, last);
      Success([e] + rest)
  }

  /** The record `x` decodes from the view at `p`. */
  ghost predicate ReadsTo<E>(v: seq<Byte>, p: nat, decode: seq<Byte> -> Result<E, ContentError>, x: E)
  {
    decode(Clamp(v, p, |v|)) == Success(x)
  }

  /** Each record of `es` decodes from where the ones before it end. */
  ghost predicate ReadAt<E>(v: seq<Byte>, offset: nat, es: seq<E>, decode: seq<Byte> -> Result<E, ContentError>, size: E -> nat)
  {
    forall i :: 0 <= i < |es| ==> ReadsTo(v, Pos(es, size, offset, i), decode, es[i])
  }

  /** Only the last record of `es` is `last`, and each one before it spans at least one byte. */
  ghost predicate EndsAtLast<E>(es: seq<E>, size: E -> nat, last: E -> bool)
  {
    && |es| >= 1
    && last(es[|es| - 1])
    && (forall i :: 0 <= i < |es| - 1 ==> !last(es[i]) && size(es[i]) > 0)
  }

  lemma {:induction false} ReadAtCons<E>(v: seq<Byte>, offset: nat, e: E, rest: seq<E>,
                                         decode: seq<Byte> -> Result<E, ContentError>, size: E -> nat)
    ensures ReadAt(v, offset, [e] + rest, decode, size)
      <==> (decode(Clamp(v, offset, |v|)) == Success(e) && ReadAt(v, offset + size(e), rest, decode, size))
  {
    if ReadAt(v, offset, [e] + rest, decode, size) {
      ReadAtTail(v, offset, e, rest, decode, size);
    }
    if decode(Clamp(v, offset, |v|)) == Success(e) && ReadAt(v, offset + size(e), rest, decode, size) {
      ReadAtPrepend(v, offset, e, rest, decode, size);
    }
  }

  lemma {:induction false} ReadAtTail<E>(v: seq<Byte>, offset: nat, e: E, rest: seq<E>,
                                         decode: seq<Byte> -> Result<E, ContentError>, size: E -> nat)
    requires ReadAt(v, offset, [e] + rest, decode, size)
    ensures decode(Clamp(v, offset, |v|)) == Success(e) && ReadAt(v, offset + size(e), rest, decode, size)
  {
    var es := [e] + rest;
    PosCons(e, rest, size, offset, 0);
    assert es[0] == e;
    assert ReadsTo(v, Pos(es, size, offset, 0), decode, es[0]);
    forall i | 0 <= i < |rest|
      ensures ReadsTo(v, Pos(rest, size, offset + size(e), i), decode, rest[i])
    {
      PosCons(e, rest, size, offset, i);
      assert es[i + 1] == rest[i];
      assert ReadsTo(v, Pos(es, size, offset, i + 1), decode, es[i + 1]);
    }
  }

  lemma {:induction false} ReadAtPrepend<E>(v: seq<Byte>, offset: nat, e: E, rest: seq<E>,
                                            decode: seq<Byte> -> Result<E, ContentError>, size: E -> nat)
    requires decode(Clamp(v, offset, |v|)) == Success(e) && ReadAt(v, offset + size(e), rest, decode, size)
    ensures ReadAt(v, offset, [e] + rest, decode, size)
  {
    var es := [e] + rest;
    forall i | 0 <= i < |es|
      ensures ReadsTo(v, Pos(es, size, offset, i), decode, es[i])
    {
      if i > 0 {
        PosCons(e, rest, size, offset, i - 1);
        assert es[i] == rest[i - 1];
        assert ReadsTo(v, Pos(rest, size, offset + size(e), i - 1), decode, rest[i - 1]);
      } else {
        PosCons(e, rest, size, offset, 0);
        assert es[0] == e;
      }
    }
  }

  lemma {:induction false} EndsAtLastCons<E>(e: E, rest: seq<E>, size: E -> nat, last: E -> bool)
    ensures EndsAtLast([e] + rest, size, last)
      <==> (if |rest| == 0 then last(e) else !last(e) && size(e) > 0 && EndsAtLast(rest, size, last))
  {
    var es := [e] + rest;
    assert es[0] == e;
    if |rest| > 0 {
      assert es[|es| - 1] == rest[|rest| - 1];
      if EndsAtLast(es, size, last) {
        forall i | 0 <= i < |rest| - 1
          ensures !last(rest[i]) && size(rest[i]) > 0
        {
          assert es[i + 1] == rest[i];
        }
      }
      if !last(e) && size(e) > 0 && EndsAtLast(rest, size, last) {
        forall i | 0 <= i < |es| - 1
          ensures !last(es[i]) && size(es[i]) > 0
        {
          if i > 0 {
            assert es[i] == rest[i - 1];
          }
        }
      }
    }
  }

  lemma {:induction false} EndsAtLastTail<E>(e: E, rest: seq<E>, size: E -> nat, last: E -> bool)
    requires EndsAtLast([e] + rest, size, last)
    ensures if |rest| == 0 then last(e) else !last(e) && size(e) > 0 && EndsAtLast(rest, size, last)
  {
    var es := [e] + rest;
    assert es[0] == e;
    if |rest| > 0 {
      assert es[|es| - 1] == rest[|rest| - 1];
      forall i | 0 <= i < |rest| - 1
        ensures !last(rest[i]) && size(rest[i]) > 0
      {
        assert es[i + 1] == rest[i];
      }
    }
  }

  /** What the walk returns are records read one after the other, ending at the last one. */
  lemma {:induction false} UntilLaid<E>(v: seq<Byte>, offset: nat, decode: seq<Byte> -> Result<E, ContentError>, size: E -> nat, last: E -> bool)
    requires forall w :: decode(w).Success? ==> |w| > 0
    requires Until(v, offset, decode, size, last).Success?
    ensures var es := Until(v, offset, decode, size, last).value;
      ReadAt(v, offset, es, decode, size) && EndsAtLast(es, size, last)
    decreases |v| - offset
  {
    var es := Until(v, offset, decode, size, last).value;
    var e := decode(Clamp(v, offset, |v|)).value;
    var rest := if last(e) then [] else Until(v, offset + size(e), decode, size, last).value;
    if !last(e) {
      UntilLaid(v, offset + size(e), decode, size, last);
    }
    assert es == [e] + rest;
    ReadAtCons(v, offset, e, rest, decode, size);
    EndsAtLastCons(e, rest, size, last);
  }

  /** Records read one after the other and ending at the last one are what the walk returns. */
  lemma {:induction false} LaidUntil<E>(v: seq<Byte>, offset: nat, es: seq<E>, decode: seq<Byte> -> Result<E, ContentError>, size: E -> nat, last: E -> bool)
    requires forall w :: decode(w).Success? ==> |w| > 0
    requires ReadAt(v, offset, es, decode, size) && EndsAtLast(es, size, last)
    ensures Until(v, offset, decode, size, last) == Success(es)
    decreases |es|, 1
  {
    var e, rest := es[0], es[1..];
    assert es == [e] + rest;
    ReadAtTail(v, offset, e, rest, decode, size);
    EndsAtLastTail(e, rest, size, last);
    if |rest| == 0 {
      assert es == [e];
      UntilLast(v, offset, decode, size, last, e);
    } else {
      LaidUntilCons(v, offset, e, rest, decode, size, last);
    }
  }

  lemma {:induction false} LaidUntilCons<E>(v: seq<Byte>, offset: nat, e: E, rest: seq<E>,
                                            decode: seq<Byte> -> Result<E, ContentError>, size: E -> nat, last: E -> bool)
    requires forall w :: decode(w).Success? ==> |w| > 0
    requires decode(Clamp(v, offset, |v|)) == Success(e) && !last(e) && size(e) > 0
    requires ReadAt(v, offset + size(e), rest, decode, size) && EndsAtLast(rest, size, last)
    ensures Until(v, offset, decode, size, last) == Success([e] + rest)
    decreases |rest| + 1, 0
  {
    LaidUntil(v, offset + size(e), rest, decode, size, last);
    UntilCons(v, offset, decode, size, last, e, rest);
  }

  /** A record that is the last one ends the walk. */
  lemma {:induction false} UntilLast<E>(v: seq<Byte>, offset: nat, decode: seq<Byte> -> Result<E, ContentError>, size: E -> nat,
                                        last: E -> bool, e: E)
    requires forall w :: decode(w).Success? ==> |w| > 0
    requires decode(Clamp(v, offset, |v|)) == Success(e) && last(e)
    ensures Until(v, offset, decode, size, last) == Success([e])
  {
  }

  /** A record that is not the last one and spans bytes is followed by the walk from its end. */
  lemma {:induction false} UntilCons<E>(v: seq<Byte>, offset: nat, decode: seq<Byte> -> Result<E, ContentError>, size: E -> nat,
                                        last: E -> bool, e: E, rest: seq<E>)
    requires forall w :: decode(w).Success? ==> |w| > 0
    requires decode(Clamp(v, offset, |v|)) == Success(e) && !last(e) && size(e) > 0
    requires Until(v, offset + size(e), decode, size, last) == Success(rest)
    ensures Until(v, offset, decode, size, last) == Success([e] + rest)
  {
  }

  /** An entry is never read from an empty view. */
  lemma {:induction false} IndexEntryNeedsBytes(contentType: Option<nat>)
    ensures forall w :: DecodeIndexEntry(w, contentType).Success? ==> |w| > 0
  {
  }

  /** The entries of the root node from `offset` on. */
  function IndexEntries(v: seq<Byte>, offset: nat, contentType: Option<nat>): (r: Result<seq<IndexEntry>, ContentError>)
  {
    IndexEntryNeedsBytes(contentType);
    Until(v, offset, w => DecodeIndexEntry(w, contentType), IndexEntryLength, IsLast)
  }

  /**
   * The entries of an index node are read exactly when they lie one after the other from
   * `offset`, the last of them, and only it, flagged LAST_ENTRY, and every other one with a
   * length.
   */
  lemma {:induction false} IndexEntriesIff(v: seq<Byte>, offset: nat, es: seq<IndexEntry>, contentType: Option<nat>)
    ensures IndexEntries(v, offset, contentType) == Success(es)
      <==> (ReadAt(v, offset, es, w => DecodeIndexEntry(w, contentType), IndexEntryLength)
        && EndsAtLast(es, IndexEntryLength, IsLast))
  {
    var decode := w => DecodeIndexEntry(w, contentType);
    IndexEntryNeedsBytes(contentType);
    if IndexEntries(v, offset, contentType) == Success(es) {
      UntilLaid(v, offset, decode, IndexEntryLength, IsLast);
    }
    if ReadAt(v, offset, es, decode, IndexEntryLength) && EndsAtLast(es, IndexEntryLength, IsLast) {
      LaidUntil(v, offset, es, decode, IndexEntryLength, IsLast);
    }
  }

  /** The entries read end with the one flagged LAST_ENTRY, and only it. */
  lemma {:induction false} IndexEntriesEndAtLast(v: seq<Byte>, offset: nat, contentType: Option<nat>)
    requires IndexEntries(v, offset, contentType).Success?
    ensures EndsAtLast(IndexEntries(v, offset, contentType).value, IndexEntryLength, IsLast)
  {
    IndexEntriesIff(v, offset, IndexEntries(v, offset, contentType).value, contentType);
  }

  /** The index type: `AttrTypes(t)` when the field is not 0, else none. */
  function IndexType(v: seq<Byte>): Option<nat>
  {
    var t := LeUintAt(v, 0, 4);
    if t != 0 then Some(t) else None
  }

  function NodeHeaderOf(v: seq<Byte>): IndexNodeHeader
  {
    IndexNodeHeader(LeUintAt(v, 16, 4), LeUintAt(v, 20, 4), LeUintAt(v, 24, 4), LeUintAt(v, 28, 4))
  }

  /**
   * `IndexRoot.create_from_binary` as a function of the content: the root fields, the node
   * header right after them, and the entries from 16 bytes past the node header's start
   * offset.
   */
  function IndexRootOf(v: seq<Byte>): (r: Result<IndexRoot, ContentError>)
    ensures r.Success? ==> |v| >= INDEX_ROOT_SIZE + INDEX_NODE_HEADER_SIZE && r.value.nodeHeader == NodeHeaderOf(v)
    ensures r.Success? ==> IndexEntries(v, INDEX_ROOT_SIZE + r.value.nodeHeader.startOffset, r.value.attrType) == Success(r.value.entries)
    ensures r.Success? ==> EndsAtLast(r.value.entries, IndexEntryLength, IsLast)
    ensures r.Success? ==> && r.value.attrType == IndexType(v)
                           && r.value.collationRule == LeUintAt(v, 4, 4) && r.value.indexLenInBytes == LeUintAt(v, 8, 4)
                           && r.value.indexLenInCluster == v[12]
    ensures r.Failure? <==> |v| < INDEX_ROOT_SIZE + INDEX_NODE_HEADER_SIZE
                            || IndexEntries(v, INDEX_ROOT_SIZE + NodeHeaderOf(v).startOffset, IndexType(v)).Failure?
  {
    if |v| < INDEX_ROOT_SIZE + INDEX_NODE_HEADER_SIZE then Failure(Truncated)
    else
      var header, t := NodeHeaderOf(v), IndexType(v);
      var entries :- IndexEntries(v, INDEX_ROOT_SIZE + header.startOffset, t);
      IndexEntriesEndAtLast(v, INDEX_ROOT_SIZE + header.startOffset, t);
      Success(IndexRoot(t, LeUintAt(v, 4, 4), LeUintAt(v, 8, 4), v[12], header, entries))
  }

  predicate IndexRootHeadEncodable(r: IndexRoot)
  {
    && (r.attrType.Some? ==> 0 < r.attrType.value < U32_LIMIT)
    && r.collationRule < U32_LIMIT && r.indexLenInBytes < U32_LIMIT && r.indexLenInCluster < 256
    && r.nodeHeader.startOffset < U32_LIMIT && r.nodeHeader.endOffset < U32_LIMIT
    && r.nodeHeader.endAllocOffset < U32_LIMIT && r.nodeHeader.flags < U32_LIMIT
  }

  /** The root fields "<3IB3x", with 0 for no index type. */
  function EncodeRootFields(r: IndexRoot): (b: seq<Byte>)
    requires IndexRootHeadEncodable(r)
    ensures |b| == INDEX_ROOT_SIZE
  {
    U32(if r.attrType.Some? then r.attrType.value else 0) + U32(r.collationRule) + U32(r.indexLenInBytes)
    + [r.indexLenInCluster, 0, 0, 0]
  }

  /** The node header "<4I". */
  function EncodeNodeHeader(h: IndexNodeHeader): (b: seq<Byte>)
    requires h.startOffset < U32_LIMIT && h.endOffset < U32_LIMIT && h.endAllocOffset < U32_LIMIT && h.flags < U32_LIMIT
    ensures |b| == INDEX_NODE_HEADER_SIZE
  {
    U32(h.startOffset) + U32(h.endOffset) + U32(h.endAllocOffset) + U32(h.flags)
  }

  /** The root fields, then the node header. */
  function EncodeIndexRootHead(r: IndexRoot): (b: seq<Byte>)
    requires IndexRootHeadEncodable(r)
    ensures |b| == INDEX_ROOT_SIZE + INDEX_NODE_HEADER_SIZE
  {
    EncodeRootFields(r) + EncodeNodeHeader(r.nodeHeader)
  }

  lemma {:induction false} RootFieldsAt(v: seq<Byte>, r: IndexRoot)
    requires IndexRootHeadEncodable(r) && At(v, 0, EncodeRootFields(r))
    ensures |v| >= INDEX_ROOT_SIZE && IndexType(v) == r.attrType
    ensures LeUintAt(v, 4, 4) == r.collationRule && LeUintAt(v, 8, 4) == r.indexLenInBytes && v[12] == r.indexLenInCluster
  {
    var t := if r.attrType.Some? then r.attrType.value else 0;
    var p1 := U32(t);
    var p2 := p1 + U32(r.collationRule);
    var p3 := p2 + U32(r.indexLenInBytes);
    AtBound(v, 0, EncodeRootFields(r));
    AtSplit(v, 0, p3, [r.indexLenInCluster, 0, 0, 0]);
    AtIndex(v, 12, [r.indexLenInCluster, 0, 0, 0], 0);
    FieldAt(v, 0, p2, r.indexLenInBytes, 4);
    FieldAt(v, 0, p1, r.collationRule, 4);
    FirstFieldAt(v, 0, t, 4);
  }

  lemma {:induction false} NodeHeaderAt(v: seq<Byte>, pre: seq<Byte>, h: IndexNodeHeader)
    requires h.startOffset < U32_LIMIT && h.endOffset < U32_LIMIT && h.endAllocOffset < U32_LIMIT && h.flags < U32_LIMIT
    requires |pre| == INDEX_ROOT_SIZE && At(v, 0, pre + EncodeNodeHeader(h))
    ensures NodeHeaderOf(v) == h
  {
    var p5 := pre + U32(h.startOffset);
    var p6 := p5 + U32(h.endOffset);
    var p7 := p6 + U32(h.endAllocOffset);
    assert pre + EncodeNodeHeader(h) == p7 + U32(h.flags);
    FieldAt(v, 0, p7, h.flags, 4);
    FieldAt(v, 0, p6, h.endAllocOffset, 4);
    FieldAt(v, 0, p5, h.endOffset, 4);
    FieldAt(v, 0, pre, h.startOffset, 4);
  }

  /** A view that starts with an encoded root head reads back its fields and node header. */
  lemma {:induction false} IndexRootHeadAt(v: seq<Byte>, r: IndexRoot)
    requires IndexRootHeadEncodable(r) && At(v, 0, EncodeIndexRootHead(r))
    ensures |v| >= INDEX_ROOT_SIZE + INDEX_NODE_HEADER_SIZE
    ensures IndexType(v) == r.attrType && NodeHeaderOf(v) == r.nodeHeader
    ensures LeUintAt(v, 4, 4) == r.collationRule && LeUintAt(v, 8, 4) == r.indexLenInBytes && v[12] == r.indexLenInCluster
  {
    AtBound(v, 0, EncodeIndexRootHead(r));
    AtSplit(v, 0, EncodeRootFields(r), EncodeNodeHeader(r.nodeHeader));
    RootFieldsAt(v, r);
    NodeHeaderAt(v, EncodeRootFields(r), r.nodeHeader);
  }

  /**
   * An index root laid out in the view, its head first and its entries read from 16 bytes
   * past the node header's start offset, is the root the decoder returns.
   */
  lemma {:induction false} IndexRootLaidOut(v: seq<Byte>, r: IndexRoot)
    requires IndexRootHeadEncodable(r) && At(v, 0, EncodeIndexRootHead(r))
    requires ReadAt(v, INDEX_ROOT_SIZE + r.nodeHeader.startOffset, r.entries,
                    w => DecodeIndexEntry(w, r.attrType), IndexEntryLength)
    requires EndsAtLast(r.entries, IndexEntryLength, IsLast)
    ensures IndexRootOf(v) == Success(r)
  {
    IndexRootHeadAt(v, r);
    IndexEntriesIff(v, INDEX_ROOT_SIZE + r.nodeHeader.startOffset, r.entries, r.attrType);
    assert IndexEntries(v, INDEX_ROOT_SIZE + NodeHeaderOf(v).startOffset, IndexType(v)) == Success(r.entries);
  }

  /** The loop of `IndexRoot.create_from_binary`, appending each record as it is read. */
  method WalkUntil<E>(v: seq<Byte>, start: nat, decode: seq<Byte> -> Result<E, ContentError>, size: E -> nat, last: E -> bool)
    returns (r: Result<seq<E>, ContentError>)
    requires forall w :: decode(w).Success? ==> |w| > 0
    ensures r == Until(v, start, decode, size, last)
  {
    var offset := start;
    var list: seq<E> := [];
    assert After(list, Until(v, offset, decode, size, last)) == Until(v, start, decode, size, last) by {
      var all := Until(v, start, decode, size, last);
      assert all.Success? ==> [] + all.value == all.value;
    }
    while true
      invariant Until(v, start, decode, size, last) == After(list, Until(v, offset, decode, size, last))
      decreases |v| - offset
    {
      var entry := decode(Clamp(v, offset, |v|));
      if entry.Failure? {
        return Failure(entry.error);
      }
      var e := entry.value;
      if last(e) {
        return Success(list + [e]);
      }
      if size(e) == 0 {
        return Failure(NoProgress);
      }
      var rest := Until(v, offset + size(e), decode, size, last);
      if rest.Success? {
        assert list + ([e] + rest.value) == (list + [e]) + rest.value;
      }
      list := list + [e];
      offset := offset + size(e);
    }
  }

  /** `IndexRoot.create_from_binary`. */
  method DecodeIndexRoot(v: seq<Byte>) returns (r: Result<IndexRoot, ContentError>)
    ensures r == IndexRootOf(v)
  {
    if |v| < INDEX_ROOT_SIZE + INDEX_NODE_HEADER_SIZE {
      return Failure(Truncated);
    }
    var header, t := NodeHeaderOf(v), IndexType(v);
    IndexEntryNeedsBytes(t);
    var entries := WalkUntil(v, INDEX_ROOT_SIZE + header.startOffset, w => DecodeIndexEntry(w, t), IndexEntryLength, IsLast);
    if entries.Failure? {
      return Failure(entries.error);
    }
    r := Success(IndexRoot(t, LeUintAt(v, 4, 4), LeUintAt(v, 8, 4), v[12], header, entries.value));
  }
}
