/**
 * `Attribute` of libmft/api.py: an attribute header and, for a resident attribute, its
 * content decoded by the decoder the attribute type selects. The header layout is that
 * of `AttributeHeader` in libmft/headers.py.
 */
module ApiAttribute {
  import opened Wrappers
  import opened Bytes
  import opened Headers
  import opened ApiConfig
  import AttrContent
  import AttrLists
  import IndexRoots

  /** The decoded content of a resident attribute. */
  datatype Content =
    | StdInfoContent(stdInfo: AttrContent.StandardInformation)
    | AttrListContent(entries: seq<AttrLists.AttrListEntry>)
    | FileNameContent(fileName: AttrContent.FileName)
    | ObjectIdContent(objectId: AttrContent.ObjectId)
    | IndexRootContent(indexRoot: IndexRoots.IndexRoot)
    | ReparseContent(reparse: AttrContent.ReparsePoint)
    | EaContent(eas: seq<AttrLists.EaEntry>)
    | DataContent(data: seq<Byte>)
    | BitmapContent(bitmap: seq<Byte>)
      /** Security descriptor, volume name and information, EA information, logged tool stream. */
    | RawContent(raw: seq<Byte>)
      /** The EA information and volume information records api2.py decodes. */
    | EaInfoContent(eaInfo: AttrContent.EaInformation)
    | VolumeInfoContent(volumeInfo: AttrContent.VolumeInformation)

  datatype Attribute = Attribute(header: AttributeHeader, content: Option<Content>)

  /** The ways an attribute is refused. */
  datatype AttributeError =
    | HeaderFailed(headerError: HeaderError)
    | ContentFailed(contentError: AttrContent.ContentError)
      /** KeyError of the dispatcher: a type code that is not an `AttrTypes` member. */
    | UnknownType(attrType: nat)

  function ContentResult<T>(r: Result<T, AttrContent.ContentError>): Result<T, AttributeError>
  {
    if r.Success? then Success(r.value) else Failure(ContentFailed(r.error))
  }

  /** The content variant the dispatcher produces for a type. */
  predicate Carries(attrType: nat, c: Content)
  {
    if attrType == STANDARD_INFORMATION then c.StdInfoContent?
    else if attrType == ATTRIBUTE_LIST then c.AttrListContent?
    else if attrType == FILE_NAME || attrType == INDEX_ALLOCATION then c.FileNameContent?
    else if attrType == OBJECT_ID then c.ObjectIdContent?
    else if attrType == INDEX_ROOT then c.IndexRootContent?
    else if attrType == REPARSE_POINT then c.ReparseContent?
    else if attrType == EA then c.EaContent?
    else if attrType == DATA then c.DataContent?
    else if attrType == BITMAP then c.BitmapContent?
    else c.RawContent?
  }

  /**
   * `Attribute._dispatcher[attr_type](content)`. INDEX_ALLOCATION is dispatched to the
   * FILE_NAME decoder, as the table does.
   */
  function Dispatch(attrType: nat, w: seq<Byte>): (r: Result<Content, AttributeError>)
    ensures r == Failure(UnknownType(attrType)) <==> attrType !in ATTR_TYPES
    ensures r.Success? ==> Carries(attrType, r.value)
  {
    if attrType == STANDARD_INFORMATION then
      var s :- ContentResult(AttrContent.DecodeStandardInformation(w)); Success(StdInfoContent(s))
    else if attrType == ATTRIBUTE_LIST then
      var es :- ContentResult(AttrLists.Chain(w, 0, AttrLists.DecodeAttrListEntry, AttrLists.EntryLength));
      Success(AttrListContent(es))
    else if attrType == FILE_NAME || attrType == INDEX_ALLOCATION then
      var f :- ContentResult(AttrContent.DecodeFileName(w)); Success(FileNameContent(f))
    else if attrType == OBJECT_ID then
      var o :- ContentResult(AttrContent.DecodeObjectId(w)); Success(ObjectIdContent(o))
    else if attrType == INDEX_ROOT then
      var ir :- ContentResult(IndexRoots.IndexRootOf(w)); Success(IndexRootContent(ir))
    else if attrType == REPARSE_POINT then
      var rp :- ContentResult(AttrContent.DecodeReparsePoint(w)); Success(ReparseContent(rp))
    else if attrType == EA then
      var es :- ContentResult(AttrLists.Chain(w, 0, AttrLists.DecodeEaEntry, AttrLists.EaEntryLength));
      Success(EaContent(es))
    else if attrType == DATA then Success(DataContent(w))
    else if attrType == BITMAP then Success(BitmapContent(w))
    else if attrType in ATTR_TYPES then Success(RawContent(w))
    else Failure(UnknownType(attrType))
  }

  /** What every attribute built by `CreateAttribute` satisfies. */
  predicate WellTyped(a: Attribute)
  {
    && WellFormed(a.header)
    && a.header.attrId < 0x1_0000
    && (a.content.Some? <==> !a.header.nonResident)
    && (a.content.Some? ==> Carries(a.header.attrTypeId, a.content.value))
  }

  function HeaderResult(r: Result<AttributeHeader, HeaderError>): Result<AttributeHeader, AttributeError>
  {
    if r.Success? then Success(r.value) else Failure(HeaderFailed(r.error))
  }

  /**
   * `Attribute.create_from_binary`: the header, then for a resident attribute the
   * content read from `content_len` bytes at `content_offset`; a non-resident attribute
   * has no content.
   */
  function CreateAttribute(v: seq<Byte>): (r: Result<Attribute, AttributeError>)
    ensures r.Success? ==> WellTyped(r.value) && DecodeAttributeHeader(v) == Success(r.value.header)
    ensures DecodeAttributeHeader(v).Failure? ==> r == Failure(HeaderFailed(DecodeAttributeHeader(v).error))
  {
    var header :- HeaderResult(DecodeAttributeHeader(v));
    LeUintAtBound(v, 14, 2);
    WithContent(header, v)
  }

  /** The attribute with header `header`, read from `v`: its content when it is resident. */
  function WithContent(header: AttributeHeader, v: seq<Byte>): (r: Result<Attribute, AttributeError>)
    requires WellFormed(header) && header.attrId < 0x1_0000
    ensures r.Success? ==> WellTyped(r.value) && r.value.header == header
  {
    match header.form
    case NonResident(_) => Success(Attribute(header, None))
    case Resident(rh) =>
      var content :- Dispatch(header.attrTypeId, Clamp(v, rh.contentOffset, rh.contentOffset + rh.contentLen));
      Success(Attribute(header, Some(content)))
  }

  /**
   * The content a resident attribute hands its decoder is exactly its `content_len`
   * bytes at `content_offset`, whatever surrounds them in the view.
   */
  lemma {:induction false} ResidentContentIsItsBytes(v: seq<Byte>, h: AttributeHeader, w: seq<Byte>)
    requires WellFormed(h) && AttrFieldsAt(v, h) && h.form.Resident?
    requires |w| == h.form.resident.contentLen && At(v, h.form.resident.contentOffset, w)
    ensures CreateAttribute(v).Success? <==> Dispatch(h.attrTypeId, w).Success?
    ensures CreateAttribute(v).Success? ==> CreateAttribute(v) == Success(Attribute(h, Some(Dispatch(h.attrTypeId, w).value)))
  {
    DecodeAttributeHeaderLaidOut(v, h);
    var rh := h.form.resident;
    AtClamp(v, rh.contentOffset, w);
    LeUintAtBound(v, 14, 2);
    assert CreateAttribute(v) == WithContent(h, v);
  }

  /** `get_attr_info`: the type, the length and the non-resident flag of the attribute at the view's start. */
  datatype AttrInfo = AttrInfo(attrType: nat, attrLen: nat, nonResident: bool)

  function GetAttrInfo(v: seq<Byte>): (r: Result<AttrInfo, AttributeError>)
    ensures r.Success? <==> |v| >= ATTR_HEADER_SIZE
  {
    if |v| < ATTR_HEADER_SIZE then Failure(HeaderFailed(Truncated))
    else Success(AttrInfo(LeUintAt(v, 0, 4), LeUintAt(v, 4, 4), v[8] != 0))
  }

  /** The triple is read from the same fields as the full header. */
  lemma {:induction false} AttrInfoOfHeader(v: seq<Byte>)
    requires DecodeAttributeHeader(v).Success?
    ensures var h := DecodeAttributeHeader(v).value;
      GetAttrInfo(v) == Success(AttrInfo(h.attrTypeId, h.attrLen, h.nonResident))
  {
  }
}
