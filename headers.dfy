/**
 * The fixed-layout headers of libmft/headers.py: the header of an MFT entry and the
 * header of an attribute (resident or non-resident, the latter with its data runs).
 *
 * Each decoder is a `struct.unpack` of a little-endian layout followed by the
 * source's rejection rules; the layouts are written out field by field with their
 * byte offsets. Each has an encoder as partner, and the round-trip lemmas show that
 * the decoder reads back every header the encoder lays out.
 */
module Headers {
  import opened Wrappers
  import opened Bytes
  import opened Functions
  import opened DataRuns

  /** The ways a header is refused. */
  datatype HeaderError =
    | Truncated                    // `struct.unpack` on a view shorter than the layout
    | NoValidSignature             // neither "FILE" nor "BAAD"
    | FixupInsideHeader            // fx_offset below the header size
    | FirstAttrInsideHeader        // first_attr_offset below the header size (libmft/api.py only)
    | LogicalSizeExceedsAllocated  // entry_len > entry_alloc_len
    | AlwaysResident               // STANDARD_INFORMATION, FILE_NAME or INDEX_ROOT marked non-resident
    | RunsMissingTerminator        // the data runs of a non-resident header run off the view

  /** Size of the MFT entry header layout "<4s2HQ4H2IQH2xI". */
  const MFT_HEADER_SIZE: nat := 48

  const FILE_SIGNATURE: seq<Byte> := [0x46, 0x49, 0x4C, 0x45]   // "FILE"
  const BAAD_SIGNATURE: seq<Byte> := [0x42, 0x41, 0x41, 0x44]   // "BAAD"

  /**
   * The header of an MFT entry. `baad` is whether the signature is "BAAD"; it is
   * `None` only when the signature is not checked (libmft/api.py's variant).
   * The base record reference is already split into record number and sequence.
   */
  datatype MftHeader = MftHeader(
    baad: Option<bool>,
    fxOffset: nat,
    fxCount: nat,
    lsn: nat,
    seqNumber: nat,
    hardLinkCount: nat,
    firstAttrOffset: nat,
    usageFlags: nat,
    entryLen: nat,
    entryAllocLen: nat,
    baseRecordRef: nat,
    baseRecordSeq: nat,
    nextAttrId: nat,
    mftRecord: nat)

  /** The four bytes at the start of `v` are `sig`. */
  predicate SignatureIs(v: seq<Byte>, sig: seq<Byte>)
    requires |v| >= 4 && |sig| == 4
  {
    v[0] == sig[0] && v[1] == sig[1] && v[2] == sig[2] && v[3] == sig[3]
  }

  /** `MFTHeader.create_from_binary` of libmft/headers.py. */
  function DecodeMftHeader(v: seq<Byte>): (r: Result<MftHeader, HeaderError>)
    ensures r.Success? ==> Accepted(r.value) && r.value.baad.Some?
  {
    if |v| < MFT_HEADER_SIZE then Failure(Truncated)
    else if !SignatureIs(v, FILE_SIGNATURE) && !SignatureIs(v, BAAD_SIGNATURE) then Failure(NoValidSignature)
    else if LeUintAt(v, 4, 2) < MFT_HEADER_SIZE then Failure(FixupInsideHeader)
    else if LeUintAt(v, 24, 4) > LeUintAt(v, 28, 4) then Failure(LogicalSizeExceedsAllocated)
    else
      Success(ReadMftHeader(v, Some(!SignatureIs(v, FILE_SIGNATURE))))
  }

  /** The fields of the layout, past the signature. */
  function ReadMftHeader(v: seq<Byte>, baad: Option<bool>): (h: MftHeader)
    requires |v| >= MFT_HEADER_SIZE
    ensures Encodable(h) && h.baad == baad
  {
    var fileRef := SplitFileReference(LeUintAt(v, 32, 8));
    LeUintAtBound(v, 4, 2);
    LeUintAtBound(v, 6, 2);
    LeUintAtBound(v, 8, 8);
    LeUintAtBound(v, 16, 2);
    LeUintAtBound(v, 18, 2);
    LeUintAtBound(v, 20, 2);
    LeUintAtBound(v, 22, 2);
    LeUintAtBound(v, 24, 4);
    LeUintAtBound(v, 28, 4);
    LeUintAtBound(v, 40, 2);
    LeUintAtBound(v, 44, 4);
    MftHeader(baad,
      LeUintAt(v, 4, 2), LeUintAt(v, 6, 2), LeUintAt(v, 8, 8),
      LeUintAt(v, 16, 2), LeUintAt(v, 18, 2), LeUintAt(v, 20, 2), LeUintAt(v, 22, 2),
      LeUintAt(v, 24, 4), LeUintAt(v, 28, 4),
      fileRef.0, fileRef.1,
      LeUintAt(v, 40, 2), LeUintAt(v, 44, 4))
  }

  /** The header passes the checks of libmft/headers.py. */
  predicate Accepted(h: MftHeader)
  {
    h.fxOffset >= MFT_HEADER_SIZE && h.entryLen <= h.entryAllocLen
  }

  /** Every field fits its width in the layout. */
  predicate Encodable(h: MftHeader)
  {
    && h.fxOffset < 0x1_0000 && h.fxCount < 0x1_0000 && h.lsn < 0x1_0000_0000_0000_0000
    && h.seqNumber < 0x1_0000 && h.hardLinkCount < 0x1_0000 && h.firstAttrOffset < 0x1_0000
    && h.usageFlags < 0x1_0000 && h.entryLen < 0x1_0000_0000 && h.entryAllocLen < 0x1_0000_0000
    && h.baseRecordRef < TWO48 && h.baseRecordSeq < TWO16
    && h.nextAttrId < 0x1_0000 && h.mftRecord < 0x1_0000_0000
  }

  /** The 48 bytes of an MFT entry header with signature "BAAD" or "FILE" as `baad` says. */
  function EncodeMftHeader(h: MftHeader): (b: seq<Byte>)
    requires Encodable(h) && h.baad.Some?
    ensures |b| == MFT_HEADER_SIZE
  {
    EncodeMftHeaderHead(h)
    + U32(h.entryLen) + U32(h.entryAllocLen)
    + U64(JoinFileReference(h.baseRecordRef, h.baseRecordSeq))
    + U16(h.nextAttrId) + U16(0) + U32(h.mftRecord)
  }

  /** The first four bytes of a view holding `sig` are `sig`. */
  lemma {:induction false} SignatureAt(v: seq<Byte>, sig: seq<Byte>)
    requires |sig| == 4 && At(v, 0, sig)
    ensures |v| >= 4 && SignatureIs(v, sig)
  {
    AtIndex(v, 0, sig, 0);
    AtIndex(v, 0, sig, 1);
    AtIndex(v, 0, sig, 2);
    AtIndex(v, 0, sig, 3);
  }

  function SignatureOf(baad: bool): (sig: seq<Byte>)
    ensures |sig| == 4
  {
    if baad then BAAD_SIGNATURE else FILE_SIGNATURE
  }

  /** The view holds the fields of `h` at the offsets of the layout. */
  predicate MftFieldsAt(v: seq<Byte>, h: MftHeader)
    requires Encodable(h) && h.baad.Some?
  {
    && |v| >= MFT_HEADER_SIZE && SignatureIs(v, SignatureOf(h.baad.value))
    && LeUintAt(v, 4, 2) == h.fxOffset && LeUintAt(v, 6, 2) == h.fxCount && LeUintAt(v, 8, 8) == h.lsn
    && LeUintAt(v, 16, 2) == h.seqNumber && LeUintAt(v, 18, 2) == h.hardLinkCount
    && LeUintAt(v, 20, 2) == h.firstAttrOffset && LeUintAt(v, 22, 2) == h.usageFlags
    && LeUintAt(v, 24, 4) == h.entryLen && LeUintAt(v, 28, 4) == h.entryAllocLen
    && LeUintAt(v, 32, 8) == JoinFileReference(h.baseRecordRef, h.baseRecordSeq)
    && LeUintAt(v, 40, 2) == h.nextAttrId && LeUintAt(v, 44, 4) == h.mftRecord
  }

  /** The decoder accepts exactly the views that hold an accepted header, and returns that header. */
  lemma {:induction false} DecodeMftHeaderIff(v: seq<Byte>, h: MftHeader)
    requires Encodable(h) && h.baad.Some?
    ensures DecodeMftHeader(v) == Success(h) <==> MftFieldsAt(v, h) && Accepted(h)
  {
    if MftFieldsAt(v, h) && Accepted(h) {
      SplitJoin(h.baseRecordRef, h.baseRecordSeq);
      assert SignatureIs(v, FILE_SIGNATURE) <==> !h.baad.value;
    }
    if DecodeMftHeader(v) == Success(h) {
      LeUintAtBound(v, 32, 8);
      assert SignatureIs(v, FILE_SIGNATURE) <==> !h.baad.value;
    }
  }

  /** The first 24 bytes of the layout: signature up to the usage flags. */
  function EncodeMftHeaderHead(h: MftHeader): (b: seq<Byte>)
    requires Encodable(h) && h.baad.Some?
    ensures |b| == 24
  {
    SignatureOf(h.baad.value)
    + U16(h.fxOffset) + U16(h.fxCount) + U64(h.lsn)
    + U16(h.seqNumber) + U16(h.hardLinkCount) + U16(h.firstAttrOffset) + U16(h.usageFlags)
  }

  /** The encoder lays out the fields of the header. */
  lemma {:induction false} EncodeMftFieldsAt(h: MftHeader, rest: seq<Byte>)
    requires Encodable(h) && h.baad.Some?
    ensures MftFieldsAt(EncodeMftHeader(h) + rest, h)
  {
    var v := EncodeMftHeader(h) + rest;
    AtPrefix(EncodeMftHeader(h), rest);
    var p8 := EncodeMftHeaderHead(h) + U32(h.entryLen);
    var p9 := p8 + U32(h.entryAllocLen);
    var ref := JoinFileReference(h.baseRecordRef, h.baseRecordSeq);
    var p10 := p9 + U64(ref);
    var p11 := p10 + U16(h.nextAttrId);
    var p12 := p11 + U16(0);
    FieldAt(v, 0, p12, h.mftRecord, 4);
    FieldAt(v, 0, p11, 0, 2);
    FieldAt(v, 0, p10, h.nextAttrId, 2);
    FieldAt(v, 0, p9, ref, 8);
    FieldAt(v, 0, p8, h.entryAllocLen, 4);
    FieldAt(v, 0, EncodeMftHeaderHead(h), h.entryLen, 4);
    MftHeadFieldsAt(v, h);
  }

  /** The head of the layout holds the signature and the fields up to the usage flags. */
  lemma {:induction false} MftHeadFieldsAt(v: seq<Byte>, h: MftHeader)
    requires Encodable(h) && h.baad.Some? && At(v, 0, EncodeMftHeaderHead(h))
    ensures |v| >= 24 && SignatureIs(v, SignatureOf(h.baad.value))
    ensures LeUintAt(v, 4, 2) == h.fxOffset && LeUintAt(v, 6, 2) == h.fxCount && LeUintAt(v, 8, 8) == h.lsn
    ensures LeUintAt(v, 16, 2) == h.seqNumber && LeUintAt(v, 18, 2) == h.hardLinkCount
    ensures LeUintAt(v, 20, 2) == h.firstAttrOffset && LeUintAt(v, 22, 2) == h.usageFlags
  {
    var sig := SignatureOf(h.baad.value);
    var p1 := sig + U16(h.fxOffset);
    var p2 := p1 + U16(h.fxCount);
    var p3 := p2 + U64(h.lsn);
    var p4 := p3 + U16(h.seqNumber);
    var p5 := p4 + U16(h.hardLinkCount);
    var p6 := p5 + U16(h.firstAttrOffset);
    FieldAt(v, 0, p6, h.usageFlags, 2);
    FieldAt(v, 0, p5, h.firstAttrOffset, 2);
    FieldAt(v, 0, p4, h.hardLinkCount, 2);
    FieldAt(v, 0, p3, h.seqNumber, 2);
    FieldAt(v, 0, p2, h.lsn, 8);
    FieldAt(v, 0, p1, h.fxCount, 2);
    FieldAt(v, 0, sig, h.fxOffset, 2);
    SignatureAt(v, sig);
    AtBound(v, 0, EncodeMftHeaderHead(h));
  }

  /** The decoder reads back every accepted header the encoder lays out, whatever follows it. */
  lemma {:induction false} MftHeaderRoundTrip(h: MftHeader, rest: seq<Byte>)
    requires Encodable(h) && h.baad.Some? && Accepted(h)
    ensures DecodeMftHeader(EncodeMftHeader(h) + rest) == Success(h)
  {
    EncodeMftFieldsAt(h, rest);
    DecodeMftHeaderIff(EncodeMftHeader(h) + rest, h);
  }

  /** `is_related` of libmft/util/functions.py: the child's base record is the parent entry. */
  predicate IsRelated(parent: MftHeader, child: MftHeader)
  {
    parent.mftRecord == child.baseRecordRef && parent.seqNumber == child.baseRecordSeq
  }

  /**
   * For a child header read from `v`, being related to `parent` is the same as its raw
   * 64-bit base record reference being the parent's file reference.
   */
  lemma {:induction false} IsRelatedReference(parent: MftHeader, v: seq<Byte>, child: MftHeader)
    requires parent.mftRecord < TWO48 && parent.seqNumber < TWO16
    requires Encodable(child) && child.baad.Some? && MftFieldsAt(v, child)
    ensures IsRelated(parent, child) <==> LeUintAt(v, 32, 8) == JoinFileReference(parent.mftRecord, parent.seqNumber)
  {
    SplitJoin(parent.mftRecord, parent.seqNumber);
    SplitJoin(child.baseRecordRef, child.baseRecordSeq);
  }

  // ---------------------------------------------------------------------------
  // Attribute header
  // ---------------------------------------------------------------------------

  const STANDARD_INFORMATION: nat := 0x10
  const FILE_NAME: nat := 0x30
  const INDEX_ROOT: nat := 0x90

  /** The attribute types that must always be resident. */
  const ALWAYS_RESIDENT: set<nat> := {STANDARD_INFORMATION, FILE_NAME, INDEX_ROOT}

  /** Size of the attribute header layout "<2I2B3H". */
  const ATTR_HEADER_SIZE: nat := 16
  /** End of the resident header "<IHBx" that follows it. */
  const RESIDENT_END: nat := 24
  /** End of the non-resident header "<2Q2H4x3Q" that follows it. */
  const NON_RESIDENT_END: nat := 64

  datatype ResidentHeader = ResidentHeader(contentLen: nat, contentOffset: nat, indexedFlag: nat)

  /** `NonResidentAttrHeader`: the run-list offset is relative to the start of the attribute. */
  datatype NonResidentHeader = NonResidentHeader(
    startVcn: nat,
    endVcn: nat,
    rlOffset: nat,
    compressUsize: nat,
    allocSstream: nat,
    currSstream: nat,
    initSstream: nat,
    dataRuns: seq<DataRun>)

  /** Exactly one of the resident and the non-resident header. */
  datatype AttrForm = Resident(resident: ResidentHeader) | NonResident(nonResident: NonResidentHeader)

  /** `AttributeHeader`; the name is kept as its UTF-16LE bytes. */
  datatype AttributeHeader = AttributeHeader(
    attrTypeId: nat,
    attrLen: nat,
    nonResident: bool,
    nameLen: nat,
    nameOffset: nat,
    flags: nat,
    attrId: nat,
    attrName: Option<seq<Byte>>,
    form: AttrForm)

  /** What every decoded attribute header satisfies. */
  predicate WellFormed(h: AttributeHeader)
  {
    && (h.attrName.Some? <==> h.nameLen > 0)
    && (h.form.NonResident? <==> h.nonResident)
    && !(h.attrTypeId in ALWAYS_RESIDENT && h.nonResident)
  }

  /** `AttributeHeader.__init__` of libmft/headers.py. */
  function DecodeAttributeHeader(v: seq<Byte>): (r: Result<AttributeHeader, HeaderError>)
    ensures r.Success? ==> WellFormed(r.value)
  {
    if |v| < ATTR_HEADER_SIZE then Failure(Truncated)
    else
      var attrType, nonResident, nameLen: nat, nameOffset := LeUintAt(v, 0, 4), v[8] != 0, v[9], LeUintAt(v, 10, 2);
      var name := if nameLen > 0 then Some(Clamp(v, nameOffset, nameOffset + 2 * nameLen)) else None;
      if attrType in ALWAYS_RESIDENT && nonResident then Failure(AlwaysResident)
      else
        var form :- if nonResident then DecodeNonResident(v) else DecodeResident(v);
        Success(AttributeHeader(attrType, LeUintAt(v, 4, 4), nonResident, nameLen, nameOffset,
                                LeUintAt(v, 12, 2), LeUintAt(v, 14, 2), name, form))
  }

  /** The resident header right after the attribute header. */
  function DecodeResident(v: seq<Byte>): (r: Result<AttrForm, HeaderError>)
    ensures r.Success? ==> r.value.Resident?
  {
    if |v| < RESIDENT_END then Failure(Truncated)
    else Success(Resident(ResidentHeader(LeUintAt(v, 16, 4), LeUintAt(v, 20, 2), v[22])))
  }

  /** `NonResidentAttrHeader.__init__`: the header, then the data runs from `rl_offset` on. */
  function DecodeNonResident(v: seq<Byte>): (r: Result<AttrForm, HeaderError>)
    ensures r.Success? ==> r.value.NonResident?
  {
    if |v| < NON_RESIDENT_END then Failure(Truncated)
    else
      var rlOffset := LeUintAt(v, 32, 2);
      var runs := DecodeRunsFrom(v[Min(rlOffset, |v|)..], 0, 0);
      if runs.Failure? then Failure(RunsMissingTerminator)
      else Success(NonResident(NonResidentHeader(
        LeUintAt(v, 16, 8), LeUintAt(v, 24, 8), rlOffset, LeUintAt(v, 34, 2),
        LeUintAt(v, 40, 8), LeUintAt(v, 48, 8), LeUintAt(v, 56, 8), runs.value)))
  }

  /** An always-resident type marked non-resident is refused, whatever else the view holds. */
  lemma {:induction false} AlwaysResidentRejected(v: seq<Byte>)
    requires |v| >= ATTR_HEADER_SIZE && LeUintAt(v, 0, 4) in ALWAYS_RESIDENT && v[8] != 0
    ensures DecodeAttributeHeader(v) == Failure(AlwaysResident)
  {
  }

  /**
   * The views the attribute header decoder accepts: a whole header, not an always-resident
   * type marked non-resident, and the resident header or the non-resident header with its
   * terminated runs after it.
   */
  predicate AttrHeaderAccepted(v: seq<Byte>)
  {
    && |v| >= ATTR_HEADER_SIZE
    && !(LeUintAt(v, 0, 4) in ALWAYS_RESIDENT && v[8] != 0)
    && if v[8] != 0 then |v| >= NON_RESIDENT_END && DecodeRunsFrom(v[Min(LeUintAt(v, 32, 2), |v|)..], 0, 0).Success?
       else |v| >= RESIDENT_END
  }

  /**
   * The decoder succeeds exactly on the accepted views, reading each field at its offset
   * and the name as the clamped slice at the name offset; otherwise it fails with the error
   * of the first check that refuses the view.
   */
  lemma {:induction false} DecodeAttributeHeaderIff(v: seq<Byte>)
    ensures DecodeAttributeHeader(v).Success? <==> AttrHeaderAccepted(v)
    ensures DecodeAttributeHeader(v).Success? ==>
      var h := DecodeAttributeHeader(v).value;
      && h.attrTypeId == LeUintAt(v, 0, 4) && h.attrLen == LeUintAt(v, 4, 4) && h.nonResident == (v[8] != 0)
      && h.nameLen == v[9] && h.nameOffset == LeUintAt(v, 10, 2) && h.flags == LeUintAt(v, 12, 2) && h.attrId == LeUintAt(v, 14, 2)
      && h.attrName == (if v[9] > 0 then Some(Clamp(v, h.nameOffset, h.nameOffset + 2 * h.nameLen)) else None)
      && (h.form.Resident? ==> h.form == Resident(ResidentHeader(LeUintAt(v, 16, 4), LeUintAt(v, 20, 2), v[22])))
    ensures DecodeAttributeHeader(v).Failure? ==>
      DecodeAttributeHeader(v).error ==
      (if |v| >= ATTR_HEADER_SIZE && LeUintAt(v, 0, 4) in ALWAYS_RESIDENT && v[8] != 0 then AlwaysResident
       else if |v| >= NON_RESIDENT_END && v[8] != 0 then RunsMissingTerminator
       else Truncated)
  {
  }

  /** The view holds the fields of the attribute header `h`, its name and its form. */
  predicate AttrFieldsAt(v: seq<Byte>, h: AttributeHeader)
  {
    && |v| >= ATTR_HEADER_SIZE
    && LeUintAt(v, 0, 4) == h.attrTypeId && LeUintAt(v, 4, 4) == h.attrLen
    && (v[8] != 0) == h.nonResident && v[9] == h.nameLen && LeUintAt(v, 10, 2) == h.nameOffset
    && LeUintAt(v, 12, 2) == h.flags && LeUintAt(v, 14, 2) == h.attrId
    && (h.attrName.Some? ==> |h.attrName.value| == 2 * h.nameLen && At(v, h.nameOffset, h.attrName.value))
    && FormAt(v, h.form)
  }

  /** The view holds the resident header, or the non-resident header and its runs at `rl_offset`. */
  predicate FormAt(v: seq<Byte>, form: AttrForm)
  {
    match form
    case Resident(rh) =>
      && |v| >= RESIDENT_END
      && LeUintAt(v, 16, 4) == rh.contentLen && LeUintAt(v, 20, 2) == rh.contentOffset && v[22] == rh.indexedFlag
    case NonResident(nh) =>
      && |v| >= NON_RESIDENT_END
      && LeUintAt(v, 16, 8) == nh.startVcn && LeUintAt(v, 24, 8) == nh.endVcn
      && LeUintAt(v, 32, 2) == nh.rlOffset && LeUintAt(v, 34, 2) == nh.compressUsize
      && LeUintAt(v, 40, 8) == nh.allocSstream && LeUintAt(v, 48, 8) == nh.currSstream
      && LeUintAt(v, 56, 8) == nh.initSstream
      && AllFit(nh.dataRuns, 0) && At(v, nh.rlOffset, EncodeRuns(nh.dataRuns, 0))
  }

  /** The view from `k` on holds what the view holds from `k` on. */
  lemma {:induction false} AtDrop(v: seq<Byte>, k: nat, at: nat, e: seq<Byte>)
    requires k <= at && At(v, at, e)
    ensures At(v[k..], at - k, e)
    decreases |e|
  {
    if |e| > 0 {
      AtDrop(v, k, at + 1, e[1..]);
      assert v[k..][at - k] == v[at];
    } else {
      assert |v[k..]| == |v| - k;
    }
  }

  /** The clamped slice over a name the view holds is that name. */
  lemma {:induction false} AtClamp(v: seq<Byte>, at: nat, a: seq<Byte>)
    requires At(v, at, a)
    ensures Clamp(v, at, at + |a|) == a
  {
    AtBound(v, at, a);
    if |a| > 0 {
      forall k | 0 <= k < |a|
        ensures v[at..at + |a|][k] == a[k]
      {
        AtIndex(v, at, a, k);
      }
      assert v[at..at + |a|] == a;
    }
  }

  /** The form the view holds decodes to that form. */
  lemma {:induction false} DecodeFormAt(v: seq<Byte>, form: AttrForm)
    requires FormAt(v, form)
    ensures form.Resident? ==> DecodeResident(v) == Success(form)
    ensures form.NonResident? ==> DecodeNonResident(v) == Success(form)
  {
    if form.NonResident? {
      var nh := form.nonResident;
      AtBound(v, nh.rlOffset, EncodeRuns(nh.dataRuns, 0));
      AtDrop(v, nh.rlOffset, nh.rlOffset, EncodeRuns(nh.dataRuns, 0));
      DecodeEncodeRuns(v[nh.rlOffset..], 0, nh.dataRuns, 0);
    }
  }

  /** The decoder reads back every well-formed attribute header the view lays out. */
  lemma {:induction false} DecodeAttributeHeaderLaidOut(v: seq<Byte>, h: AttributeHeader)
    requires WellFormed(h) && AttrFieldsAt(v, h)
    ensures DecodeAttributeHeader(v) == Success(h)
  {
    DecodeFormAt(v, h.form);
    if h.attrName.Some? {
      AtClamp(v, h.nameOffset, h.attrName.value);
    }
  }
}
