/**
 * The fixed-layout attribute contents of libmft/attrcontent.py: the four timestamps,
 * STANDARD_INFORMATION, FILE_NAME, OBJECT_ID, REPARSE_POINT, VOLUME_INFORMATION and
 * EA_INFORMATION.
 *
 * Every field is read in place with `Bytes.LeUintAt`, as `struct.unpack` reads it.
 * Each record with a fixed layout has a layout predicate (`...FieldsAt`), a lemma
 * saying that the decoder accepts a view exactly when it holds such a record of an
 * accepted size, and an encoder with the round trip.
 */
module AttrContent {
  import opened Wrappers
  import opened Bytes
  import opened Functions

  /** The ways an attribute content is refused. */
  datatype ContentError =
    | InvalidSize    // ContentError("Invalid binary stream size")
    | Truncated      // `struct.unpack` on a view shorter than its layout
    | SizeMismatch   // `struct.unpack` of a whole view whose length is not the layout's
    | BadUuid        // `UUID(bytes_le=...)` on a piece that is not 16 bytes long
    | NoProgress     // a record of length zero: the source loops forever
    | WrongArity     // ValueError: a tuple assignment from a view of the wrong length

  const U32_LIMIT: nat := 0x1_0000_0000
  const U64_LIMIT: nat := 0x1_0000_0000_0000_0000

  // ---------------------------------------------------------------------------
  // Timestamps
  // ---------------------------------------------------------------------------

  /** Size of the layout "<4Q". */
  const TIMESTAMPS_SIZE: nat := 32

  /** Created, changed, MFT changed and accessed, as raw FILETIME values. */
  datatype Timestamps = Timestamps(created: nat, changed: nat, mftChanged: nat, accessed: nat)

  predicate TimestampsEncodable(t: Timestamps)
  {
    t.created < U64_LIMIT && t.changed < U64_LIMIT && t.mftChanged < U64_LIMIT && t.accessed < U64_LIMIT
  }

  /** The four little-endian u64 values from `at` on. */
  function ReadTimestamps(v: seq<Byte>, at: nat): (t: Timestamps)
    ensures TimestampsEncodable(t)
  {
    LeUintAtBound(v, at, 8);
    LeUintAtBound(v, at + 8, 8);
    LeUintAtBound(v, at + 16, 8);
    LeUintAtBound(v, at + 24, 8);
    Timestamps(LeUintAt(v, at, 8), LeUintAt(v, at + 8, 8), LeUintAt(v, at + 16, 8), LeUintAt(v, at + 24, 8))
  }

  /** `Timestamps.create_from_binary`: only a view of exactly 32 bytes is accepted. */
  function DecodeTimestamps(v: seq<Byte>): (r: Result<Timestamps, ContentError>)
    ensures r.Success? <==> |v| == TIMESTAMPS_SIZE
  {
    if |v| != TIMESTAMPS_SIZE then Failure(InvalidSize) else Success(ReadTimestamps(v, 0))
  }

  function EncodeTimestamps(t: Timestamps): (b: seq<Byte>)
    requires TimestampsEncodable(t)
    ensures |b| == TIMESTAMPS_SIZE
  {
    U64(t.created) + U64(t.changed) + U64(t.mftChanged) + U64(t.accessed)
  }

  /** The first field of a layout: what `FieldAt` gives for every later one. */
  lemma {:induction false} FirstFieldAt(v: seq<Byte>, at: nat, x: nat, w: nat)
    requires x < Pow256(w) && At(v, at, EncodeUint(x, w))
    ensures LeUintAt(v, at, w) == x
  {
    LeUintAtEncoded(v, at, EncodeUint(x, w));
    LeUintEncodeUint(x, w);
  }

  /** A view holding encoded timestamps at `at` reads them back there. */
  lemma {:induction false} TimestampsAt(v: seq<Byte>, at: nat, t: Timestamps)
    requires TimestampsEncodable(t) && At(v, at, EncodeTimestamps(t))
    ensures ReadTimestamps(v, at) == t
  {
    var p1 := U64(t.created);
    var p2 := p1 + U64(t.changed);
    var p3 := p2 + U64(t.mftChanged);
    FieldAt(v, at, p3, t.accessed, 8);
    FieldAt(v, at, p2, t.mftChanged, 8);
    FieldAt(v, at, p1, t.changed, 8);
    FirstFieldAt(v, at, t.created, 8);
  }

  lemma {:induction false} TimestampsRoundTrip(t: Timestamps)
    requires TimestampsEncodable(t)
    ensures DecodeTimestamps(EncodeTimestamps(t)) == Success(t)
  {
    var b := EncodeTimestamps(t);
    AtPrefix(b, []);
    assert b + [] == b;
    TimestampsAt(b, 0, t);
  }

  // ---------------------------------------------------------------------------
  // STANDARD_INFORMATION
  // ---------------------------------------------------------------------------

  /** Timestamps plus the layout "<4I2I2Q": the NTFS 3 content. */
  const STD_INFO_SIZE: nat := 72
  /** Timestamps plus the layout "<4I": the content without the NTFS 3 extension. */
  const STD_INFO_BASIC_SIZE: nat := 48

  /** Owner id, security id, quota charged and update sequence number (NTFS 3 and later). */
  datatype Ntfs3Extension = Ntfs3Extension(ownerId: nat, securityId: nat, quotaCharged: nat, usn: nat)

  datatype StandardInformation = StandardInformation(
    timestamps: Timestamps,
    flags: nat,
    maxNVersions: nat,
    versionNumber: nat,
    classId: nat,
    extension: Option<Ntfs3Extension>)

  /**
   * `StandardInformation.create_from_binary`: the timestamps from the first 32 bytes,
   * then the rest unpacked whole as the NTFS 3 layout when the content is 72 bytes
   * long and as the short layout otherwise.
   */
  function DecodeStandardInformation(v: seq<Byte>): (r: Result<StandardInformation, ContentError>)
    ensures r.Success? <==> |v| == STD_INFO_SIZE || |v| == STD_INFO_BASIC_SIZE
    ensures r.Success? ==> (r.value.extension.Some? <==> |v| == STD_INFO_SIZE)
  {
    if |v| < TIMESTAMPS_SIZE then Failure(InvalidSize)
    else if |v| != STD_INFO_SIZE && |v| != STD_INFO_BASIC_SIZE then Failure(SizeMismatch)
    else
      var extension :=
        if |v| == STD_INFO_SIZE
        then Some(Ntfs3Extension(LeUintAt(v, 48, 4), LeUintAt(v, 52, 4), LeUintAt(v, 56, 8), LeUintAt(v, 64, 8)))
        else None;
      Success(StandardInformation(ReadTimestamps(v, 0),
        LeUintAt(v, 32, 4), LeUintAt(v, 36, 4), LeUintAt(v, 40, 4), LeUintAt(v, 44, 4), extension))
  }

  /** The size a content with (or without) the NTFS 3 fields has. */
  function StdInfoSize(s: StandardInformation): nat
  {
    if s.extension.Some? then STD_INFO_SIZE else STD_INFO_BASIC_SIZE
  }

  predicate StdInfoEncodable(s: StandardInformation)
  {
    && TimestampsEncodable(s.timestamps)
    && s.flags < U32_LIMIT && s.maxNVersions < U32_LIMIT && s.versionNumber < U32_LIMIT && s.classId < U32_LIMIT
    && (s.extension.Some? ==>
          var e := s.extension.value;
          e.ownerId < U32_LIMIT && e.securityId < U32_LIMIT && e.quotaCharged < U64_LIMIT && e.usn < U64_LIMIT)
  }

  /** The view holds the fields of `s` at the offsets of the layout. */
  predicate StdInfoFieldsAt(v: seq<Byte>, s: StandardInformation)
  {
    && ReadTimestamps(v, 0) == s.timestamps
    && LeUintAt(v, 32, 4) == s.flags && LeUintAt(v, 36, 4) == s.maxNVersions
    && LeUintAt(v, 40, 4) == s.versionNumber && LeUintAt(v, 44, 4) == s.classId
    && (s.extension.Some? ==>
          var e := s.extension.value;
          && LeUintAt(v, 48, 4) == e.ownerId && LeUintAt(v, 52, 4) == e.securityId
          && LeUintAt(v, 56, 8) == e.quotaCharged && LeUintAt(v, 64, 8) == e.usn)
  }

  /** The decoder accepts exactly the views of the record's size that hold the record. */
  lemma {:induction false} DecodeStandardInformationIff(v: seq<Byte>, s: StandardInformation)
    ensures DecodeStandardInformation(v) == Success(s) <==> |v| == StdInfoSize(s) && StdInfoFieldsAt(v, s)
  {
  }

  function EncodeStdInfoHead(s: StandardInformation): (b: seq<Byte>)
    requires StdInfoEncodable(s)
    ensures |b| == STD_INFO_BASIC_SIZE
  {
    EncodeTimestamps(s.timestamps) + U32(s.flags) + U32(s.maxNVersions) + U32(s.versionNumber) + U32(s.classId)
  }

  function EncodeStandardInformation(s: StandardInformation): (b: seq<Byte>)
    requires StdInfoEncodable(s)
    ensures |b| == StdInfoSize(s)
  {
    if s.extension.None? then EncodeStdInfoHead(s)
    else
      var e := s.extension.value;
      EncodeStdInfoHead(s) + U32(e.ownerId) + U32(e.securityId) + U64(e.quotaCharged) + U64(e.usn)
  }

  /** The head of the layout holds the timestamps and the four u32 fields. */
  lemma {:induction false} StdInfoHeadAt(v: seq<Byte>, s: StandardInformation)
    requires StdInfoEncodable(s) && At(v, 0, EncodeStdInfoHead(s))
    ensures ReadTimestamps(v, 0) == s.timestamps
    ensures LeUintAt(v, 32, 4) == s.flags && LeUintAt(v, 36, 4) == s.maxNVersions
    ensures LeUintAt(v, 40, 4) == s.versionNumber && LeUintAt(v, 44, 4) == s.classId
  {
    var p1 := EncodeTimestamps(s.timestamps);
    var p2 := p1 + U32(s.flags);
    var p3 := p2 + U32(s.maxNVersions);
    var p4 := p3 + U32(s.versionNumber);
    assert |p1| == 32 && |p2| == 36 && |p3| == 40 && |p4| == 44;
    assert p4 + U32(s.classId) == EncodeStdInfoHead(s);
    FieldAt(v, 0, p4, s.classId, 4);
    FieldAt(v, 0, p3, s.versionNumber, 4);
    FieldAt(v, 0, p2, s.maxNVersions, 4);
    FieldAt(v, 0, p1, s.flags, 4);
    TimestampsAt(v, 0, s.timestamps);
  }

  lemma {:induction false} EncodeStdInfoFieldsAt(s: StandardInformation)
    requires StdInfoEncodable(s)
    ensures StdInfoFieldsAt(EncodeStandardInformation(s), s)
  {
    var v := EncodeStandardInformation(s);
    AtPrefix(v, []);
    assert v + [] == v;
    if s.extension.Some? {
      StdInfoExtensionAt(v, s);
    }
    StdInfoHeadAt(v, s);
  }

  /** The extension of the layout holds the owner, the security id, the quota and the USN. */
  lemma {:induction false} StdInfoExtensionAt(v: seq<Byte>, s: StandardInformation)
    requires StdInfoEncodable(s) && s.extension.Some? && At(v, 0, EncodeStandardInformation(s))
    ensures At(v, 0, EncodeStdInfoHead(s))
    ensures var e := s.extension.value;
      && LeUintAt(v, 48, 4) == e.ownerId && LeUintAt(v, 52, 4) == e.securityId
      && LeUintAt(v, 56, 8) == e.quotaCharged && LeUintAt(v, 64, 8) == e.usn
  {
    var e := s.extension.value;
    var p1 := EncodeStdInfoHead(s) + U32(e.ownerId);
    var p2 := p1 + U32(e.securityId);
    var p3 := p2 + U64(e.quotaCharged);
    FieldAt(v, 0, p3, e.usn, 8);
    FieldAt(v, 0, p2, e.quotaCharged, 8);
    FieldAt(v, 0, p1, e.securityId, 4);
    FieldAt(v, 0, EncodeStdInfoHead(s), e.ownerId, 4);
  }

  lemma {:induction false} StandardInformationRoundTrip(s: StandardInformation)
    requires StdInfoEncodable(s)
    ensures DecodeStandardInformation(EncodeStandardInformation(s)) == Success(s)
  {
    EncodeStdInfoFieldsAt(s);
    DecodeStandardInformationIff(EncodeStandardInformation(s), s);
  }

  // ---------------------------------------------------------------------------
  // FILE_NAME
  // ---------------------------------------------------------------------------

  /** Size of the layout "<1Q32x2Q2I2B" that precedes the name. */
  const FILE_NAME_SIZE: nat := 66

  /**
   * `FileName`: the parent directory's reference split into record and sequence,
   * and the name as its UTF-16LE bytes (everything after the fixed part).
   */
  datatype FileName = FileName(
    parentRef: nat,
    parentSeq: nat,
    timestamps: Timestamps,
    allocFileSize: nat,
    realFileSize: nat,
    flags: nat,
    reparseValue: nat,
    nameType: nat,
    name: seq<Byte>)

  /** `FileName.create_from_binary`; the name-length byte at offset 64 is not kept. */
  function DecodeFileName(v: seq<Byte>): (r: Result<FileName, ContentError>)
    ensures r.Success? <==> |v| >= FILE_NAME_SIZE
    ensures r.Success? ==> r.value.parentRef < TWO48 && r.value.parentSeq < TWO16 && r.value.nameType < 256
  {
    if |v| < FILE_NAME_SIZE then Failure(Truncated)
    else
      var parent := SplitFileReference(LeUintAt(v, 0, 8));
      Success(FileName(parent.0, parent.1, ReadTimestamps(v, 8),
        LeUintAt(v, 40, 8), LeUintAt(v, 48, 8), LeUintAt(v, 56, 4), LeUintAt(v, 60, 4),
        v[65], v[FILE_NAME_SIZE..]))
  }

  predicate FileNameEncodable(f: FileName)
  {
    && f.parentRef < TWO48 && f.parentSeq < TWO16 && TimestampsEncodable(f.timestamps)
    && f.allocFileSize < U64_LIMIT && f.realFileSize < U64_LIMIT
    && f.flags < U32_LIMIT && f.reparseValue < U32_LIMIT && f.nameType < 256
  }

  /** The view holds the fixed fields of `f` and then its name. */
  predicate FileNameFieldsAt(v: seq<Byte>, f: FileName)
    requires f.parentRef < TWO48 && f.parentSeq < TWO16
  {
    && |v| >= FILE_NAME_SIZE
    && LeUintAt(v, 0, 8) == JoinFileReference(f.parentRef, f.parentSeq)
    && ReadTimestamps(v, 8) == f.timestamps
    && LeUintAt(v, 40, 8) == f.allocFileSize && LeUintAt(v, 48, 8) == f.realFileSize
    && LeUintAt(v, 56, 4) == f.flags && LeUintAt(v, 60, 4) == f.reparseValue
    && v[65] == f.nameType && v[FILE_NAME_SIZE..] == f.name
  }

  /** The decoder accepts exactly the views that hold a file name, and returns it. */
  lemma {:induction false} DecodeFileNameIff(v: seq<Byte>, f: FileName)
    requires f.parentRef < TWO48 && f.parentSeq < TWO16
    ensures DecodeFileName(v) == Success(f) <==> FileNameFieldsAt(v, f)
  {
    SplitJoin(f.parentRef, f.parentSeq);
    if DecodeFileName(v) == Success(f) {
      LeUintAtBound(v, 0, 8);
    }
  }

  /** The fixed part of the layout; the name-length byte counts UTF-16 code units. */
  function EncodeFileNameHead(f: FileName): (b: seq<Byte>)
    requires FileNameEncodable(f)
    ensures |b| == FILE_NAME_SIZE
  {
    U64(JoinFileReference(f.parentRef, f.parentSeq)) + EncodeTimestamps(f.timestamps)
    + U64(f.allocFileSize) + U64(f.realFileSize) + U32(f.flags) + U32(f.reparseValue)
    + [(|f.name| / 2) % 256, f.nameType]
  }

  function EncodeFileName(f: FileName): (b: seq<Byte>)
    requires FileNameEncodable(f)
  {
    EncodeFileNameHead(f) + f.name
  }

  /** The fixed part of the layout holds the fixed fields. */
  lemma {:induction false} FileNameHeadAt(v: seq<Byte>, f: FileName)
    requires FileNameEncodable(f) && At(v, 0, EncodeFileNameHead(f))
    ensures LeUintAt(v, 0, 8) == JoinFileReference(f.parentRef, f.parentSeq)
    ensures ReadTimestamps(v, 8) == f.timestamps
    ensures LeUintAt(v, 40, 8) == f.allocFileSize && LeUintAt(v, 48, 8) == f.realFileSize
    ensures LeUintAt(v, 56, 4) == f.flags && LeUintAt(v, 60, 4) == f.reparseValue
    ensures |v| >= FILE_NAME_SIZE && v[65] == f.nameType
  {
    var ref := JoinFileReference(f.parentRef, f.parentSeq);
    var p1 := U64(ref);
    var p2 := p1 + EncodeTimestamps(f.timestamps);
    var p3 := p2 + U64(f.allocFileSize);
    var p4 := p3 + U64(f.realFileSize);
    var p5 := p4 + U32(f.flags);
    var lengths := [(|f.name| / 2) % 256, f.nameType];
    AtSplit(v, 0, p5 + U32(f.reparseValue), lengths);
    AtIndex(v, 64, lengths, 1);
    FieldAt(v, 0, p5, f.reparseValue, 4);
    FieldAt(v, 0, p4, f.flags, 4);
    FieldAt(v, 0, p3, f.realFileSize, 8);
    FieldAt(v, 0, p2, f.allocFileSize, 8);
    AtSplit(v, 0, p1, EncodeTimestamps(f.timestamps));
    TimestampsAt(v, 8, f.timestamps);
    FirstFieldAt(v, 0, ref, 8);
  }

  lemma {:induction false} EncodeFileNameFieldsAt(f: FileName)
    requires FileNameEncodable(f)
    ensures FileNameFieldsAt(EncodeFileName(f), f)
  {
    var v := EncodeFileName(f);
    AtPrefix(EncodeFileNameHead(f), f.name);
    FileNameHeadAt(v, f);
    assert v[FILE_NAME_SIZE..] == f.name;
  }

  lemma {:induction false} FileNameRoundTrip(f: FileName)
    requires FileNameEncodable(f)
    ensures DecodeFileName(EncodeFileName(f)) == Success(f)
  {
    EncodeFileNameFieldsAt(f);
    DecodeFileNameIff(EncodeFileName(f), f);
  }

  // ---------------------------------------------------------------------------
  // OBJECT_ID
  // ---------------------------------------------------------------------------

  const UUID_SIZE: nat := 16
  const OBJECT_ID_COUNT: nat := 4

  /** Object id, birth volume id, birth object id and birth domain id, each as its 16 bytes. */
  datatype ObjectId = ObjectId(ids: seq<Option<seq<Byte>>>)

  /** Id `i` of the content: absent past the end, else a whole 16-byte piece. */
  function UuidAt(v: seq<Byte>, i: nat): (r: Result<Option<seq<Byte>>, ContentError>)
    ensures r.Failure? <==> i * UUID_SIZE < |v| < (i + 1) * UUID_SIZE
    ensures r.Success? ==> (r.value.Some? <==> i * UUID_SIZE < |v|)
  {
    if i * UUID_SIZE < |v| then
      var piece := Clamp(v, i * UUID_SIZE, (i + 1) * UUID_SIZE);
      if |piece| == UUID_SIZE then Success(Some(piece)) else Failure(BadUuid)
    else Success(None)
  }

  /** `ObjectID.create_from_binary`: the four ids, each present only when it starts inside the content. */
  function DecodeObjectId(v: seq<Byte>): (r: Result<ObjectId, ContentError>)
    ensures r.Success? ==> |r.value.ids| == OBJECT_ID_COUNT
    ensures r.Success? ==> forall i :: 0 <= i < OBJECT_ID_COUNT ==> (r.value.ids[i].Some? <==> i * UUID_SIZE < |v|)
  {
    var a :- UuidAt(v, 0);
    var b :- UuidAt(v, 1);
    var c :- UuidAt(v, 2);
    var d :- UuidAt(v, 3);
    Success(ObjectId([a, b, c, d]))
  }

  /** The content is refused exactly when it ends inside one of the first four ids. */
  lemma {:induction false} ObjectIdAccepted(v: seq<Byte>)
    ensures DecodeObjectId(v).Success? <==> |v| >= OBJECT_ID_COUNT * UUID_SIZE || |v| % UUID_SIZE == 0
  {
  }

  /** A present id is the 16 bytes at its position. */
  lemma {:induction false} ObjectIdPieces(v: seq<Byte>, i: nat)
    requires DecodeObjectId(v).Success? && i < OBJECT_ID_COUNT && i * UUID_SIZE < |v|
    ensures DecodeObjectId(v).value.ids[i] == Some(v[i * UUID_SIZE..(i + 1) * UUID_SIZE])
  {
    var ids := DecodeObjectId(v).value.ids;
    assert ids[i] == UuidAt(v, i).value;
  }

  /**
   * `ObjectID.__len__` as written: the comprehension tests `content is not None`
   * instead of each id, so every one of the four ids counts.
   */
  function ObjectIdSizeAsWritten(o: ObjectId): nat
  {
    UUID_SIZE * |o.ids|
  }

  /** The number of ids present. */
  function PresentIds(ids: seq<Option<seq<Byte>>>, from: nat): (n: nat)
    decreases |ids| - from
  {
    if |ids| <= from then 0 else (if ids[from].Some? then 1 else 0) + PresentIds(ids, from + 1)
  }

  /** The size the content of `o` occupies: 16 bytes per present id. */
  function ObjectIdSize(o: ObjectId): nat
  {
    UUID_SIZE * PresentIds(o.ids, 0)
  }

  /** A content of one id: the written size counts four. */
  lemma {:induction false} ObjectIdSizeAsWrittenOverCounts()
    ensures var v: seq<Byte> := seq(UUID_SIZE, (i: int) => 0);
      && DecodeObjectId(v).Success?
      && ObjectIdSizeAsWritten(DecodeObjectId(v).value) == 64
      && ObjectIdSize(DecodeObjectId(v).value) == 16 == |v|
  {
    var v: seq<Byte> := seq(UUID_SIZE, (i: int) => 0);
    var ids := DecodeObjectId(v).value.ids;
    assert ids[0].Some? && ids[1].None? && ids[2].None? && ids[3].None?;
    assert PresentIds(ids, 4) == 0;
    assert PresentIds(ids, 1) == 0 by {
      assert PresentIds(ids, 3) == 0;
      assert PresentIds(ids, 2) == 0;
    }
  }

  /** For an accepted content of at most four ids, the size is the content's length. */
  lemma {:induction false} ObjectIdSizeIsLength(v: seq<Byte>)
    requires DecodeObjectId(v).Success? && |v| <= OBJECT_ID_COUNT * UUID_SIZE
    ensures ObjectIdSize(DecodeObjectId(v).value) == |v|
  {
    ObjectIdAccepted(v);
    var ids := DecodeObjectId(v).value.ids;
    var n := |v| / UUID_SIZE;
    assert |v| == n * UUID_SIZE;
    assert forall i :: 0 <= i < OBJECT_ID_COUNT ==> (ids[i].Some? <==> i < n);
    assert PresentIds(ids, 4) == 0;
    assert PresentIds(ids, 3) == (if 3 < n then 1 else 0);
    assert PresentIds(ids, 2) == (if 2 < n then 1 else 0) + (if 3 < n then 1 else 0);
    assert PresentIds(ids, 1) == (if 1 < n then 1 else 0) + (if 2 < n then 1 else 0) + (if 3 < n then 1 else 0);
    assert PresentIds(ids, 0) == n;
  }

  // ---------------------------------------------------------------------------
  // REPARSE_POINT
  // ---------------------------------------------------------------------------

  /** Size of the layout "<IH2x". */
  const REPARSE_HEADER_SIZE: nat := 8
  /** Size of the junction layout "<4H", which the names follow. */
  const JUNCTION_HEADER_SIZE: nat := 8
  const GUID_SIZE: nat := 16

  /** The "Microsoft tag" flag: bit 31 of the tag, the top bit of its four flag bits. */
  const MICROSOFT_FLAG: nat := 0x8
  /** The reparse types whose data is a junction or mount point. */
  const MOUNT_POINT: nat := 0x0003
  const SYMLINK: nat := 0x000C

  datatype ReparseData =
    | JunctionOrMount(targetName: seq<Byte>, printName: seq<Byte>)
    | RawData(bytes: seq<Byte>)

  datatype ReparsePoint = ReparsePoint(
    reparseFlags: nat,
    reparseType: nat,
    dataLen: nat,
    guid: Option<seq<Byte>>,
    data: ReparseData)

  /**
   * The flags of a 32-bit tag, `(tag & 0xF0000000) >> 28`: its top four bits, which for a
   * tag below 2^32 is the quotient by 2^28.
   */
  function TagFlags(tag: nat): nat
  {
    tag / 0x1000_0000
  }

  /** The type of a tag, `tag & 0x0000FFFF`: its low sixteen bits. */
  function TagType(tag: nat): nat
  {
    tag % 0x1_0000
  }

  /** `flags & 0x8`: with four flag bits, the top one is set exactly from 8 on. */
  predicate IsMicrosoft(flags: nat)
  {
    flags >= MICROSOFT_FLAG
  }

  /**
   * `JunctionOrMount.create_from_binary` over the view after the reparse header: the
   * "<4H" fields give the offset and length of the target name and of the print name,
   * and each offset counts from the size of the reparse header.
   */
  function DecodeJunctionOrMount(w: seq<Byte>): (r: Result<ReparseData, ContentError>)
    ensures r.Failure? <==> |w| < JUNCTION_HEADER_SIZE
    ensures r.Success? ==> r.value.JunctionOrMount?
    ensures r.Success? ==>
      var targetAt, printAt := REPARSE_HEADER_SIZE + LeUintAt(w, 0, 2), REPARSE_HEADER_SIZE + LeUintAt(w, 4, 2);
      && r.value.targetName == Clamp(w, targetAt, targetAt + LeUintAt(w, 2, 2))
      && r.value.printName == Clamp(w, printAt, printAt + LeUintAt(w, 6, 2))
  {
    if |w| < JUNCTION_HEADER_SIZE then Failure(Truncated)
    else
      var targetAt := REPARSE_HEADER_SIZE + LeUintAt(w, 0, 2);
      var printAt := REPARSE_HEADER_SIZE + LeUintAt(w, 4, 2);
      Success(JunctionOrMount(Clamp(w, targetAt, targetAt + LeUintAt(w, 2, 2)),
                              Clamp(w, printAt, printAt + LeUintAt(w, 6, 2))))
  }

  /**
   * A junction laid out with the target name right after the "<4H" fields and the print
   * name right after it.
   */
  function EncodeJunctionOrMount(targetName: seq<Byte>, printName: seq<Byte>): (b: seq<Byte>)
    requires |targetName| < 0x1_0000 && |printName| < 0x1_0000
    ensures |b| == JUNCTION_HEADER_SIZE + |targetName| + |printName|
  {
    U16(0) + U16(|targetName|) + U16(|targetName|) + U16(|printName|) + targetName + printName
  }

  /** The junction decoder reads back both names of an encoded junction. */
  lemma {:induction false} JunctionOrMountRoundTrip(targetName: seq<Byte>, printName: seq<Byte>)
    requires |targetName| < 0x1_0000 && |printName| < 0x1_0000
    ensures DecodeJunctionOrMount(EncodeJunctionOrMount(targetName, printName)) == Success(JunctionOrMount(targetName, printName))
  {
    var w := EncodeJunctionOrMount(targetName, printName);
    var p1 := U16(0);
    var p2 := p1 + U16(|targetName|);
    var p3 := p2 + U16(|targetName|);
    var head := p3 + U16(|printName|);
    AtPrefix(head, targetName + printName);
    assert w == head + (targetName + printName);
    FieldAt(w, 0, p3, |printName|, 2);
    FieldAt(w, 0, p2, |targetName|, 2);
    FieldAt(w, 0, p1, |targetName|, 2);
    FirstFieldAt(w, 0, 0, 2);
    var printAt := JUNCTION_HEADER_SIZE + |targetName|;
    assert Clamp(w, JUNCTION_HEADER_SIZE, printAt) == targetName by {
      assert w[JUNCTION_HEADER_SIZE..printAt] == targetName;
    }
    assert Clamp(w, printAt, printAt + |printName|) == printName by {
      assert w[printAt..] == printName;
    }
  }

  /**
   * `ReparsePoint.create_from_binary`: a Microsoft tag carries no GUID, and its data is
   * a junction for mount points and symbolic links; any other tag has a GUID of up to
   * 16 bytes followed by its data.
   */
  function DecodeReparsePoint(v: seq<Byte>): (r: Result<ReparsePoint, ContentError>)
    ensures r.Success? ==> r.value.reparseFlags < 16 && r.value.reparseType < 0x1_0000
    ensures r.Success? ==> (r.value.guid.Some? <==> !IsMicrosoft(r.value.reparseFlags))
    ensures r.Success? ==> |v| >= REPARSE_HEADER_SIZE
    ensures r.Success? && r.value.guid.Some? ==> r.value.data.RawData? && r.value.guid.value + r.value.data.bytes == v[REPARSE_HEADER_SIZE..]
    ensures r.Success? && r.value.guid.None? && r.value.data.RawData? ==> r.value.data.bytes == v[REPARSE_HEADER_SIZE..]
    ensures r.Success? ==> (r.value.data.JunctionOrMount? <==>
      IsMicrosoft(r.value.reparseFlags) && r.value.reparseType in {MOUNT_POINT, SYMLINK})
    ensures r.Success? && r.value.data.JunctionOrMount? ==>
      DecodeJunctionOrMount(v[REPARSE_HEADER_SIZE..]) == Success(r.value.data)
    ensures r.Failure? <==> (|v| < REPARSE_HEADER_SIZE
      || (IsMicrosoft(TagFlags(LeUintAt(v, 0, 4))) && TagType(LeUintAt(v, 0, 4)) in {MOUNT_POINT, SYMLINK} && |v| < REPARSE_HEADER_SIZE + JUNCTION_HEADER_SIZE))
  {
    if |v| < REPARSE_HEADER_SIZE then Failure(Truncated)
    else
      var tag := LeUintAt(v, 0, 4);
      LeUintAtBound(v, 0, 4);
      var flags, rtype := TagFlags(tag), TagType(tag);
      var dataLen := LeUintAt(v, 4, 2);
      if IsMicrosoft(flags) then
        if rtype == MOUNT_POINT || rtype == SYMLINK then
          var data :- DecodeJunctionOrMount(v[REPARSE_HEADER_SIZE..]);
          Success(ReparsePoint(flags, rtype, dataLen, None, data))
        else
          Success(ReparsePoint(flags, rtype, dataLen, None, RawData(v[REPARSE_HEADER_SIZE..])))
      else
        var guid := Clamp(v, REPARSE_HEADER_SIZE, REPARSE_HEADER_SIZE + GUID_SIZE);
        Success(ReparsePoint(flags, rtype, dataLen, Some(guid), RawData(v[REPARSE_HEADER_SIZE + |guid|..])))
  }

  /**
   * The tag is rebuilt from its flags, the twelve reserved bits between and its type,
   * so the two masks of the source lose only the reserved bits.
   */
  lemma {:induction false} TagSplit(tag: nat)
    requires tag < 0x1_0000_0000
    ensures TagFlags(tag) < 16
    ensures tag == TagFlags(tag) * 0x1000_0000 + (tag / 0x1_0000) % 0x1000 * 0x1_0000 + TagType(tag)
  {
    var q, r := tag / 0x1_0000, tag % 0x1_0000;
    var g, m := q / 0x1000, q % 0x1000;
    assert tag == g * 0x1000_0000 + (m * 0x1_0000 + r);
    assert 0 <= m * 0x1_0000 + r < 0x1000_0000;
    assert TagFlags(tag) == g;
  }

  // ---------------------------------------------------------------------------
  // VOLUME_INFORMATION
  // ---------------------------------------------------------------------------

  /** Size of the layout "<8x2BH": eight unknown bytes, the two versions and the flags. */
  const VOLUME_INFORMATION_SIZE: nat := 12

  datatype VolumeInformation = VolumeInformation(majorVer: nat, minorVer: nat, volFlags: nat)

  predicate VolumeInformationEncodable(i: VolumeInformation)
  {
    i.majorVer < 256 && i.minorVer < 256 && i.volFlags < 0x1_0000
  }

  /**
   * `VolumeInformation.create_from_binary`: the whole view is unpacked, so only a view
   * of exactly 12 bytes is accepted; the first eight bytes are skipped.
   */
  function DecodeVolumeInformation(v: seq<Byte>): (r: Result<VolumeInformation, ContentError>)
    ensures r.Success? <==> |v| == VOLUME_INFORMATION_SIZE
    ensures r.Success? ==> VolumeInformationEncodable(r.value)
  {
    if |v| != VOLUME_INFORMATION_SIZE then Failure(SizeMismatch)
    else
      LeUintAtBound(v, 10, 2);
      Success(VolumeInformation(v[8], v[9], LeUintAt(v, 10, 2)))
  }

  /** The layout with zeros in the unknown bytes. */
  function EncodeVolumeInformation(i: VolumeInformation): (b: seq<Byte>)
    requires VolumeInformationEncodable(i)
    ensures |b| == VOLUME_INFORMATION_SIZE
  {
    [0, 0, 0, 0, 0, 0, 0, 0, i.majorVer, i.minorVer] + U16(i.volFlags)
  }

  lemma {:induction false} VolumeInformationRoundTrip(i: VolumeInformation)
    requires VolumeInformationEncodable(i)
    ensures DecodeVolumeInformation(EncodeVolumeInformation(i)) == Success(i)
  {
    var b := EncodeVolumeInformation(i);
    var head: seq<Byte> := [0, 0, 0, 0, 0, 0, 0, 0, i.majorVer, i.minorVer];
    AtPrefix(b, []);
    assert b + [] == b;
    FieldAt(b, 0, head, i.volFlags, 2);
  }

  // ---------------------------------------------------------------------------
  // EA_INFORMATION
  // ---------------------------------------------------------------------------

  /** Size of the layout "<2HI". */
  const EA_INFORMATION_SIZE: nat := 8

  /** The size of an EA entry, the number of EAs with NEED_EA set, and the size of the EA data. */
  datatype EaInformation = EaInformation(entryLen: nat, eaSetNumber: nat, eaSize: nat)

  predicate EaInformationEncodable(e: EaInformation)
  {
    e.entryLen < 0x1_0000 && e.eaSetNumber < 0x1_0000 && e.eaSize < U32_LIMIT
  }

  /**
   * `EaInformation.create_from_binary`: "<2HI" unpacked from the first eight bytes, so a
   * shorter view is refused and anything after them is ignored.
   */
  function DecodeEaInformation(v: seq<Byte>): (r: Result<EaInformation, ContentError>)
    ensures r.Success? <==> |v| >= EA_INFORMATION_SIZE
    ensures r.Success? ==> EaInformationEncodable(r.value)
  {
    if |v| < EA_INFORMATION_SIZE then Failure(Truncated)
    else
      LeUintAtBound(v, 0, 2);
      LeUintAtBound(v, 2, 2);
      LeUintAtBound(v, 4, 4);
      Success(EaInformation(LeUintAt(v, 0, 2), LeUintAt(v, 2, 2), LeUintAt(v, 4, 4)))
  }

  /**
   * `EaInformation(content)`, the constructor, handed the content view itself: the
   * assignment of its items to the three fields raises unless the view has exactly three
   * bytes, which then become the three fields.
   */
  function EaInformationInit(content: seq<Byte>): (r: Result<EaInformation, ContentError>)
    ensures r.Success? <==> |content| == 3
    ensures r.Success? ==> r.value.entryLen < 256 && r.value.eaSetNumber < 256 && r.value.eaSize < 256
  {
    if |content| != 3 then Failure(WrongArity) else Success(EaInformation(content[0], content[1], content[2]))
  }

  function EncodeEaInformation(e: EaInformation): (b: seq<Byte>)
    requires EaInformationEncodable(e)
    ensures |b| == EA_INFORMATION_SIZE
  {
    U16(e.entryLen) + U16(e.eaSetNumber) + U32(e.eaSize)
  }

  /** The decoder reads back an encoded record, whatever follows it. */
  lemma {:induction false} EaInformationRoundTrip(e: EaInformation, rest: seq<Byte>)
    requires EaInformationEncodable(e)
    ensures DecodeEaInformation(EncodeEaInformation(e) + rest) == Success(e)
  {
    var b := EncodeEaInformation(e) + rest;
    var p1 := U16(e.entryLen);
    var p2 := p1 + U16(e.eaSetNumber);
    AtPrefix(EncodeEaInformation(e), rest);
    FieldAt(b, 0, p2, e.eaSize, 4);
    FieldAt(b, 0, p1, e.eaSetNumber, 2);
    FirstFieldAt(b, 0, e.entryLen, 2);
  }

  /** The eight-byte record NTFS stores is refused by the constructor and read by the decoder. */
  lemma {:induction false} EaInformationInitRefusesRecord(e: EaInformation)
    requires EaInformationEncodable(e)
    ensures EaInformationInit(EncodeEaInformation(e)).Failure?
    ensures DecodeEaInformation(EncodeEaInformation(e)) == Success(e)
  {
    EaInformationRoundTrip(e, []);
    assert EncodeEaInformation(e) + [] == EncodeEaInformation(e);
  }
}
