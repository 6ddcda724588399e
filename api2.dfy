/**
 * `MFTEntry` and the lookup of `MFT` in libmft/api2.py. An entry keeps its DATA
 * attributes out of `attrs`: each goes to the data stream of its name (module
 * Api2Stream), which chains the fragments by VCN. The MFT looks a child entry up
 * through its base entry instead of refusing it.
 */
module Api2 {
  import opened Wrappers
  import opened Bytes
  import opened Headers
  import opened ApiConfig
  import opened ApiAttribute
  import opened Api2Stream
  import Fixup
  import ApiEntry
  import ApiMft

  // ---------------------------------------------------------------------------
  // Configuration and attributes
  // ---------------------------------------------------------------------------

  /**
   * The keys of `mft_config` an entry reads: the three switches of `create_from_binary`,
   * and the attribute types whose `load_*` key is set, which lets their content decoder run.
   */
  datatype Config = Config(applyFixupArray: bool, loadAttributes: bool, loadSlack: bool, loadContent: set<nat>)

  /** The types `Attribute.create_from_binary` has a content decoder for. */
  const CONTENT_TYPES: set<nat> := {
    FILE_NAME, STANDARD_INFORMATION, INDEX_ROOT, ATTRIBUTE_LIST, DATA, OBJECT_ID, BITMAP,
    EA_INFORMATION, LOGGED_TOOL_STREAM, REPARSE_POINT, VOLUME_NAME, VOLUME_INFORMATION}

  /** `MFT.mft_config`: every switch and every `load_*` key set. */
  const DEFAULT_CONFIG: Config := Config(true, true, true, CONTENT_TYPES)

  /** What routing an attribute needs: a consistent header, and for DATA an attribute the stream accepts. */
  predicate Routable(a: Attribute)
  {
    && WellFormed(a.header)
    && (a.header.attrTypeId == DATA ==> DataAttribute(a))
  }

  /**
   * The content decoders of api2's `Attribute.create_from_binary`, as intended: they are
   * those of the api.py dispatcher, except that the EA information record is read with
   * `EaInformation.create_from_binary` and the volume information record with
   * `VolumeInformation.create_from_binary`.
   */
  function DecodeContent2(attrType: nat, w: seq<Byte>): (r: Result<Content, AttributeError>)
    ensures attrType != EA_INFORMATION && attrType != VOLUME_INFORMATION ==> r == Dispatch(attrType, w)
    ensures attrType == EA_INFORMATION ==>
      (r.Success? <==> |w| >= AttrContent.EA_INFORMATION_SIZE)
      && (r.Success? ==> r.value.EaInfoContent? && Success(r.value.eaInfo) == AttrContent.DecodeEaInformation(w))
    ensures attrType == VOLUME_INFORMATION ==>
      (r.Success? <==> |w| == AttrContent.VOLUME_INFORMATION_SIZE)
      && (r.Success? ==> r.value.VolumeInfoContent? && Success(r.value.volumeInfo) == AttrContent.DecodeVolumeInformation(w))
  {
    if attrType == EA_INFORMATION then
      var e :- ContentResult(AttrContent.DecodeEaInformation(w)); Success(EaInfoContent(e))
    else if attrType == VOLUME_INFORMATION then
      var i :- ContentResult(AttrContent.DecodeVolumeInformation(w)); Success(VolumeInfoContent(i))
    else Dispatch(attrType, w)
  }

  /**
   * The content decoders as written: EA_INFORMATION hands the content view to the
   * `EaInformation` constructor instead of `create_from_binary`.
   */
  function DecodeContent2AsWritten(attrType: nat, w: seq<Byte>): (r: Result<Content, AttributeError>)
  {
    if attrType == EA_INFORMATION then
      var e :- ContentResult(AttrContent.EaInformationInit(w)); Success(EaInfoContent(e))
    else DecodeContent2(attrType, w)
  }

  /**
   * As written, every EA information record of the eight bytes NTFS stores is refused,
   * and with it the entry that holds it, while the intended decoder reads it back.
   */
  lemma {:induction false} EaRecordRefusedAsWritten(e: AttrContent.EaInformation)
    requires AttrContent.EaInformationEncodable(e)
    ensures var w := AttrContent.EncodeEaInformation(e);
      && DecodeContent2AsWritten(EA_INFORMATION, w).Failure?
      && DecodeContent2(EA_INFORMATION, w) == Success(EaInfoContent(e))
  {
    AttrContent.EaInformationInitRefusesRecord(e);
  }

  /** The two differ only on EA_INFORMATION, and there the written one accepts just three bytes. */
  lemma {:induction false} DecodeContent2AsWrittenDiffers(attrType: nat, w: seq<Byte>)
    ensures attrType != EA_INFORMATION ==> DecodeContent2AsWritten(attrType, w) == DecodeContent2(attrType, w)
    ensures attrType == EA_INFORMATION ==> (DecodeContent2AsWritten(attrType, w).Success? <==> |w| == 3)
    ensures attrType == EA_INFORMATION && |w| >= AttrContent.EA_INFORMATION_SIZE ==>
      DecodeContent2AsWritten(attrType, w).Failure? && DecodeContent2(attrType, w).Success?
  {
  }

  /**
   * `Attribute.create_from_binary`: the header, then, for a resident attribute whose
   * type has a decoder and is loaded, the content decoded from `content_len` bytes at
   * `content_offset`. Any other attribute has no content.
   */
  function CreateAttribute2(load: set<nat>, v: seq<Byte>): (r: Result<Attribute, AttributeError>)
    ensures DecodeAttributeHeader(v).Failure? ==> r == Failure(HeaderFailed(DecodeAttributeHeader(v).error))
    ensures r.Success? ==> DecodeAttributeHeader(v) == Success(r.value.header) && Routable(r.value)
    ensures r.Success? && r.value.content.Some? ==>
              !r.value.header.nonResident && r.value.header.attrTypeId in load && r.value.header.attrTypeId in CONTENT_TYPES
  {
    var header :- HeaderResult(DecodeAttributeHeader(v));
    match header.form
    case NonResident(_) => Success(Attribute(header, None))
    case Resident(rh) =>
      if header.attrTypeId !in load || header.attrTypeId !in CONTENT_TYPES then Success(Attribute(header, None))
      else
        var content :- DecodeContent2(header.attrTypeId, Clamp(v, rh.contentOffset, rh.contentOffset + rh.contentLen));
        Success(Attribute(header, Some(content)))
  }

  /**
   * With its type loaded, an attribute decodes as it does in libmft/api.py, except for the
   * EA information and volume information records, which api2.py decodes; with its type
   * not loaded, a resident attribute keeps its header and has no content.
   */
  lemma {:induction false} CreateAttribute2Loaded(load: set<nat>, v: seq<Byte>)
    requires DecodeAttributeHeader(v).Success?
    ensures var h := DecodeAttributeHeader(v).value;
      h.nonResident || (h.attrTypeId in load * CONTENT_TYPES && h.attrTypeId !in {EA_INFORMATION, VOLUME_INFORMATION}) ==>
        CreateAttribute2(load, v) == CreateAttribute(v)
    ensures var h := DecodeAttributeHeader(v).value;
      !h.nonResident && h.attrTypeId !in load * CONTENT_TYPES ==> CreateAttribute2(load, v) == Success(Attribute(h, None))
    ensures var h := DecodeAttributeHeader(v).value;
      !h.nonResident && h.attrTypeId in load * {EA_INFORMATION, VOLUME_INFORMATION} ==>
        var rh := h.form.resident;
        var c := DecodeContent2(h.attrTypeId, Clamp(v, rh.contentOffset, rh.contentOffset + rh.contentLen));
        CreateAttribute2(load, v) == (if c.Success? then Success(Attribute(h, Some(c.value))) else Failure(c.error))
  {
    LeUintAtBound(v, 14, 2);
  }

  /** The attribute decoder an entry is read with. */
  function Decoder(load: set<nat>): seq<Byte> -> Result<Attribute, AttributeError>
  {
    v => CreateAttribute2(load, v)
  }

  /** A decoder the walk can rely on: it refuses the empty view, and what it gives can be routed. */
  ghost predicate DecoderOk(decode: seq<Byte> -> Result<Attribute, AttributeError>)
  {
    && decode([]).Failure?
    && forall v :: decode(v).Success? ==> Routable(decode(v).value)
  }

  lemma {:induction false} DecoderIsOk(load: set<nat>)
    ensures DecoderOk(Decoder(load))
  {
    assert DecodeAttributeHeader([]).Failure?;
    forall v | Decoder(load)(v).Success? ensures Routable(Decoder(load)(v).value) {
      assert Decoder(load)(v) == CreateAttribute2(load, v);
    }
  }

  // ---------------------------------------------------------------------------
  // The attributes and streams of an entry, as values
  // ---------------------------------------------------------------------------

  /** `attrs` (type to attributes, in arrival order) and the states of `data_streams`, in order. */
  datatype Loaded = Loaded(attrs: map<nat, seq<Attribute>>, streams: seq<Stream2>)

  const NOTHING_LOADED: Loaded := Loaded(map[], [])

  /** Every listed type has attributes, all of that type, and DATA is never listed. */
  predicate GroupsOk(attrs: map<nat, seq<Attribute>>)
  {
    && (forall t: nat :: t in attrs ==> attrs[t] != [] && t != DATA)
    && (forall t: nat, a: Attribute :: t in attrs && a in attrs[t] ==> a.header.attrTypeId == t)
  }

  /** Stream names are unique, and every stream is consistent. */
  predicate StreamsOk(ss: seq<Stream2>)
  {
    && (forall i, j :: 0 <= i < j < |ss| ==> ss[i].name != ss[j].name)
    && (forall i :: 0 <= i < |ss| ==> StreamOk(ss[i]))
  }

  predicate LoadedOk(l: Loaded)
  {
    GroupsOk(l.attrs) && StreamsOk(l.streams)
  }

  /** The position of the first stream called `name`. */
  function FindStream(ss: seq<Stream2>, name: Option<seq<Byte>>): (r: Option<nat>)
    ensures r.Some? ==> r.value < |ss| && ss[r.value].name == name
    ensures r.Some? ==> forall j :: 0 <= j < r.value ==> ss[j].name != name
    ensures r.None? ==> forall j :: 0 <= j < |ss| ==> ss[j].name != name
  {
    IndexOf(ss, (s: Stream2) => s.name, name)
  }

  /** With unique names, the stream called `name` is found at its own position. */
  lemma {:induction false} FindUnique(ss: seq<Stream2>, name: Option<seq<Byte>>, i: nat)
    requires StreamsOk(ss) && i < |ss| && ss[i].name == name
    ensures FindStream(ss, name) == Some(i)
  {
    assert FindStream(ss, name).Some?;
  }

  /** The stream called `name` before `a` arrives: the existing one, or a new one. */
  function StreamBefore(ss: seq<Stream2>, name: Option<seq<Byte>>): (r: Stream2)
    requires StreamsOk(ss)
    ensures StreamOk(r) && r.name == name
  {
    match FindStream(ss, name)
    case Some(i) => ss[i]
    case None => NewStreamOk(name); NewStream2(name)
  }

  /**
   * `_add_datastream`: the DATA attribute goes to the stream of its name. Without one, a
   * new stream takes it and joins the end of the list, unless taking it raised.
   */
  function AddToStreams(ss: seq<Stream2>, a: Attribute): (r: Partial<seq<Stream2>>)
    requires StreamsOk(ss) && DataAttribute(a)
  {
    var p := AddData2(StreamBefore(ss, a.header.attrName), a);
    match FindStream(ss, a.header.attrName)
    case Some(i) => Partial(ss[i := p.value], p.error)
    case None => if p.error.Some? then Partial(ss, p.error) else Partial(ss + [p.value], None)
  }

  /**
   * Adding a DATA attribute keeps the streams consistent, raises what the stream of its
   * name raises, and, unless a new stream refused it, leaves that stream as the stream
   * after `add_data_attribute`; the other streams keep their places and states, and the
   * list grows by at most one stream at the end.
   */
  lemma {:induction false} AddToStreamsOk(ss: seq<Stream2>, a: Attribute)
    requires StreamsOk(ss) && DataAttribute(a)
    ensures var r := AddToStreams(ss, a); var name := a.header.attrName;
      var p := AddData2(StreamBefore(ss, name), a);
      && StreamsOk(r.value)
      && r.error == p.error
      && (r.error.None? || FindStream(ss, name).Some? ==>
            FindStream(r.value, name).Some? && r.value[FindStream(r.value, name).value] == p.value)
      && (r.error.Some? && FindStream(ss, name).None? ==> r.value == ss)
      && |ss| <= |r.value| <= |ss| + 1
      && (forall j :: 0 <= j < |ss| && ss[j].name != name ==> r.value[j] == ss[j])
  {
    var name := a.header.attrName;
    var s := StreamBefore(ss, name);
    var p := AddData2(s, a);
    AddDataKeepsStream(s, a);
    var r := AddToStreams(ss, a).value;
    match FindStream(ss, name)
    case Some(i) =>
      assert r == ss[i := p.value];
      forall j, k | 0 <= j < k < |r| ensures r[j].name != r[k].name {
        assert r[j].name == ss[j].name && r[k].name == ss[k].name;
      }
      FindUnique(r, name, i);
    case None =>
      if p.error.None? {
        assert r == ss + [p.value];
        forall j, k | 0 <= j < k < |r| ensures r[j].name != r[k].name {
          if k == |ss| {
            assert r[j] == ss[j];
          } else {
            assert r[j] == ss[j] && r[k] == ss[k];
          }
        }
        FindUnique(r, name, |ss|);
      }
  }

  /** The case of `AddToStreams` where no stream has the attribute's name. */
  lemma {:induction false} AddToNewStream(ss: seq<Stream2>, a: Attribute)
    requires StreamsOk(ss) && DataAttribute(a) && FindStream(ss, a.header.attrName).None?
    ensures var p := AddData2(NewStream2(a.header.attrName), a);
      && AddToStreams(ss, a) == (if p.error.Some? then Partial(ss, p.error) else Partial(ss + [p.value], None))
      && (p.error.None? ==> StreamsOk(ss + [p.value]))
  {
    AddToStreamsOk(ss, a);
  }

  /** `_add_attribute`: DATA goes to the streams, every other attribute to the end of the list of its type. */
  function Route(l: Loaded, a: Attribute): (r: Partial<Loaded>)
    requires LoadedOk(l) && Routable(a)
  {
    if a.header.attrTypeId == DATA then
      var p := AddToStreams(l.streams, a);
      Partial(l.(streams := p.value), p.error)
    else Partial(l.(attrs := ApiEntry.AddToGroup(l.attrs, a)), None)
  }

  /**
   * Routing keeps the entry consistent; only DATA raises; a DATA attribute never enters
   * `attrs`, and any other attribute joins the end of its type's list and leaves the
   * streams alone.
   */
  lemma {:induction false} RouteOk(l: Loaded, a: Attribute)
    requires LoadedOk(l) && Routable(a)
    ensures LoadedOk(Route(l, a).value)
    ensures Route(l, a).error.Some? ==> a.header.attrTypeId == DATA
    ensures a.header.attrTypeId == DATA ==> Route(l, a).value.attrs == l.attrs
    ensures a.header.attrTypeId != DATA ==>
      && Route(l, a).value.streams == l.streams
      && ApiEntry.GroupOf(Route(l, a).value.attrs, a.header.attrTypeId) == ApiEntry.GroupOf(l.attrs, a.header.attrTypeId) + [a]
  {
    if a.header.attrTypeId == DATA {
      AddToStreamsOk(l.streams, a);
    } else {
      var t := a.header.attrTypeId;
      var r := ApiEntry.AddToGroup(l.attrs, a);
      forall u: nat | u in r ensures r[u] != [] && u != DATA {
        if u != t {
          assert ApiEntry.GroupOf(r, u) == ApiEntry.GroupOf(l.attrs, u);
        }
      }
      forall u: nat, b: Attribute | u in r && b in r[u] ensures b.header.attrTypeId == u {
        assert r[u] == ApiEntry.GroupOf(r, u);
        if u != t {
          assert ApiEntry.GroupOf(r, u) == l.attrs[u];
        } else if b != a {
          assert b in ApiEntry.GroupOf(l.attrs, u);
        }
      }
    }
  }

  // ---------------------------------------------------------------------------
  // Reading one entry
  // ---------------------------------------------------------------------------

  /** The ways reading an entry fails. */
  datatype EntryError =
    | HeaderRejected(headerError: HeaderError)
      /** MFTEntryException: the buffer is not `entry_alloc_len` bytes long. */
    | SizeMismatch(bufferLen: nat, allocLen: nat)
      /** FixUpError or the other failures of the repair. */
    | FixupFailed(outcome: Fixup.FixupOutcome)
    | AttributeRejected(attrError: AttributeError)
      /** What `add_data_attribute` raises. */
    | StreamRejected(streamError: StreamError2)
      /** An attribute of length 0: the walk would stay at `offset` forever. */
    | NoProgress(offset: nat)

  /**
   * One turn of `_load_attributes` at `offset`: decode the attribute there, add it, and
   * step over its length.
   */
  function StepAt(w: seq<Byte>, offset: nat, decode: seq<Byte> -> Result<Attribute, AttributeError>, l: Loaded)
    : (r: Result<(nat, Loaded), EntryError>)
    requires DecoderOk(decode) && LoadedOk(l)
    ensures r.Success? ==> offset < |w| && offset < r.value.0 && LoadedOk(r.value.1)
  {
    var v := Clamp(w, offset, |w|);
    var a := decode(v);
    if a.Failure? then Failure(AttributeRejected(a.error))
    else
      RouteOk(l, a.value);
      var p := Route(l, a.value);
      if p.error.Some? then Failure(StreamRejected(p.error.value))
      else if a.value.header.attrLen == 0 then Failure(NoProgress(offset))
      else Success((offset + a.value.header.attrLen, p.value))
  }

  /** `_load_attributes` from `offset` on, up to the end marker. */
  function Walk(w: seq<Byte>, offset: nat, decode: seq<Byte> -> Result<Attribute, AttributeError>, l: Loaded)
    : (r: Result<Loaded, EntryError>)
    requires DecoderOk(decode) && LoadedOk(l)
    ensures r.Success? ==> LoadedOk(r.value)
    decreases if offset <= |w| then |w| - offset else 0
  {
    if Clamp(w, offset, offset + 4) == ApiEntry.END_MARKER then Success(l)
    else
      var (next, l') :- StepAt(w, offset, decode, l);
      Walk(w, next, decode, l')
  }

  /** The four zero bytes that mark an empty entry. */
  const EMPTY_MARK: seq<Byte> := [0, 0, 0, 0]

  /** An entry read from its buffer: the header, what was loaded, and the bytes past the entry's logical size. */
  datatype Entry = Entry(header: MftHeader, loaded: Loaded, slack: Option<seq<Byte>>)

  /** The outcome of the repair the configuration asks for, and the bytes after it. */
  function Repair(cfg: Config, h: MftHeader, s: seq<Byte>): (Fixup.FixupOutcome, seq<Byte>)
  {
    if cfg.applyFixupArray then Fixup.Fixup(s, h.fxOffset, h.fxCount) else (Fixup.Applied, s)
  }

  /**
   * `MFTEntry.create_from_binary`: none for an empty entry; otherwise the header of
   * libmft/headers.py, the length check, the repair when configured, the walk over the
   * attributes when configured, and the slack when configured.
   */
  function CreateEntry(cfg: Config, s: seq<Byte>): (r: Result<Option<Entry>, EntryError>)
    ensures Clamp(s, 0, 4) == EMPTY_MARK <==> r == Success(None)
    ensures var d := DecodeMftHeader(Clamp(s, 0, MFT_HEADER_SIZE));
      Clamp(s, 0, 4) != EMPTY_MARK ==>
        && (d.Failure? ==> r == Failure(HeaderRejected(d.error)))
        && (d.Success? && |s| != d.value.entryAllocLen ==> r == Failure(SizeMismatch(|s|, d.value.entryAllocLen)))
    ensures r.Success? && r.value.Some? ==>
      var e := r.value.value;
      && DecodeMftHeader(Clamp(s, 0, MFT_HEADER_SIZE)) == Success(e.header) && |s| == e.header.entryAllocLen
      && LoadedOk(e.loaded)
      && (e.slack.Some? <==> cfg.loadSlack)
      && (!cfg.loadAttributes ==> e.loaded == NOTHING_LOADED)
  {
    if Clamp(s, 0, 4) == EMPTY_MARK then Success(None)
    else
      var d := DecodeMftHeader(Clamp(s, 0, MFT_HEADER_SIZE));
      if d.Failure? then Failure(HeaderRejected(d.error))
      else
        var h := d.value;
        if |s| != h.entryAllocLen then Failure(SizeMismatch(|s|, h.entryAllocLen))
        else
          var (outcome, t) := Repair(cfg, h, s);
          if outcome != Fixup.Applied then Failure(FixupFailed(outcome))
          else
            var e :- Assemble(cfg, h, t);
            Success(Some(e))
  }

  /** The entry with header `h` from its repaired bytes `t`: the walk over its attributes and its slack, each when configured. */
  function Assemble(cfg: Config, h: MftHeader, t: seq<Byte>): (r: Result<Entry, EntryError>)
    ensures r.Success? ==> r.value.header == h && LoadedOk(r.value.loaded)
    ensures r.Success? ==> (r.value.slack.Some? <==> cfg.loadSlack) && (!cfg.loadAttributes ==> r.value.loaded == NOTHING_LOADED)
  {
    DecoderIsOk(cfg.loadContent);
    var l :- if cfg.loadAttributes then Walk(Clamp(t, h.firstAttrOffset, |t|), 0, Decoder(cfg.loadContent), NOTHING_LOADED)
             else Success(NOTHING_LOADED);
    Success(Entry(h, l, if cfg.loadSlack then Some(Clamp(t, h.entryLen, |t|)) else None))
  }

  /** The buffer after `create_from_binary`, which repairs it in place once the header and length pass. */
  function BufferAfter(cfg: Config, s: seq<Byte>): seq<Byte>
  {
    var d := DecodeMftHeader(Clamp(s, 0, MFT_HEADER_SIZE));
    if Clamp(s, 0, 4) == EMPTY_MARK || d.Failure? || |s| != d.value.entryAllocLen then s
    else Repair(cfg, d.value, s).1
  }

  // ---------------------------------------------------------------------------
  // get_data_size and has_ads
  // ---------------------------------------------------------------------------

  /** `[a for a in data_attrs if a.header.attr_name == ads_name]`. */
  function Named(xs: seq<Attribute>, adsName: Option<seq<Byte>>): (r: seq<Attribute>)
  {
    if xs == [] then []
    else if xs[0].header.attrName == adsName then [xs[0]] + Named(xs[1..], adsName)
    else Named(xs[1..], adsName)
  }

  /** An attribute that ends the loop of `get_data_size`: resident, or non-resident from VCN 0. */
  predicate Decides(a: Attribute)
  {
    a.header.form.Resident? || a.header.form.nonResident.startVcn == 0
  }

  /** The size a deciding attribute gives: `curr_sstream`, or `len(content)`, which raises TypeError (None) on content not loaded. */
  function SizeOf(a: Attribute): Option<nat>
  {
    match a.header.form
    case NonResident(nh) => Some(nh.currSstream)
    case Resident(_) => if a.content.Some? && a.content.value.DataContent? then Some(|a.content.value.data|) else None
  }

  /** The loop of `get_data_size` over the relevant attributes: the first deciding one gives the size, 0 when none does. */
  function FirstSize(xs: seq<Attribute>): Option<nat>
  {
    if xs == [] then Some(0)
    else if Decides(xs[0]) then SizeOf(xs[0])
    else FirstSize(xs[1..])
  }

  /** `get_data_size(ads_name)` as written: it reads the DATA attributes kept in `attrs`. */
  function DataSizeAsWritten(attrs: map<nat, seq<Attribute>>, adsName: Option<seq<Byte>>): Option<nat>
  {
    FirstSize(Named(ApiEntry.GroupOf(attrs, DATA), adsName))
  }

  /** The first deciding attribute gives the size. */
  lemma {:induction false} FirstSizeIsFirstDecider(xs: seq<Attribute>, k: nat)
    requires k < |xs| && Decides(xs[k]) && forall j :: 0 <= j < k ==> !Decides(xs[j])
    ensures FirstSize(xs) == SizeOf(xs[k])
    decreases k
  {
    if k > 0 {
      FirstSizeIsFirstDecider(xs[1..], k - 1);
    }
  }

  /** Without a deciding attribute the size is 0. */
  lemma {:induction false} FirstSizeWithoutDecider(xs: seq<Attribute>)
    requires forall j :: 0 <= j < |xs| ==> !Decides(xs[j])
    ensures FirstSize(xs) == Some(0)
    decreases |xs|
  {
    if xs != [] {
      FirstSizeWithoutDecider(xs[1..]);
    }
  }

  /** `if a.header.attr_name:` a name that is present and not empty. */
  predicate NamedAds(name: Option<seq<Byte>>)
  {
    name.Some? && name.value != []
  }

  /** `has_ads` as written: some DATA attribute kept in `attrs` has a name. */
  predicate HasAdsAsWritten(attrs: map<nat, seq<Attribute>>)
  {
    exists i :: 0 <= i < |ApiEntry.GroupOf(attrs, DATA)| && NamedAds(ApiEntry.GroupOf(attrs, DATA)[i].header.attrName)
  }

  /**
   * As written, `get_data_size` and `has_ads` look where `_add_attribute` never puts
   * anything: on every entry `create_from_binary` gives, the size is 0 and there is no
   * alternate data stream, whatever its DATA attributes hold.
   */
  lemma {:induction false} AsWrittenSeesNoData(cfg: Config, s: seq<Byte>, adsName: Option<seq<Byte>>)
    requires CreateEntry(cfg, s).Success? && CreateEntry(cfg, s).value.Some?
    ensures var attrs := CreateEntry(cfg, s).value.value.loaded.attrs;
      DataSizeAsWritten(attrs, adsName) == Some(0) && !HasAdsAsWritten(attrs)
  {
    var attrs := CreateEntry(cfg, s).value.value.loaded.attrs;
    assert DATA !in attrs;
    assert ApiEntry.GroupOf(attrs, DATA) == [];
  }

  /** `get_data_size(ads_name)` as intended: the size of the stream of that name, 0 when there is none. */
  function DataSize(ss: seq<Stream2>, adsName: Option<seq<Byte>>): nat
  {
    match FindStream(ss, adsName)
    case Some(i) => ss[i].size
    case None => 0
  }

  /** `has_ads` as intended: some stream has a name. */
  predicate HasAds(ss: seq<Stream2>)
  {
    exists i :: 0 <= i < |ss| && NamedAds(ss[i].name)
  }

  /**
   * Once a DATA attribute is taken, the intended `get_data_size` of its name is the
   * content length of resident data or the stream size of a fragment from VCN 0, and
   * is unchanged by a later fragment; the as-written one stays 0.
   */
  lemma {:induction false} DataSizeAfterData(l: Loaded, a: Attribute)
    requires LoadedOk(l) && Routable(a) && a.header.attrTypeId == DATA && Route(l, a).error.None?
    ensures var l' := Route(l, a).value; var name := a.header.attrName;
      && DataSize(l'.streams, name) == (match a.header.form
           case Resident(rh) => rh.contentLen
           case NonResident(nh) => if nh.startVcn == 0 then nh.currSstream else StreamBefore(l.streams, name).size)
      && DataSizeAsWritten(l'.attrs, name) == Some(0)
  {
    var name := a.header.attrName;
    AddToStreamsOk(l.streams, a);
    RouteOk(l, a);
    var s := StreamBefore(l.streams, name);
    match a.header.form
    case Resident(rh) =>
      ResidentDataSizes(s, a);
    case NonResident(nh) =>
      AddDataKeepsStream(s, a);
      if nh.startVcn == 0 {
        FirstFragmentLeads(s, nh);
      }
    assert ApiEntry.GroupOf(Route(l, a).value.attrs, DATA) == [];
  }

  /**
   * Once a DATA attribute is taken, the intended `has_ads` holds exactly when it held
   * before or the attribute has a name; the as-written one stays false.
   */
  lemma {:induction false} HasAdsAfterData(l: Loaded, a: Attribute)
    requires LoadedOk(l) && Routable(a) && a.header.attrTypeId == DATA && Route(l, a).error.None?
    ensures HasAds(Route(l, a).value.streams) <==> HasAds(l.streams) || NamedAds(a.header.attrName)
    ensures !HasAdsAsWritten(Route(l, a).value.attrs)
  {
    var name := a.header.attrName;
    AddToStreamsOk(l.streams, a);
    RouteOk(l, a);
    var ss := l.streams;
    var r := Route(l, a).value.streams;
    var k := FindStream(r, name).value;
    assert r[k].name == name by {
      AddDataKeepsStream(StreamBefore(ss, name), a);
    }
    if HasAds(ss) {
      var i :| 0 <= i < |ss| && NamedAds(ss[i].name);
      if ss[i].name == name {
        assert NamedAds(r[k].name);
      } else {
        assert r[i] == ss[i];
      }
    }
    if HasAds(r) {
      var i :| 0 <= i < |r| && NamedAds(r[i].name);
      if r[i].name != name {
        if i < |ss| {
          AddToStreamsNames(ss, a, i);
        } else {
          assert false;
        }
      }
    }
    assert ApiEntry.GroupOf(Route(l, a).value.attrs, DATA) == [];
  }

  /** A stream of the list after a DATA attribute arrives that is not called after it was there before, at its place. */
  lemma {:induction false} AddToStreamsNames(ss: seq<Stream2>, a: Attribute, i: nat)
    requires StreamsOk(ss) && DataAttribute(a) && AddToStreams(ss, a).error.None?
    requires i < |AddToStreams(ss, a).value| && AddToStreams(ss, a).value[i].name != a.header.attrName
    ensures i < |ss| && AddToStreams(ss, a).value[i] == ss[i]
  {
    var p := AddData2(StreamBefore(ss, a.header.attrName), a);
    AddDataKeepsStream(StreamBefore(ss, a.header.attrName), a);
  }

  // ---------------------------------------------------------------------------
  // The MFT lookup
  // ---------------------------------------------------------------------------

  /**
   * `MFT.__getitem__(index)`: an empty entry raises ValueError; a child entry is looked up
   * through its base entry. `_read_full_entry` goes through that entry and then its child
   * entries; the entry numbers it goes through are the result.
   */
  function GetItem2(t: ApiMft.Tables, index: nat): (r: Result<seq<nat>, ApiMft.MftError>)
  {
    if index in t.empty then Failure(ApiMft.EmptyEntry(index))
    else
      var base := if index in t.childParent then t.childParent[index] else index;
      Success([base] + ApiMft.ChildrenOf(t.parentChild, base))
  }

  /**
   * On the tables `_load_stub_info` builds, the lookup refuses exactly the empty entries;
   * any other entry is among those read, which start with an entry that is not empty, and
   * are that entry's own child entries after it; a child entry is read through its base
   * record.
   */
  lemma {:induction false} GetItem2Resolves(stubs: seq<Option<ApiMft.Stub>>, t: ApiMft.Tables, index: nat)
    requires ApiMft.TablesOf(stubs, |stubs|, t) && index < |stubs|
    ensures GetItem2(t, index).Failure? <==> stubs[index].None?
    ensures GetItem2(t, index).Success? ==>
      var r := GetItem2(t, index).value;
      && index in r && r[0] < |stubs| && stubs[r[0]].Some?
      && (ApiMft.IsChild(stubs, index) ==> r[0] == stubs[index].value.baseRef)
      && (!ApiMft.IsChild(stubs, index) ==> r[0] == index)
      && (forall j :: 1 <= j < |r| ==> r[j] < |stubs| && ApiMft.IsChild(stubs, r[j]) && stubs[r[j]].value.baseRef == r[0])
  {
    ApiMft.TablesAgree(stubs, t);
    if stubs[index].Some? {
      var base := if index in t.childParent then t.childParent[index] else index;
      ApiMft.ChildrenBelowMembers(stubs, base, |stubs|);
      assert ApiMft.ChildrenOf(t.parentChild, base) == ApiMft.ChildrenBelow(stubs, base, |stubs|);
      var r := GetItem2(t, index).value;
      if index in t.childParent {
        assert index in ApiMft.ChildrenOf(t.parentChild, base);
        assert index in r[1..];
      }
      forall j | 1 <= j < |r|
        ensures r[j] < |stubs| && ApiMft.IsChild(stubs, r[j]) && stubs[r[j]].value.baseRef == r[0]
      {
        assert r[j] == ApiMft.ChildrenBelow(stubs, base, |stubs|)[j - 1];
      }
    }
  }

  // ---------------------------------------------------------------------------
  // The entry object
  // ---------------------------------------------------------------------------

  /** The states of a list of stream objects. */
  function StatesOf(ds: seq<Datastream2>): (r: seq<Stream2>)
    reads set d | d in ds
    ensures |r| == |ds| && forall i :: 0 <= i < |ds| ==> r[i] == ds[i].State()
  {
    if ds == [] then [] else [ds[0].State()] + StatesOf(ds[1..])
  }

  /** `MFTEntry` of libmft/api2.py: a header, the non-DATA attributes by type, the data streams and the slack. */
  class MftEntry2 {
    var header: MftHeader
    var attrs: map<nat, seq<Attribute>>
    var dataStreams: seq<Datastream2>
    var slack: Option<seq<Byte>>

    function Streams(): seq<Stream2>
      reads this, set d | d in dataStreams
    {
      StatesOf(dataStreams)
    }

    function Contents(): Loaded
      reads this, set d | d in dataStreams
    {
      Loaded(attrs, Streams())
    }

    predicate Valid()
      reads this, set d | d in dataStreams
    {
      LoadedOk(Contents())
    }

    /** `MFTEntry(header, {})` with `data_streams` set to an empty list. */
    constructor(header: MftHeader)
      ensures this.header == header && Contents() == NOTHING_LOADED && slack.None? && Valid()
    {
      this.header := header;
      attrs := map[];
      dataStreams := [];
      slack := None;
    }

    /** `_add_datastream`: the first stream of the attribute's name takes it, or a new one at the end. */
    method AddDatastream(a: Attribute) returns (err: Option<StreamError2>)
      requires Valid() && DataAttribute(a)
      modifies this, set d | d in dataStreams
      ensures Valid() && header == old(header) && attrs == old(attrs) && slack == old(slack)
      ensures Partial(Streams(), err) == AddToStreams(old(Streams()), a)
      ensures forall d :: d in dataStreams ==> d in old(dataStreams) || fresh(d)
    {
      for i := 0 to |dataStreams|
        invariant forall j :: 0 <= j < i ==> dataStreams[j].name != a.header.attrName
      {
        if dataStreams[i].name == a.header.attrName {
          FindUnique(Streams(), a.header.attrName, i);
          err := FeedStream(i, a);
          return;
        }
      }
      err := AppendStream(a);
    }

    /** The stream at position `i` has the name of `a`, and takes it. */
    method FeedStream(i: nat, a: Attribute) returns (err: Option<StreamError2>)
      requires Valid() && DataAttribute(a) && i < |dataStreams|
      requires FindStream(Streams(), a.header.attrName) == Some(i)
      modifies dataStreams[i]
      ensures Valid()
      ensures Partial(Streams(), err) == AddToStreams(old(Streams()), a)
    {
      var stream := dataStreams[i];
      assert forall j :: 0 <= j < |dataStreams| && j != i ==> dataStreams[j] != stream by {
        forall j | 0 <= j < |dataStreams| && j != i ensures dataStreams[j] != stream {
          assert Streams()[j].name != Streams()[i].name;
        }
      }
      assert stream.Valid();
      err := stream.AddDataAttribute(a);
      AddToStreamsOk(old(Streams()), a);
      assert Streams() == old(Streams())[i := stream.State()];
    }

    /** No stream has the name of `a`: a new stream takes it, and is kept unless it raised. */
    method AppendStream(a: Attribute) returns (err: Option<StreamError2>)
      requires Valid() && DataAttribute(a)
      requires FindStream(Streams(), a.header.attrName).None?
      modifies this
      ensures Valid() && header == old(header) && attrs == old(attrs) && slack == old(slack)
      ensures Partial(Streams(), err) == AddToStreams(old(Streams()), a)
      ensures forall d :: d in dataStreams ==> d in old(dataStreams) || fresh(d)
    {
      var created := new Datastream2(a.header.attrName);
      err := created.AddDataAttribute(a);
      AddToNewStream(old(Streams()), a);
      if err.None? {
        KeepStream(created);
      }
    }

    /** `self.data_streams.append(stream)`. */
    method KeepStream(d: Datastream2)
      requires Valid() && d !in dataStreams && StreamsOk(Streams() + [d.State()])
      modifies this
      ensures Valid() && header == old(header) && attrs == old(attrs) && slack == old(slack)
      ensures Streams() == old(Streams()) + [d.State()] && dataStreams == old(dataStreams) + [d]
    {
      dataStreams := dataStreams + [d];
      assert Streams() == old(Streams()) + [d.State()];
    }

    /** `_add_attribute`: DATA to its stream, any other type to the end of its list. */
    method AddAttribute(a: Attribute) returns (err: Option<StreamError2>)
      requires Valid() && Routable(a)
      modifies this, set d | d in dataStreams
      ensures Valid() && header == old(header) && slack == old(slack)
      ensures Partial(Contents(), err) == Route(old(Contents()), a)
      ensures forall d :: d in dataStreams ==> d in old(dataStreams) || fresh(d)
    {
      RouteOk(Contents(), a);
      if a.header.attrTypeId == DATA {
        err := AddDatastream(a);
      } else {
        attrs := attrs[a.header.attrTypeId := ApiEntry.GroupOf(attrs, a.header.attrTypeId) + [a]];
        err := None;
      }
    }

    /** `_load_attributes` over `w`, the view from the first attribute to the end of the entry. */
    method LoadAttributes(decode: seq<Byte> -> Result<Attribute, AttributeError>, w: seq<Byte>)
      returns (r: Result<(), EntryError>)
      requires Valid() && DecoderOk(decode)
      modifies this, set d | d in dataStreams
      ensures Valid() && header == old(header) && slack == old(slack)
      ensures r.Success? <==> Walk(w, 0, decode, old(Contents())).Success?
      ensures r.Success? ==> Contents() == Walk(w, 0, decode, old(Contents())).value
      ensures r.Failure? ==> r.error == Walk(w, 0, decode, old(Contents())).error
      ensures forall d :: d in dataStreams ==> d in old(dataStreams) || fresh(d)
    {
      var offset := 0;
      while Clamp(w, offset, offset + 4) != ApiEntry.END_MARKER
        invariant Valid() && header == old(header) && slack == old(slack)
        invariant Walk(w, offset, decode, Contents()) == Walk(w, 0, decode, old(Contents()))
        invariant forall d :: d in dataStreams ==> d in old(dataStreams) || fresh(d)
        decreases if offset <= |w| then |w| - offset else 0
      {
        ghost var before := Contents();
        var next := LoadOne(decode, w, offset);
        if next.Failure? {
          return Failure(next.error);
        }
        assert Walk(w, offset, decode, before) == Walk(w, next.value, decode, Contents());
        offset := next.value;
      }
      return Success(());
    }

    /** One turn of the loop of `_load_attributes`: the offset of the next attribute. */
    method LoadOne(decode: seq<Byte> -> Result<Attribute, AttributeError>, w: seq<Byte>, offset: nat)
      returns (r: Result<nat, EntryError>)
      requires Valid() && DecoderOk(decode)
      modifies this, set d | d in dataStreams
      ensures Valid() && header == old(header) && slack == old(slack)
      ensures StepAt(w, offset, decode, old(Contents())) == if r.Success? then Success((r.value, Contents())) else Failure(r.error)
      ensures forall d :: d in dataStreams ==> d in old(dataStreams) || fresh(d)
    {
      var a := decode(Clamp(w, offset, |w|));
      if a.Failure? {
        return Failure(AttributeRejected(a.error));
      }
      var err := AddAttribute(a.value);
      if err.Some? {
        return Failure(StreamRejected(err.value));
      }
      if a.value.header.attrLen == 0 {
        return Failure(NoProgress(offset));
      }
      return Success(offset + a.value.header.attrLen);
    }

    /**
     * `MFTEntry.create_from_binary`: the entry decoded from `data`, whose sectors are
     * repaired in place when configured. The entry number only feeds a log message.
     */
    static method CreateFromBinary(cfg: Config, data: array<Byte>, entryNumber: nat)
      returns (r: Result<Option<MftEntry2>, EntryError>)
      modifies data
      ensures var spec := CreateEntry(cfg, old(data[..]));
        && (r.Success? <==> spec.Success?)
        && (r.Failure? ==> r.error == spec.error)
        && (r.Success? ==> (r.value.Some? <==> spec.value.Some?))
      ensures r.Success? && r.value.Some? ==>
        var e := r.value.value; var spec := CreateEntry(cfg, old(data[..])).value.value;
        && fresh(e) && e.Valid()
        && e.header == spec.header && e.Contents() == spec.loaded && e.slack == spec.slack
      ensures data[..] == BufferAfter(cfg, old(data[..]))
    {
      if Clamp(data[..], 0, 4) == EMPTY_MARK {
        return Success(None);
      }
      var d := DecodeMftHeader(Clamp(data[..], 0, MFT_HEADER_SIZE));
      if d.Failure? {
        return Failure(HeaderRejected(d.error));
      }
      var h := d.value;
      if data.Length != h.entryAllocLen {
        return Failure(SizeMismatch(data.Length, h.entryAllocLen));
      }
      if cfg.applyFixupArray {
        var outcome := Fixup.ApplyFixupArray(data, h.fxOffset, h.fxCount, h.entryAllocLen);
        if outcome != Fixup.Applied {
          return Failure(FixupFailed(outcome));
        }
      }
      var built := Build(cfg, h, data[..]);
      if built.Failure? {
        return Failure(built.error);
      }
      return Success(Some(built.value));
    }

    /** `cls(header, {})`, then `_load_attributes` and the slack over the repaired bytes `t`, each when configured. */
    static method Build(cfg: Config, h: MftHeader, t: seq<Byte>) returns (r: Result<MftEntry2, EntryError>)
      ensures var spec := Assemble(cfg, h, t);
        && (r.Success? <==> spec.Success?)
        && (r.Failure? ==> r.error == spec.error)
        && (r.Success? ==> fresh(r.value) && r.value.Valid() && r.value.header == h)
        && (r.Success? ==> r.value.Contents() == spec.value.loaded && r.value.slack == spec.value.slack)
    {
      var entry := new MftEntry2(h);
      if cfg.loadAttributes {
        DecoderIsOk(cfg.loadContent);
        var loaded := entry.LoadAttributes(Decoder(cfg.loadContent), Clamp(t, h.firstAttrOffset, |t|));
        if loaded.Failure? {
          return Failure(loaded.error);
        }
      }
      if cfg.loadSlack {
        entry.slack := Some(Clamp(t, h.entryLen, |t|));
      }
      return Success(entry);
    }

    /** `get_data_size(ads_name)` as written: the loop over the DATA attributes of `attrs` with that name. */
    method GetDataSize(adsName: Option<seq<Byte>>) returns (r: Option<nat>)
      ensures r == DataSizeAsWritten(attrs, adsName)
    {
      var relevant := Named(ApiEntry.GroupOf(attrs, DATA), adsName);
      for i := 0 to |relevant|
        invariant FirstSize(relevant[i..]) == FirstSize(relevant)
      {
        assert relevant[i..][1..] == relevant[i + 1..];
        if Decides(relevant[i]) {
          return SizeOf(relevant[i]);
        }
      }
      return Some(0);
    }

    /** `has_ads` as written: the loop over the DATA attributes of `attrs`. */
    method HasAds() returns (b: bool)
      ensures b == HasAdsAsWritten(attrs)
    {
      var dataAttrs := ApiEntry.GroupOf(attrs, DATA);
      for i := 0 to |dataAttrs|
        invariant forall j :: 0 <= j < i ==> !NamedAds(dataAttrs[j].header.attrName)
      {
        if NamedAds(dataAttrs[i].header.attrName) {
          return true;
        }
      }
      return false;
    }
  }
}
