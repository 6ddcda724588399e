/**
 * `MFTEntry` of libmft/api.py: one logical MFT entry, its header, its attributes grouped
 * by type, and its data streams. An entry is read by walking the attributes that follow
 * the header up to the `FF FF FF FF` end marker; the attributes of child entries are
 * merged into their base entry afterwards.
 */
module ApiEntry {
  import opened Wrappers
  import opened Bytes
  import opened Headers
  import opened ApiConfig
  import opened ApiHeader
  import opened ApiAttribute
  import opened ApiStream
  import opened ApiFileName
  import opened Fixup
  import Bitmaps
  import AttrContent

  /** The end marker of the attribute list. */
  const END_MARKER: seq<Byte> := [0xFF, 0xFF, 0xFF, 0xFF]

  /** The ways reading an entry fails. */
  datatype EntryError =
    | HeaderRejected(headerError: HeaderError)
      /** EntryError: the buffer is not `entry_alloc_len` bytes long. */
    | SizeMismatch(bufferLen: nat, allocLen: nat)
      /** FixUpError or the other failures of the repair. */
    | FixupFailed(outcome: FixupOutcome)
    | AttributeRejected(attrError: AttributeError)
      /** An attribute of length 0: the walk would stay at `offset` forever. */
    | NoProgress(offset: nat)

  // ---------------------------------------------------------------------------
  // The attributes and streams of an entry, as values
  // ---------------------------------------------------------------------------

  /** `attrs` (type to attributes, in arrival order) and the states of `data_streams`. */
  datatype Loaded = Loaded(attrs: map<nat, seq<Attribute>>, streams: seq<Stream>)

  /** `attrs.get(t, [])`. */
  function GroupOf(attrs: map<nat, seq<Attribute>>, t: nat): seq<Attribute>
  {
    if t in attrs then attrs[t] else []
  }

  /** A type is listed once it has an attribute, every attribute is kept under its own type, and DATA attributes are not kept here. */
  predicate GroupsOk(attrs: map<nat, seq<Attribute>>)
  {
    && (forall t: nat :: t in attrs ==> attrs[t] != [])
    && (forall t: nat, a: Attribute :: t in attrs && a in attrs[t] ==> t != DATA && a.header.attrTypeId == t && WellTyped(a))
  }

  /** Stream names are unique, and no stream claims to be sorted when it is not. */
  predicate StreamsOk(ss: seq<Stream>)
  {
    && (forall i, j :: 0 <= i < j < |ss| ==> ss[i].name != ss[j].name)
    && (forall i :: 0 <= i < |ss| ==> SortedFlagHolds(ss[i]))
  }

  predicate LoadedOk(l: Loaded)
  {
    GroupsOk(l.attrs) && StreamsOk(l.streams)
  }

  const NOTHING_LOADED: Loaded := Loaded(map[], [])

  /** `_add_attribute`: the attribute goes to the end of the list of its type. */
  function AddToGroup(attrs: map<nat, seq<Attribute>>, a: Attribute): (r: map<nat, seq<Attribute>>)
    ensures GroupOf(r, a.header.attrTypeId) == GroupOf(attrs, a.header.attrTypeId) + [a]
    ensures forall t :: t != a.header.attrTypeId ==> GroupOf(r, t) == GroupOf(attrs, t)
    ensures r.Keys == attrs.Keys + {a.header.attrTypeId}
  {
    attrs[a.header.attrTypeId := GroupOf(attrs, a.header.attrTypeId) + [a]]
  }

  /** `_find_datastream`: the position of the first stream called `name`. */
  function FindStream(ss: seq<Stream>, name: Option<seq<Byte>>): (r: Option<nat>)
    ensures r.Some? ==> r.value < |ss| && ss[r.value].name == name
    ensures r.Some? ==> forall j :: 0 <= j < r.value ==> ss[j].name != name
    ensures r.None? ==> forall j :: 0 <= j < |ss| ==> ss[j].name != name
  {
    IndexOf(ss, (s: Stream) => s.name, name)
  }

  /**
   * `_add_datastream`: the DATA attribute goes to the stream of its name, which is
   * created at the end of the list when there is none.
   */
  function AddToStreams(ss: seq<Stream>, a: Attribute): (r: seq<Stream>)
    requires WellTyped(a) && a.header.attrTypeId == DATA
    ensures StreamsOk(ss) ==> StreamsOk(r)
    ensures FindStream(ss, a.header.attrName).None? ==> |r| == |ss| + 1 && r[..|ss|] == ss
    ensures FindStream(ss, a.header.attrName).Some? ==> |r| == |ss|
  {
    match FindStream(ss, a.header.attrName)
    case Some(i) => ss[i := AddData(ss[i], a).value]
    case None => ss + [AddData(NewStream(a.header.attrName), a).value]
  }

  /** DATA attributes feed the streams, every other attribute its type's list. */
  function Route(l: Loaded, a: Attribute): (r: Loaded)
    requires WellTyped(a)
  {
    if a.header.attrTypeId == DATA then l.(streams := AddToStreams(l.streams, a))
    else l.(attrs := AddToGroup(l.attrs, a))
  }

  lemma {:induction false} RouteKeepsLoadedOk(l: Loaded, a: Attribute)
    requires LoadedOk(l) && WellTyped(a)
    ensures LoadedOk(Route(l, a))
  {
    if a.header.attrTypeId != DATA {
      var r := AddToGroup(l.attrs, a);
      forall t: nat | t in r ensures r[t] != [] {
        if t != a.header.attrTypeId {
          assert t in l.attrs && r[t] == l.attrs[t];
        }
      }
      forall t: nat, b: Attribute | t in r && b in r[t]
        ensures t != DATA && b.header.attrTypeId == t && WellTyped(b)
      {
        if t == a.header.attrTypeId {
          assert r[t] == GroupOf(l.attrs, t) + [a];
          if b != a {
            GroupMember(l.attrs, t, b);
          }
        } else {
          assert r[t] == GroupOf(l.attrs, t);
          GroupMember(l.attrs, t, b);
        }
      }
      assert GroupsOk(r);
      assert Route(l, a).attrs == r;
    }
  }

  function AttrResult<T>(r: Result<T, AttributeError>): Result<T, EntryError>
  {
    if r.Success? then Success(r.value) else Failure(AttributeRejected(r.error))
  }

  /** The attribute at the start of `v`, decoded and routed. */
  function Load(l: Loaded, v: seq<Byte>): (r: Result<Loaded, EntryError>)
    requires LoadedOk(l)
    ensures r.Success? ==> LoadedOk(r.value)
  {
    var a :- AttrResult(CreateAttribute(v));
    RouteKeepsLoadedOk(l, a);
    Success(Route(l, a))
  }

  /**
   * One turn of `_load_attributes` at `offset`: read the type and length of the
   * attribute there, decode and keep it when its type is loaded, and step over it.
   */
  function StepAt(w: seq<Byte>, offset: nat, load: set<nat>, l: Loaded): (r: Result<(nat, Loaded), EntryError>)
    requires LoadedOk(l)
    ensures r.Success? ==> offset < |w| && offset < r.value.0 && LoadedOk(r.value.1)
  {
    var info :- AttrResult(GetAttrInfo(Clamp(w, offset, |w|)));
    var next :- if info.attrType in load then Load(l, Clamp(w, offset, |w|)) else Success(l);
    if info.attrLen == 0 then Failure(NoProgress(offset)) else Success((offset + info.attrLen, next))
  }

  /** `_load_attributes` from `offset` on, up to the end marker. */
  function Walk(w: seq<Byte>, offset: nat, load: set<nat>, l: Loaded): (r: Result<Loaded, EntryError>)
    requires LoadedOk(l)
    ensures r.Success? ==> LoadedOk(r.value)
    decreases if offset <= |w| then |w| - offset else 0
  {
    if Clamp(w, offset, offset + 4) == END_MARKER then Success(l)
    else
      var (next, l') :- StepAt(w, offset, load, l);
      Walk(w, next, load, l')
  }

  /** `l` holds exactly the part of `f` whose types are in `load`. */
  ghost predicate Restricted(l: Loaded, f: Loaded, load: set<nat>)
  {
    && (forall t :: t in load ==> GroupOf(l.attrs, t) == GroupOf(f.attrs, t))
    && (forall t :: t !in load ==> GroupOf(l.attrs, t) == [])
    && l.streams == (if DATA in load then f.streams else [])
  }

  /**
   * The load set only filters: a walk that loads fewer types visits the same
   * attributes, succeeds whenever the wider walk does, and keeps exactly the
   * attributes of the loaded types; the others are stepped over.
   */
  lemma {:induction false} WalkFilters(w: seq<Byte>, offset: nat, load: set<nat>, full: set<nat>, l: Loaded, f: Loaded)
    requires load <= full && LoadedOk(l) && LoadedOk(f) && Restricted(l, f, load)
    requires Walk(w, offset, full, f).Success?
    ensures Walk(w, offset, load, l).Success?
    ensures Restricted(Walk(w, offset, load, l).value, Walk(w, offset, full, f).value, load)
    decreases if offset <= |w| then |w| - offset else 0
  {
    if Clamp(w, offset, offset + 4) != END_MARKER {
      StepFilters(w, offset, load, full, l, f);
      var (next, f') := StepAt(w, offset, full, f).value;
      var l' := StepAt(w, offset, load, l).value.1;
      WalkFilters(w, next, load, full, l', f');
    }
  }

  lemma {:induction false} StepFilters(w: seq<Byte>, offset: nat, load: set<nat>, full: set<nat>, l: Loaded, f: Loaded)
    requires load <= full && LoadedOk(l) && LoadedOk(f) && Restricted(l, f, load)
    requires StepAt(w, offset, full, f).Success?
    ensures StepAt(w, offset, load, l).Success?
    ensures StepAt(w, offset, load, l).value.0 == StepAt(w, offset, full, f).value.0
    ensures Restricted(StepAt(w, offset, load, l).value.1, StepAt(w, offset, full, f).value.1, load)
  {
    var v := Clamp(w, offset, |w|);
    StepAtSucceeds(w, offset, full, f);
    StepAtValue(w, offset, full, f);
    StepAtValue(w, offset, load, l);
    var info := GetAttrInfo(v).value;
    if info.attrType in full {
      var a := CreateAttribute(v).value;
      AttrInfoOfHeader(v);
      RouteRestricted(l, f, if info.attrType in load then Route(l, a) else l, a, load);
    }
  }

  /** A step succeeds only on a readable attribute of non-zero length that decodes when its type is loaded. */
  lemma {:induction false} StepAtSucceeds(w: seq<Byte>, offset: nat, load: set<nat>, l: Loaded)
    requires LoadedOk(l) && StepAt(w, offset, load, l).Success?
    ensures var v := Clamp(w, offset, |w|);
      && GetAttrInfo(v).Success? && GetAttrInfo(v).value.attrLen != 0
      && (GetAttrInfo(v).value.attrType in load ==> CreateAttribute(v).Success?)
  {
  }

  /** On such an attribute, the step moves past it and keeps it when its type is loaded. */
  lemma {:induction false} StepAtValue(w: seq<Byte>, offset: nat, load: set<nat>, l: Loaded)
    requires LoadedOk(l)
    requires var v := Clamp(w, offset, |w|);
      && GetAttrInfo(v).Success? && GetAttrInfo(v).value.attrLen != 0
      && (GetAttrInfo(v).value.attrType in load ==> CreateAttribute(v).Success?)
    ensures var v := Clamp(w, offset, |w|);
      var info := GetAttrInfo(v).value;
      StepAt(w, offset, load, l)
      == Success((offset + info.attrLen, if info.attrType in load then Route(l, CreateAttribute(v).value) else l))
  {
    var v := Clamp(w, offset, |w|);
    if GetAttrInfo(v).value.attrType in load {
      StepAtKept(w, offset, load, l);
    } else {
      StepAtSkipped(w, offset, load, l);
    }
  }

  lemma {:induction false} StepAtKept(w: seq<Byte>, offset: nat, load: set<nat>, l: Loaded)
    requires LoadedOk(l)
    requires var v := Clamp(w, offset, |w|);
      && GetAttrInfo(v).Success? && GetAttrInfo(v).value.attrLen != 0
      && GetAttrInfo(v).value.attrType in load && CreateAttribute(v).Success?
    ensures var v := Clamp(w, offset, |w|);
      StepAt(w, offset, load, l) == Success((offset + GetAttrInfo(v).value.attrLen, Route(l, CreateAttribute(v).value)))
  {
    var v := Clamp(w, offset, |w|);
    var info := GetAttrInfo(v).value;
    assert AttrResult(GetAttrInfo(v)) == Success(info);
    LoadDecoded(l, v);
  }

  /** A view whose attribute decodes is loaded by routing that attribute. */
  lemma {:induction false} LoadDecoded(l: Loaded, v: seq<Byte>)
    requires LoadedOk(l) && CreateAttribute(v).Success?
    ensures Load(l, v) == Success(Route(l, CreateAttribute(v).value))
  {
  }

  lemma {:induction false} StepAtSkipped(w: seq<Byte>, offset: nat, load: set<nat>, l: Loaded)
    requires LoadedOk(l)
    requires var v := Clamp(w, offset, |w|);
      GetAttrInfo(v).Success? && GetAttrInfo(v).value.attrLen != 0 && GetAttrInfo(v).value.attrType !in load
    ensures StepAt(w, offset, load, l) == Success((offset + GetAttrInfo(Clamp(w, offset, |w|)).value.attrLen, l))
  {
  }

  /** The three ways a step fails, in the order the source meets them. */
  lemma {:induction false} StepAtFails(w: seq<Byte>, offset: nat, load: set<nat>, l: Loaded)
    requires LoadedOk(l)
    ensures var v := Clamp(w, offset, |w|);
      var info := GetAttrInfo(v);
      && (info.Failure? ==> StepAt(w, offset, load, l) == Failure(AttributeRejected(info.error)))
      && (info.Success? && info.value.attrType in load && CreateAttribute(v).Failure? ==>
            StepAt(w, offset, load, l) == Failure(AttributeRejected(CreateAttribute(v).error)))
      && (info.Success? && (info.value.attrType in load ==> CreateAttribute(v).Success?) && info.value.attrLen == 0 ==>
            StepAt(w, offset, load, l) == Failure(NoProgress(offset)))
  {
  }

  lemma {:induction false} RouteRestricted(l: Loaded, f: Loaded, l': Loaded, a: Attribute, load: set<nat>)
    requires WellTyped(a) && Restricted(l, f, load)
    requires l' == if a.header.attrTypeId in load then Route(l, a) else l
    ensures Restricted(l', Route(f, a), load)
  {
    var t0 := a.header.attrTypeId;
    if t0 != DATA {
      forall t | t in load
        ensures GroupOf(l'.attrs, t) == GroupOf(Route(f, a).attrs, t)
      {
      }
    }
  }

  // ---------------------------------------------------------------------------
  // Reading one entry
  // ---------------------------------------------------------------------------

  function HeaderResult(r: Result<MftHeader, HeaderError>): Result<MftHeader, EntryError>
  {
    if r.Success? then Success(r.value) else Failure(HeaderRejected(r.error))
  }

  /** The header of the buffer, once its length has been checked against it. */
  function SizedHeader(ignoreSignatureCheck: bool, s: seq<Byte>): (r: Result<MftHeader, EntryError>)
    ensures r.Success? ==> CheckedAccepted(r.value) && |s| == r.value.entryAllocLen
    ensures var d := DecodeEntryHeader(ignoreSignatureCheck, Clamp(s, 0, MFT_HEADER_SIZE));
      && (d.Success? && |s| != d.value.entryAllocLen ==> r == Failure(SizeMismatch(|s|, d.value.entryAllocLen)))
      && (r.Success? ==> d == Success(r.value))
  {
    var h :- HeaderResult(DecodeEntryHeader(ignoreSignatureCheck, Clamp(s, 0, MFT_HEADER_SIZE)));
    if |s| != h.entryAllocLen then Failure(SizeMismatch(|s|, h.entryAllocLen)) else Success(h)
  }

  /** The outcome of the repair the configuration asks for, and the bytes after it. */
  function Repair(applyFixupArray: bool, h: MftHeader, s: seq<Byte>): (FixupOutcome, seq<Byte>)
  {
    if applyFixupArray then Fixup.Fixup(s, h.fxOffset, h.fxCount) else (Applied, s)
  }

  /** The buffer after `create_from_binary`, which repairs it in place. */
  function BufferAfter(ignoreSignatureCheck: bool, applyFixupArray: bool, s: seq<Byte>): seq<Byte>
  {
    var h := SizedHeader(ignoreSignatureCheck, s);
    if h.Failure? then s else Repair(applyFixupArray, h.value, s).1
  }

  /**
   * `MFTEntry.create_from_binary`: the configured header, the length check, the repair
   * when configured, then the walk over the repaired bytes from the first attribute on.
   */
  function CreateEntry(ignoreSignatureCheck: bool, applyFixupArray: bool, load: set<nat>, s: seq<Byte>)
    : (r: Result<(MftHeader, Loaded), EntryError>)
    ensures r.Success? ==> SizedHeader(ignoreSignatureCheck, s).Success?
    ensures r.Success? ==> r.value.0 == SizedHeader(ignoreSignatureCheck, s).value && LoadedOk(r.value.1)
    ensures SizedHeader(ignoreSignatureCheck, s).Failure? ==> r == Failure(SizedHeader(ignoreSignatureCheck, s).error)
    ensures !applyFixupArray && SizedHeader(ignoreSignatureCheck, s).Success? ==>
              var h := SizedHeader(ignoreSignatureCheck, s).value;
              (r.Success? <==> Walk(Clamp(s, h.firstAttrOffset, |s|), 0, load, NOTHING_LOADED).Success?)
  {
    var h :- SizedHeader(ignoreSignatureCheck, s);
    var (outcome, t) := Repair(applyFixupArray, h, s);
    if outcome != Applied then Failure(FixupFailed(outcome))
    else
      var l :- Walk(Clamp(t, h.firstAttrOffset, |t|), 0, load, NOTHING_LOADED);
      Success((h, l))
  }

  /**
   * An entry laid out by the header encoder, as long as its allocated length, whose
   * attribute list is empty, reads back as that header with nothing loaded, when the
   * repair is switched off.
   */
  lemma {:induction false} EmptyEntryRoundTrip(h: MftHeader, rest: seq<Byte>, load: set<nat>)
    requires Encodable(h) && h.baad.Some? && CheckedAccepted(h)
    requires |EncodeMftHeader(h)| + |rest| == h.entryAllocLen
    requires Clamp(EncodeMftHeader(h) + rest, h.firstAttrOffset, h.firstAttrOffset + 4) == END_MARKER
    ensures CreateEntry(false, false, load, EncodeMftHeader(h) + rest) == Success((h, NOTHING_LOADED))
  {
    EncodedEntrySized(h, rest);
    EmptyEntry(h, EncodeMftHeader(h) + rest, load);
  }

  /** An entry whose length check passes and whose first attribute is the end marker loads nothing. */
  lemma {:induction false} EmptyEntry(h: MftHeader, s: seq<Byte>, load: set<nat>)
    requires SizedHeader(false, s) == Success(h)
    requires Clamp(s, h.firstAttrOffset, h.firstAttrOffset + 4) == END_MARKER
    ensures CreateEntry(false, false, load, s) == Success((h, NOTHING_LOADED))
  {
    ClampOfTail(s, h.firstAttrOffset, 4);
    WalkAtEnd(Clamp(s, h.firstAttrOffset, |s|), load, NOTHING_LOADED);
    UnrepairedEntry(load, s);
  }

  /** Without the repair, the entry is its checked header and what the walk from its first attribute loads. */
  lemma {:induction false} UnrepairedEntry(load: set<nat>, s: seq<Byte>)
    requires SizedHeader(false, s).Success?
    ensures var h := SizedHeader(false, s).value;
      var l := Walk(Clamp(s, h.firstAttrOffset, |s|), 0, load, NOTHING_LOADED);
      l.Success? ==> CreateEntry(false, false, load, s) == Success((h, l.value))
  {
  }

  /** A walk that starts on the end marker loads nothing more. */
  lemma {:induction false} WalkAtEnd(w: seq<Byte>, load: set<nat>, l: Loaded)
    requires LoadedOk(l) && Clamp(w, 0, 4) == END_MARKER
    ensures Walk(w, 0, load, l) == Success(l)
  {
  }

  /** The encoded header, padded to its allocated length, passes the length check. */
  lemma {:induction false} EncodedEntrySized(h: MftHeader, rest: seq<Byte>)
    requires Encodable(h) && h.baad.Some? && CheckedAccepted(h)
    requires |EncodeMftHeader(h)| + |rest| == h.entryAllocLen
    ensures SizedHeader(false, EncodeMftHeader(h) + rest) == Success(h)
  {
    EntryHeaderRoundTrip(h, []);
    assert EncodeMftHeader(h) + [] == EncodeMftHeader(h);
    HeaderPrefix(h, rest);
  }

  lemma {:induction false} HeaderPrefix(h: MftHeader, rest: seq<Byte>)
    requires Encodable(h) && h.baad.Some?
    ensures Clamp(EncodeMftHeader(h) + rest, 0, MFT_HEADER_SIZE) == EncodeMftHeader(h)
  {
    assert (EncodeMftHeader(h) + rest)[..MFT_HEADER_SIZE] == EncodeMftHeader(h);
  }

  /** `is_deleted`: the IN_USE bit (bit 0) of the usage flags is clear. */
  predicate IsDeleted(h: MftHeader)
  {
    !Bitmaps.BitOf(h.usageFlags, 0)
  }

  /** `is_directory`: the DIRECTORY bit (bit 1) of the usage flags is set. */
  predicate IsDirectory(h: MftHeader)
  {
    Bitmaps.BitOf(h.usageFlags, 1)
  }

  /**
   * Both flags live in the low byte of the usage flags at offset 22 of the entry: an
   * entry is deleted when that byte is even, and a directory when its bit 1 is set.
   */
  lemma {:induction false} UsageFlagsOnDisk(ignoreSignatureCheck: bool, v: seq<Byte>)
    requires DecodeEntryHeader(ignoreSignatureCheck, v).Success?
    ensures var h := DecodeEntryHeader(ignoreSignatureCheck, v).value;
      && (IsDeleted(h) <==> v[22] % 2 == 0)
      && (IsDirectory(h) <==> (v[22] as int / 2) % 2 == 1)
  {
    var h := DecodeEntryHeader(ignoreSignatureCheck, v).value;
    UsageFlagsField(v);
    assert h.usageFlags == v[22] as int + 256 * v[23] as int;
    assert Bitmaps.Pow2(8) == 256 by {
      assert Bitmaps.Pow2(1) == 2;
    }
    Bitmaps.LowBits(v[22], v[23], 8, 0);
    Bitmaps.LowBits(v[22], v[23], 8, 1);
  }

  lemma {:induction false} UsageFlagsField(v: seq<Byte>)
    requires |v| >= MFT_HEADER_SIZE
    ensures LeUintAt(v, 22, 2) == v[22] as int + 256 * v[23] as int
    ensures forall b :: ReadMftHeader(v, b).usageFlags == LeUintAt(v, 22, 2)
  {
    assert LeUintAt(v, 24, 0) == 0;
  }

  // ---------------------------------------------------------------------------
  // Merging a child entry
  // ---------------------------------------------------------------------------

  /** The lists of `src` appended, type by type, to those of `dest`. */
  function MergeGroups(dest: map<nat, seq<Attribute>>, src: map<nat, seq<Attribute>>): (r: map<nat, seq<Attribute>>)
    ensures r.Keys == dest.Keys + src.Keys
    ensures forall t :: GroupOf(r, t) == GroupOf(dest, t) + GroupOf(src, t)
  {
    map t | t in dest.Keys + src.Keys :: GroupOf(dest, t) + GroupOf(src, t)
  }

  lemma {:induction false} MergeGroupsOk(dest: map<nat, seq<Attribute>>, src: map<nat, seq<Attribute>>)
    requires GroupsOk(dest) && GroupsOk(src)
    ensures GroupsOk(MergeGroups(dest, src))
  {
    var m := MergeGroups(dest, src);
    forall t: nat | t in m ensures m[t] != [] {
      assert m[t] == GroupOf(dest, t) + GroupOf(src, t);
    }
    forall t: nat, a: Attribute | t in m && a in m[t]
      ensures t != DATA && a.header.attrTypeId == t && WellTyped(a)
    {
      assert a in GroupOf(m, t);
      if a in GroupOf(dest, t) {
        GroupMember(dest, t, a);
      } else {
        GroupMember(src, t, a);
      }
    }
    assert GroupsOk(m);
  }

  lemma {:induction false} GroupMember(attrs: map<nat, seq<Attribute>>, t: nat, a: Attribute)
    requires GroupsOk(attrs) && a in GroupOf(attrs, t)
    ensures t != DATA && a.header.attrTypeId == t && WellTyped(a)
  {
    assert t in attrs && a in attrs[t];
  }

  /** One stream of the child: merged into the stream of the same name, or appended. */
  function MergeStream(dest: seq<Stream>, s: Stream): (r: Result<seq<Stream>, StreamError>)
  {
    match FindStream(dest, s.name)
    case Some(i) =>
      var merged :- AddFrom(dest[i], s);
      Success(dest[i := merged])
    case None => Success(dest + [s])
  }

  /** The stream loop of `merge_entries`, in the child's order. */
  function MergeStreams(dest: seq<Stream>, src: seq<Stream>): (r: Result<seq<Stream>, StreamError>)
    decreases |src|
  {
    if src == [] then Success(dest)
    else
      var next :- MergeStream(dest, src[0]);
      MergeStreams(next, src[1..])
  }

  /** The names of the streams. */
  function NamesOf(ss: seq<Stream>): (r: set<Option<seq<Byte>>>)
    ensures forall i :: 0 <= i < |ss| ==> ss[i].name in r
    ensures forall n :: n in r ==> exists i :: 0 <= i < |ss| && ss[i].name == n
  {
    if ss == [] then {} else {ss[0].name} + NamesOf(ss[1..])
  }

  lemma {:induction false} MergeStreamOk(dest: seq<Stream>, s: Stream)
    requires StreamsOk(dest) && SortedFlagHolds(s) && MergeStream(dest, s).Success?
    ensures StreamsOk(MergeStream(dest, s).value)
    ensures NamesOf(MergeStream(dest, s).value) == NamesOf(dest) + {s.name}
  {
    var r := MergeStream(dest, s).value;
    match FindStream(dest, s.name)
    case Some(i) =>
      assert r == dest[i := AddFrom(dest[i], s).value];
      assert forall k :: 0 <= k < |r| ==> r[k].name == dest[k].name;
      NamesOfSameNames(r, dest);
    case None =>
      assert r == dest + [s];
      NamesOfSnoc(dest, s);
  }

  lemma {:induction false} NamesOfSameNames(a: seq<Stream>, b: seq<Stream>)
    requires |a| == |b| && forall k :: 0 <= k < |a| ==> a[k].name == b[k].name
    ensures NamesOf(a) == NamesOf(b)
  {
    forall n | n in NamesOf(a) ensures n in NamesOf(b) {
      var k :| 0 <= k < |a| && a[k].name == n;
    }
    forall n | n in NamesOf(b) ensures n in NamesOf(a) {
      var k :| 0 <= k < |b| && b[k].name == n;
    }
  }

  lemma {:induction false} NamesOfSnoc(a: seq<Stream>, s: Stream)
    ensures NamesOf(a + [s]) == NamesOf(a) + {s.name}
  {
    var r := a + [s];
    forall n | n in NamesOf(r) ensures n in NamesOf(a) + {s.name} {
      var k :| 0 <= k < |r| && r[k].name == n;
      if k < |a| { assert r[k] == a[k]; }
    }
    forall n | n in NamesOf(a) ensures n in NamesOf(r) {
      var k :| 0 <= k < |a| && a[k].name == n;
      assert r[k] == a[k];
    }
    assert r[|a|] == s;
  }

  /**
   * Merging keeps one stream per name, every stream of both entries has its name in
   * the result, and no stream claims a sort order it does not have.
   */
  lemma {:induction false} MergeStreamsOk(dest: seq<Stream>, src: seq<Stream>)
    requires StreamsOk(dest) && StreamsOk(src) && MergeStreams(dest, src).Success?
    ensures StreamsOk(MergeStreams(dest, src).value)
    ensures NamesOf(MergeStreams(dest, src).value) == NamesOf(dest) + NamesOf(src)
    decreases |src|
  {
    if src != [] {
      MergeStreamOk(dest, src[0]);
      var next := MergeStream(dest, src[0]).value;
      assert StreamsOk(src[1..]);
      MergeStreamsOk(next, src[1..]);
      assert NamesOf(src) == {src[0].name} + NamesOf(src[1..]);
    }
  }

  /** Some stream of `src` shares its name with a resident stream of `dest`. */
  ghost predicate ResidentClash(dest: seq<Stream>, src: seq<Stream>)
  {
    exists i, j :: 0 <= i < |dest| && 0 <= j < |src| && dest[i].name == src[j].name && IsResident(dest[i])
  }

  /**
   * Merging fails exactly when the child has a stream whose name is that of a resident
   * stream of the parent: `add_from_datastream` refuses to add to a resident stream.
   */
  lemma {:induction false} MergeStreamsFailure(dest: seq<Stream>, src: seq<Stream>)
    requires StreamsOk(dest) && StreamsOk(src)
    ensures MergeStreams(dest, src).Failure? <==> ResidentClash(dest, src)
    decreases |src|
  {
    if src == [] {
      return;
    }
    var s := src[0];
    var rest := src[1..];
    assert StreamsOk(rest);
    match FindStream(dest, s.name)
    case Some(i) =>
      if IsResident(dest[i]) {
        assert MergeStreams(dest, src).Failure?;
        assert dest[i].name == src[0].name;
      } else {
        MergeStreamOk(dest, s);
        var next := MergeStream(dest, s).value;
        MergeStreamsFailure(next, rest);
        assert MergeStreams(dest, src) == MergeStreams(next, rest);
        ClashAfterMerging(dest, src, i, next);
      }
    case None =>
      MergeStreamOk(dest, s);
      var next := MergeStream(dest, s).value;
      MergeStreamsFailure(next, rest);
      assert MergeStreams(dest, src) == MergeStreams(next, rest);
      ClashAfterAppending(dest, src, next);
  }

  lemma {:induction false} ClashAfterMerging(dest: seq<Stream>, src: seq<Stream>, i: nat, next: seq<Stream>)
    requires StreamsOk(dest) && src != []
    requires i < |dest| && dest[i].name == src[0].name && !IsResident(dest[i])
    requires |next| == |dest| && !IsResident(next[i])
    requires forall k :: 0 <= k < |dest| && k != i ==> next[k] == dest[k]
    ensures ResidentClash(next, src[1..]) <==> ResidentClash(dest, src)
  {
    if ResidentClash(next, src[1..]) {
      var a, b :| 0 <= a < |next| && 0 <= b < |src[1..]| && next[a].name == src[1..][b].name && IsResident(next[a]);
      assert dest[a].name == src[b + 1].name && IsResident(dest[a]);
    }
    if ResidentClash(dest, src) {
      var a, b :| 0 <= a < |dest| && 0 <= b < |src| && dest[a].name == src[b].name && IsResident(dest[a]);
      assert a != i;
      assert b != 0;
      assert next[a].name == src[1..][b - 1].name && IsResident(next[a]);
    }
  }

  lemma {:induction false} ClashAfterAppending(dest: seq<Stream>, src: seq<Stream>, next: seq<Stream>)
    requires StreamsOk(src) && src != [] && next == dest + [src[0]]
    requires forall k :: 0 <= k < |dest| ==> dest[k].name != src[0].name
    ensures ResidentClash(next, src[1..]) <==> ResidentClash(dest, src)
  {
    if ResidentClash(next, src[1..]) {
      var a, b :| 0 <= a < |next| && 0 <= b < |src[1..]| && next[a].name == src[1..][b].name && IsResident(next[a]);
      assert src[1..][b] == src[b + 1];
      assert a != |dest|;
      assert next[a] == dest[a];
    }
    if ResidentClash(dest, src) {
      var a, b :| 0 <= a < |dest| && 0 <= b < |src| && dest[a].name == src[b].name && IsResident(dest[a]);
      assert b != 0;
      assert next[a] == dest[a];
      assert next[a].name == src[1..][b - 1].name && IsResident(next[a]);
    }
  }

  lemma {:induction false} GroupAt(attrs: map<nat, seq<Attribute>>, t: nat)
    requires GroupsOk(attrs) && t in attrs
    ensures attrs[t] != [] && forall a :: a in attrs[t] ==> a.header.attrTypeId == t
  {
    forall a | a in attrs[t] ensures a.header.attrTypeId == t {
      GroupMember(attrs, t, a);
    }
  }

  /**
   * One more type `t` of the child merged: the parent's lists, with those of the types
   * already merged appended, now have the child's list for `t` appended too.
   */
  lemma {:induction false} MergeOneGroup(dest: map<nat, seq<Attribute>>, src: map<nat, seq<Attribute>>,
                                         todo: set<nat>, before: map<nat, seq<Attribute>>, t: nat)
    requires t in todo && todo <= src.Keys && src[t] != []
    requires before.Keys == dest.Keys + (src.Keys - todo)
    requires forall u :: GroupOf(before, u) == GroupOf(dest, u) + (if u !in todo then GroupOf(src, u) else [])
    ensures var after := before[t := GroupOf(before, t) + src[t]];
      && after.Keys == dest.Keys + (src.Keys - (todo - {t}))
      && forall u :: GroupOf(after, u) == GroupOf(dest, u) + (if u !in todo - {t} then GroupOf(src, u) else [])
  {
    var after := before[t := GroupOf(before, t) + src[t]];
    forall u ensures GroupOf(after, u) == GroupOf(dest, u) + (if u !in todo - {t} then GroupOf(src, u) else []) {
      if u == t {
        assert GroupOf(before, u) == GroupOf(dest, u);
      } else {
        assert GroupOf(after, u) == GroupOf(before, u);
      }
    }
  }

  /** With unique names, the name of the stream at `k` is not among those before it. */
  lemma {:induction false} UnseenName(ss: seq<Stream>, k: nat)
    requires StreamsOk(ss) && k < |ss|
    ensures ss[k].name !in NamesOf(ss[..k])
  {
    forall x | x in NamesOf(ss[..k]) ensures x != ss[k].name {
      var j :| 0 <= j < k && ss[..k][j].name == x;
      assert ss[..k][j] == ss[j];
    }
  }

  /** One more stream of the child merged. */
  lemma {:induction false} MergeStreamsStep(cur: seq<Stream>, src: seq<Stream>, k: nat)
    requires k < |src|
    ensures MergeStreams(cur, src[k..])
         == if MergeStream(cur, src[k]).Success? then MergeStreams(MergeStream(cur, src[k]).value, src[k + 1..])
            else Failure(MergeStream(cur, src[k]).error)
  {
    assert src[k..][0] == src[k] && src[k..][1..] == src[k + 1..];
  }

  /** Two attribute maps with the same types and the same list for each type are equal. */
  /** Adding to a list just set is setting the longer list. */
  lemma {:induction false} AddToUpdatedGroup(m: map<nat, seq<Attribute>>, t: nat, x: seq<Attribute>, a: Attribute)
    requires a.header.attrTypeId == t
    ensures AddToGroup(m[t := x], a) == m[t := x + [a]]
  {
    assert GroupOf(m[t := x], t) == x;
  }

  /** Adding item `k` of `list` to the group holding `list[..k]` leaves `list[..k + 1]` there. */
  lemma {:induction false} AddNextOfList(m: map<nat, seq<Attribute>>, t: nat, list: seq<Attribute>, k: nat)
    requires k < |list| && list[k].header.attrTypeId == t
    ensures AddToGroup(m[t := GroupOf(m, t) + list[..k]], list[k]) == m[t := GroupOf(m, t) + list[..k + 1]]
  {
    AddToUpdatedGroup(m, t, GroupOf(m, t) + list[..k], list[k]);
    assert list[..k + 1] == list[..k] + [list[k]];
    assert GroupOf(m, t) + list[..k] + [list[k]] == GroupOf(m, t) + list[..k + 1];
  }

  lemma {:induction false} SameGroups(m1: map<nat, seq<Attribute>>, m2: map<nat, seq<Attribute>>)
    requires m1.Keys == m2.Keys && forall t :: GroupOf(m1, t) == GroupOf(m2, t)
    ensures m1 == m2
  {
    forall t | t in m1 ensures m1[t] == m2[t] {
      assert GroupOf(m1, t) == GroupOf(m2, t);
    }
  }

  // ---------------------------------------------------------------------------
  // File-name selection
  // ---------------------------------------------------------------------------

  /** Every FILE_NAME attribute carries its decoded content and a 16-bit attribute id. */
  predicate FileNamesOk(attrs: map<nat, seq<Attribute>>)
  {
    && AllFileNames(GroupOf(attrs, FILE_NAME))
    && (forall a :: a in GroupOf(attrs, FILE_NAME) ==> a.header.attrId < 0x1_0000)
  }

  /** FILE_NAME is always resident, so every kept FILE_NAME attribute carries its content. */
  lemma {:induction false} FileNamesCarryContent(attrs: map<nat, seq<Attribute>>)
    requires GroupsOk(attrs)
    ensures FileNamesOk(attrs)
  {
    forall a | a in GroupOf(attrs, FILE_NAME) ensures IsFileName(a) && a.header.attrId < 0x1_0000 {
      GroupMember(attrs, FILE_NAME, a);
      assert FILE_NAME in ALWAYS_RESIDENT;
    }
  }

  // ---------------------------------------------------------------------------
  // The entry object
  // ---------------------------------------------------------------------------

  /** The states of a list of stream objects. */
  function StatesOf(ds: seq<Datastream>): (r: seq<Stream>)
    reads set d | d in ds
    ensures |r| == |ds| && forall i :: 0 <= i < |ds| ==> r[i] == ds[i].State()
  {
    if ds == [] then [] else [ds[0].State()] + StatesOf(ds[1..])
  }

  /** `MFTEntry` of libmft/api.py: a header, the attributes by type, and the data streams. */
  class MftEntry {
    var header: MftHeader
    var attrs: map<nat, seq<Attribute>>
    var dataStreams: seq<Datastream>

    function Streams(): seq<Stream>
      reads this, set d | d in dataStreams
    {
      StatesOf(dataStreams)
    }

    function Contents(): Loaded
      reads this, set d | d in dataStreams
    {
      Loaded(attrs, Streams())
    }

    predicate Valid()
      reads this, set d | d in dataStreams
    {
      LoadedOk(Contents())
    }

    /** `MFTEntry(header, {})`. */
    constructor(header: MftHeader)
      ensures this.header == header && Contents() == NOTHING_LOADED && Valid()
    {
      this.header := header;
      attrs := map[];
      dataStreams := [];
    }

    /** `_find_datastream`: the first stream object called `name`. */
    method FindDatastream(name: Option<seq<Byte>>) returns (r: Option<Datastream>)
      ensures r.Some? <==> FindStream(Streams(), name).Some?
      ensures r.Some? ==> r.value == dataStreams[FindStream(Streams(), name).value]
    {
      for i := 0 to |dataStreams|
        invariant forall j :: 0 <= j < i ==> dataStreams[j].name != name
      {
        if dataStreams[i].name == name {
          return Some(dataStreams[i]);
        }
      }
      return None;
    }

    /** `_add_attribute`: appended to the list of its type. */
    method AddAttribute(a: Attribute)
      modifies this
      ensures attrs == AddToGroup(old(attrs), a)
      ensures header == old(header) && dataStreams == old(dataStreams)
    {
      attrs := attrs[a.header.attrTypeId := GroupOf(attrs, a.header.attrTypeId) + [a]];
    }

    /** `_add_datastream`: the stream of the attribute's name, created at the end when missing, takes the attribute. */
    method AddDatastream(a: Attribute)
      requires Valid() && WellTyped(a) && a.header.attrTypeId == DATA
      modifies this, set d | d in dataStreams
      ensures Valid() && header == old(header) && attrs == old(attrs)
      ensures Streams() == AddToStreams(old(Streams()), a)
      ensures |dataStreams| >= |old(dataStreams)| && dataStreams[..|old(dataStreams)|] == old(dataStreams)
      ensures forall d :: d in dataStreams ==> d in old(dataStreams) || fresh(d)
    {
      var stream := FindDatastream(a.header.attrName);
      if stream.None? {
        AppendStream(a);
      } else {
        FeedStream(FindStream(Streams(), a.header.attrName).value, stream.value, a);
      }
    }

    /** No stream carries the name of `a`: a new one holding `a` goes at the end of the list. */
    method AppendStream(a: Attribute)
      requires Valid() && WellTyped(a) && a.header.attrTypeId == DATA
      requires FindStream(Streams(), a.header.attrName).None?
      modifies this
      ensures Valid() && header == old(header) && attrs == old(attrs)
      ensures Streams() == AddToStreams(old(Streams()), a)
      ensures |dataStreams| == |old(dataStreams)| + 1 && dataStreams[..|old(dataStreams)|] == old(dataStreams)
      ensures forall d :: d in dataStreams ==> d in old(dataStreams) || fresh(d)
    {
      var created := new Datastream(a.header.attrName);
      var _ := created.AddDataAttribute(a);
      dataStreams := dataStreams + [created];
      ghost var ss := Streams();
      assert ss[..|old(dataStreams)|] == old(Streams());
      assert ss == AddToStreams(old(Streams()), a);
      assert LoadedOk(Loaded(attrs, ss));
    }

    /** The stream at position `i` is the first one with the name of `a`; it takes `a`. */
    method FeedStream(i: nat, stream: Datastream, a: Attribute)
      requires Valid() && WellTyped(a) && a.header.attrTypeId == DATA
      requires FindStream(Streams(), a.header.attrName) == Some(i)
      requires i < |dataStreams| && dataStreams[i] == stream
      modifies stream
      ensures Valid()
      ensures Streams() == AddToStreams(old(Streams()), a)
    {
      ghost var before := Streams();
      assert forall j :: 0 <= j < |dataStreams| && j != i ==> dataStreams[j] != stream by {
        assert forall j :: 0 <= j < |dataStreams| && j != i ==> before[j].name != before[i].name;
      }
      var _ := stream.AddDataAttribute(a);
      ghost var ss := Streams();
      assert ss == before[i := stream.State()];
      assert ss == AddToStreams(before, a);
      assert LoadedOk(Loaded(attrs, ss));
    }

    /** The body of the `if attr_type in load_attrs` branch: the attribute goes to its list or its stream. */
    method Keep(a: Attribute)
      requires Valid() && WellTyped(a)
      modifies this, set d | d in dataStreams
      ensures Valid() && header == old(header)
      ensures Contents() == Route(old(Contents()), a)
      ensures forall d :: d in dataStreams ==> d in old(dataStreams) || fresh(d)
    {
      if a.header.attrTypeId != DATA {
        AddAttribute(a);
        RouteKeepsLoadedOk(old(Contents()), a);
      } else {
        AddDatastream(a);
      }
    }

    /**
     * `_load_attributes`: the walk over the attributes of `w`, the view that starts at
     * the first attribute, keeping those whose type is in `load`.
     */
    method LoadAttributes(load: set<nat>, w: seq<Byte>) returns (r: Result<(), EntryError>)
      requires Valid()
      modifies this, set d | d in dataStreams
      ensures Valid() && header == old(header)
      ensures r.Success? <==> Walk(w, 0, load, old(Contents())).Success?
      ensures r.Success? ==> Contents() == Walk(w, 0, load, old(Contents())).value
      ensures r.Failure? ==> r.error == Walk(w, 0, load, old(Contents())).error
      ensures forall d :: d in dataStreams ==> d in old(dataStreams) || fresh(d)
    {
      var offset := 0;
      while Clamp(w, offset, offset + 4) != END_MARKER
        invariant Valid() && header == old(header)
        invariant Walk(w, offset, load, Contents()) == Walk(w, 0, load, old(Contents()))
        invariant forall d :: d in dataStreams ==> d in old(dataStreams) || fresh(d)
        decreases if offset <= |w| then |w| - offset else 0
      {
        ghost var before := Contents();
        var next := LoadOne(w, offset, load);
        if next.Failure? {
          return Failure(next.error);
        }
        assert Walk(w, offset, load, before) == Walk(w, next.value, load, Contents());
        offset := next.value;
      }
      return Success(());
    }

    /** `Attribute.create_from_binary` on the view, and the attribute kept. */
    method LoadAttribute(v: seq<Byte>) returns (r: Result<(), EntryError>)
      requires Valid()
      modifies this, set d | d in dataStreams
      ensures Valid() && header == old(header)
      ensures r.Success? <==> Load(old(Contents()), v).Success?
      ensures r.Success? ==> Contents() == Load(old(Contents()), v).value
      ensures r.Failure? ==> r.error == Load(old(Contents()), v).error
      ensures forall d :: d in dataStreams ==> d in old(dataStreams) || fresh(d)
    {
      var a := CreateAttribute(v);
      if a.Failure? {
        return Failure(AttributeRejected(a.error));
      }
      Keep(a.value);
      return Success(());
    }

    /** One turn of the loop of `_load_attributes`: the offset of the next attribute. */
    method LoadOne(w: seq<Byte>, offset: nat, load: set<nat>) returns (r: Result<nat, EntryError>)
      requires Valid()
      modifies this, set d | d in dataStreams
      ensures Valid() && header == old(header)
      ensures StepAt(w, offset, load, old(Contents())) == if r.Success? then Success((r.value, Contents())) else Failure(r.error)
      ensures forall d :: d in dataStreams ==> d in old(dataStreams) || fresh(d)
    {
      var v := Clamp(w, offset, |w|);
      StepAtFails(w, offset, load, Contents());
      var info := GetAttrInfo(v);
      if info.Failure? {
        return Failure(AttributeRejected(info.error));
      }
      if info.value.attrType in load {
        var loaded := LoadAttribute(v);
        if loaded.Failure? {
          return Failure(loaded.error);
        }
      }
      if info.value.attrLen == 0 {
        return Failure(NoProgress(offset));
      }
      StepAtValue(w, offset, load, old(Contents()));
      return Success(offset + info.value.attrLen);
    }

    /**
     * `MFTEntry.create_from_binary`: the entry decoded from `data`, whose sectors are
     * repaired in place when the configuration asks for it. The entry number only feeds
     * a log message.
     */
    static method CreateFromBinary(config: MftConfig, data: array<Byte>, entryNumber: nat)
      returns (r: Result<MftEntry, EntryError>)
      modifies data
      ensures var spec := CreateEntry(config.ignoreSignatureCheck, config.applyFixupArray, config.loadAttrs, old(data[..]));
        && (r.Success? <==> spec.Success?)
        && (r.Failure? ==> r.error == spec.error)
        && (r.Success? ==> fresh(r.value) && r.value.Valid() && r.value.header == spec.value.0)
        && (r.Success? ==> r.value.Contents() == spec.value.1)
      ensures r.Success? ==> forall d :: d in r.value.dataStreams ==> fresh(d)
      ensures data[..] == BufferAfter(config.ignoreSignatureCheck, config.applyFixupArray, old(data[..]))
    {
      var sized := SizedHeader(config.ignoreSignatureCheck, data[..]);
      if sized.Failure? {
        return Failure(sized.error);
      }
      var h := sized.value;
      if config.applyFixupArray {
        var outcome := ApplyFixupArray(data, h.fxOffset, h.fxCount, h.entryAllocLen);
        if outcome != Applied {
          return Failure(FixupFailed(outcome));
        }
      }
      r := LoadNew(h, config.loadAttrs, Clamp(data[..], h.firstAttrOffset, data.Length));
    }

    /** `MFTEntry(header, {})` followed by `_load_attributes` over `w`. */
    static method LoadNew(h: MftHeader, load: set<nat>, w: seq<Byte>) returns (r: Result<MftEntry, EntryError>)
      ensures r.Success? <==> Walk(w, 0, load, NOTHING_LOADED).Success?
      ensures r.Failure? ==> r.error == Walk(w, 0, load, NOTHING_LOADED).error
      ensures r.Success? ==> fresh(r.value) && r.value.Valid() && r.value.header == h
      ensures r.Success? ==> r.value.Contents() == Walk(w, 0, load, NOTHING_LOADED).value
      ensures r.Success? ==> forall d :: d in r.value.dataStreams ==> fresh(d)
    {
      var entry := new MftEntry(h);
      var loaded := entry.LoadAttributes(load, w);
      if loaded.Failure? {
        return Failure(loaded.error);
      }
      return Success(entry);
    }

    /** The attribute half of `merge_entries`: every list of the child's `src` appended to the list of its type. */
    method MergeAttributes(src: map<nat, seq<Attribute>>)
      requires GroupsOk(src)
      modifies this
      ensures attrs == MergeGroups(old(attrs), src)
      ensures header == old(header) && dataStreams == old(dataStreams)
    {
      var types := src.Keys;
      while types != {}
        invariant types <= src.Keys
        invariant header == old(header) && dataStreams == old(dataStreams)
        invariant attrs.Keys == old(attrs).Keys + (src.Keys - types)
        invariant forall u :: GroupOf(attrs, u) == GroupOf(old(attrs), u) + (if u !in types then GroupOf(src, u) else [])
        decreases |types|
      {
        var t :| t in types;
        MergeType(src, t, old(attrs), types);
        types := types - {t};
      }
      SameGroups(attrs, MergeGroups(old(attrs), src));
    }

    /** One turn of the attribute loop of `merge_entries`: the child's list of type `t`. */
    method MergeType(src: map<nat, seq<Attribute>>, t: nat, ghost dest: map<nat, seq<Attribute>>, ghost todo: set<nat>)
      requires GroupsOk(src) && t in todo && todo <= src.Keys
      requires attrs.Keys == dest.Keys + (src.Keys - todo)
      requires forall u :: GroupOf(attrs, u) == GroupOf(dest, u) + (if u !in todo then GroupOf(src, u) else [])
      modifies this
      ensures header == old(header) && dataStreams == old(dataStreams)
      ensures attrs.Keys == dest.Keys + (src.Keys - (todo - {t}))
      ensures forall u :: GroupOf(attrs, u) == GroupOf(dest, u) + (if u !in todo - {t} then GroupOf(src, u) else [])
    {
      GroupAt(src, t);
      MergeOneGroup(dest, src, todo, attrs, t);
      AppendGroup(t, src[t]);
    }

    /** The inner loop of the attribute half of `merge_entries`: the list appended, attribute by attribute. */
    method AppendGroup(t: nat, list: seq<Attribute>)
      requires list != [] && forall a :: a in list ==> a.header.attrTypeId == t
      modifies this
      ensures attrs == old(attrs)[t := GroupOf(old(attrs), t) + list]
      ensures header == old(header) && dataStreams == old(dataStreams)
    {
      AddAttribute(list[0]);
      assert list[..1] == [list[0]];
      for k := 1 to |list|
        invariant header == old(header) && dataStreams == old(dataStreams)
        invariant attrs == old(attrs)[t := GroupOf(old(attrs), t) + list[..k]]
      {
        assert list[k] in list;
        AddAttribute(list[k]);
        AddNextOfList(old(attrs), t, list, k);
      }
      assert list[..|list|] == list;
    }

    /**
     * The stream half of `merge_entries` for one stream of the child: merged into the
     * parent's stream of its name, or the object itself appended. Only the first `n`
     * streams of the parent can carry its name.
     */
    method MergeStreamObject(stream: Datastream, ghost n: nat) returns (r: Result<(), StreamError>)
      requires StreamsOk(Streams()) && stream.Valid()
      requires n <= |dataStreams| && forall i :: n <= i < |dataStreams| ==> dataStreams[i].name != stream.name
      modifies this, set d | d in dataStreams[..n]
      ensures header == old(header) && attrs == old(attrs)
      ensures MergeStream(old(Streams()), old(stream.State())) == if r.Success? then Success(Streams()) else Failure(r.error)
      ensures r.Success? ==> StreamsOk(Streams())
      ensures dataStreams == old(dataStreams) || dataStreams == old(dataStreams) + [stream]
    {
      ghost var before := Streams();
      ghost var s := stream.State();
      var dest := FindDatastream(stream.name);
      if dest.Some? {
        var i := FindStream(Streams(), stream.name).value;
        r := MergeInto(i, dest.value, stream);
      } else {
        AppendStreamObject(stream);
        r := Success(());
      }
      if r.Success? {
        MergeStreamOk(before, s);
      }
    }

    /** The child's stream object itself goes at the end of this entry's streams. */
    method AppendStreamObject(stream: Datastream)
      modifies this
      ensures header == old(header) && attrs == old(attrs)
      ensures dataStreams == old(dataStreams) + [stream]
      ensures Streams() == old(Streams()) + [stream.State()]
    {
      dataStreams := dataStreams + [stream];
    }

    /** `add_from_datastream` on the stream at position `i`, which carries the name of `stream`. */
    method MergeInto(i: nat, dest: Datastream, stream: Datastream) returns (r: Result<(), StreamError>)
      requires StreamsOk(Streams()) && i < |dataStreams| && dataStreams[i] == dest && dest.name == stream.name
      modifies dest
      ensures r.Success? <==> AddFrom(old(Streams())[i], old(stream.State())).Success?
      ensures r.Failure? ==> r.error == AddFrom(old(Streams())[i], old(stream.State())).error
      ensures r.Success? ==> Streams() == old(Streams())[i := AddFrom(old(Streams())[i], old(stream.State())).value]
    {
      ghost var before := Streams();
      assert forall j :: 0 <= j < |dataStreams| && j != i ==> before[j].name != stream.name;
      r := dest.AddFromDatastream(stream);
      assert forall j :: 0 <= j < |dataStreams| && j != i ==> Streams()[j] == before[j];
    }

    /**
     * `merge_entries`: the child's attributes appended to this entry's lists, then each
     * stream of the child merged into this entry's stream of its name, or the child's
     * stream object itself appended. The two entries share no stream object.
     */
    method MergeEntries(source: MftEntry) returns (r: Result<(), StreamError>)
      requires source != this && Valid() && source.Valid()
      requires forall i, j :: 0 <= i < |dataStreams| && 0 <= j < |source.dataStreams| ==> dataStreams[i] != source.dataStreams[j]
      modifies this, set d | d in dataStreams
      ensures header == old(header) && attrs == MergeGroups(old(attrs), old(source.attrs))
      ensures r.Success? <==> MergeStreams(old(Streams()), old(source.Streams())).Success?
      ensures r.Success? ==> Valid() && Streams() == MergeStreams(old(Streams()), old(source.Streams())).value
      ensures r.Failure? ==> r.error == MergeStreams(old(Streams()), old(source.Streams())).error
      ensures forall d :: d in dataStreams ==> d in old(dataStreams) || d in old(source.dataStreams)
    {
      MergeAttributes(source.attrs);
      MergeGroupsOk(old(attrs), source.attrs);
      r := MergeAllStreams(source);
      if r.Success? {
        assert LoadedOk(Loaded(attrs, Streams()));
      }
    }

    /** The stream half of `merge_entries`: the child's streams, in order. */
    method MergeAllStreams(source: MftEntry) returns (r: Result<(), StreamError>)
      requires source != this && StreamsOk(Streams()) && StreamsOk(source.Streams())
      requires forall i, j :: 0 <= i < |dataStreams| && 0 <= j < |source.dataStreams| ==> dataStreams[i] != source.dataStreams[j]
      modifies this, set d | d in dataStreams
      ensures header == old(header) && attrs == old(attrs)
      ensures MergeStreams(old(Streams()), old(source.Streams())) == if r.Success? then Success(Streams()) else Failure(r.error)
      ensures r.Success? ==> StreamsOk(Streams())
      ensures forall d :: d in dataStreams ==> d in old(dataStreams) || d in old(source.dataStreams)
    {
      ghost var start, src := Streams(), source.Streams();
      ghost var n := |dataStreams|;
      var k := 0;
      while k < |source.dataStreams|
        invariant k <= |source.dataStreams| == |src|
        invariant forall j :: k <= j < |src| ==> source.dataStreams[j].State() == src[j]
        invariant header == old(header) && attrs == old(attrs)
        invariant StreamsOk(Streams())
        invariant MergeStreams(Streams(), src[k..]) == MergeStreams(start, src)
        invariant n <= |dataStreams| && dataStreams[..n] == old(dataStreams)
        invariant forall i :: n <= i < |dataStreams| ==> dataStreams[i].name in NamesOf(src[..k])
        invariant forall d :: d in dataStreams ==> d in old(dataStreams) || d in source.dataStreams
        decreases |source.dataStreams| - k
      {
        ghost var cur := Streams();
        MergeStreamsStep(cur, src, k);
        var merged := MergeStep(source, k, src, n);
        if merged.Failure? {
          return Failure(merged.error);
        }
        k := k + 1;
      }
      assert src[k..] == [];
      return Success(());
    }

    /** One turn of the stream loop of `merge_entries`: the child's stream at `k`. */
    method MergeStep(source: MftEntry, k: nat, ghost src: seq<Stream>, ghost n: nat) returns (r: Result<(), StreamError>)
      requires source != this && k < |source.dataStreams| == |src| && StreamsOk(src)
      requires forall j :: k <= j < |src| ==> source.dataStreams[j].State() == src[j]
      requires StreamsOk(Streams()) && n <= |dataStreams|
      requires forall j :: k <= j < |src| ==> source.dataStreams[j] !in dataStreams[..n]
      requires forall i :: n <= i < |dataStreams| ==> dataStreams[i].name in NamesOf(src[..k])
      modifies this, set d | d in dataStreams[..n]
      ensures header == old(header) && attrs == old(attrs)
      ensures n <= |dataStreams| && dataStreams[..n] == old(dataStreams[..n])
      ensures MergeStream(old(Streams()), src[k]) == if r.Success? then Success(Streams()) else Failure(r.error)
      ensures r.Success? ==> StreamsOk(Streams())
      ensures r.Success? ==> forall i :: n <= i < |dataStreams| ==> dataStreams[i].name in NamesOf(src[..k + 1])
      ensures forall j :: k < j < |src| ==> source.dataStreams[j].State() == src[j]
      ensures dataStreams == old(dataStreams) || dataStreams == old(dataStreams) + [source.dataStreams[k]]
    {
      var stream := source.dataStreams[k];
      UnseenName(src, k);
      r := MergeStreamObject(stream, n);
      assert src[..k + 1] == src[..k] + [src[k]];
      NamesOfSnoc(src[..k], src[k]);
      forall i | n <= i < |dataStreams| ensures dataStreams[i].name in NamesOf(src[..k + 1]) {
        if i == |old(dataStreams)| {
          assert dataStreams[i] == stream;
        } else {
          assert dataStreams[i] == old(dataStreams)[i];
        }
      }
    }

    /** `get_main_filename_attr`, by the two passes of the source over the FILE_NAME attributes. */
    method MainFilenameAttr() returns (r: Option<Attribute>)
      requires FileNamesOk(attrs)
      ensures r == MainFilename(GroupOf(attrs, FILE_NAME))
    {
      if FILE_NAME !in attrs {
        return None;
      }
      var g := attrs[FILE_NAME];
      var main := FirstLowestId(g);
      if main.None? {
        return None;
      }
      assert main.value in g;
      var best := BestWithParent(g, main.value);
      return Some(best);
    }

    /** `get_unique_filename_attrs`: the `control` dictionary built over the FILE_NAME attributes. */
    method UniqueFilenameAttrs() returns (r: Option<seq<Attribute>>)
      requires FileNamesOk(attrs)
      ensures r == UniqueFilenames(FILE_NAME in attrs, GroupOf(attrs, FILE_NAME))
    {
      if FILE_NAME !in attrs {
        return None;
      }
      var control := FillControl(attrs[FILE_NAME]);
      return Some(control);
    }
  }
}
