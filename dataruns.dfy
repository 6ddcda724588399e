/**
 * `DataRuns` of libmft/headers.py: the run list of a non-resident attribute.
 *
 * Each run starts with a header byte whose low nibble is the number of bytes of
 * the run length (little-endian, unsigned) and whose high nibble is the number of
 * bytes of the run offset (little-endian, two's complement). The offset is relative
 * to the previous non-sparse run; a high nibble of zero marks a sparse run, which has
 * no offset. A zero header byte ends the list.
 */
module DataRuns {
  import opened Wrappers
  import opened Bytes

  /** One run: its length in clusters and its absolute first cluster, `None` when sparse. */
  datatype DataRun = DataRun(length: nat, offset: Option<int>)

  /** Reading `runs_view[offset]` past the end raises IndexError: no terminator in the view. */
  datatype RunsError = MissingTerminator

  /** The decoder's state after one run: the run, the cursor and the running offset. */
  datatype Step = Step(run: DataRun, next: nat, prev: int)

  /** The running offset after `r`: a sparse run leaves it unchanged. */
  function NextPrev(r: DataRun, prev: int): int
  {
    if r.offset.Some? then r.offset.value else prev
  }

  /**
   * Decodes the run whose header byte is at `at`, `prev` being the absolute offset of
   * the previous non-sparse run. The fields are read through clamped slices, as
   * `int.from_bytes` on a memoryview slice does.
   */
  function DecodeRun(v: seq<Byte>, at: nat, prev: int): (s: Step)
    requires at < |v| && v[at] != 0
    ensures s.next == at + 1 + v[at] % 16 + v[at] / 16
    ensures s.run.offset.None? <==> v[at] / 16 == 0
    ensures s.prev == NextPrev(s.run, prev)
  {
    var header := v[at];
    var lengthLen, offsetLen := header % 16, header / 16;
    var t := at + 1 + lengthLen;
    var length := LeUintAt(v, at + 1, lengthLen);
    if offsetLen != 0 then
      var d := LeIntAt(v, t, offsetLen) + prev;
      Step(DataRun(length, Some(d)), t + offsetLen, d)
    else
      Step(DataRun(length, None), t, prev)
  }

  /** The runs from the header byte at `at` up to the terminating zero byte. */
  function DecodeRunsFrom(v: seq<Byte>, at: nat, prev: int): (r: Result<seq<DataRun>, RunsError>)
    decreases |v| - at
  {
    if at >= |v| then Failure(MissingTerminator)
    else if v[at] == 0 then Success([])
    else
      var s := DecodeRun(v, at, prev);
      var rest :- DecodeRunsFrom(v, s.next, s.prev);
      Success([s.run] + rest)
  }

  /** `acc` followed by the runs of `r`, or the failure of `r`. */
  function Prepend(acc: seq<DataRun>, r: Result<seq<DataRun>, RunsError>): Result<seq<DataRun>, RunsError>
  {
    if r.Success? then Success(acc + r.value) else r
  }

  /** One turn of the decoding loop: a non-zero header byte contributes one run. */
  lemma {:induction false} DecodeRunsStep(v: seq<Byte>, at: nat, prev: int, acc: seq<DataRun>)
    requires at < |v| && v[at] != 0
    ensures Prepend(acc, DecodeRunsFrom(v, at, prev))
         == Prepend(acc + [DecodeRun(v, at, prev).run],
                    DecodeRunsFrom(v, DecodeRun(v, at, prev).next, DecodeRun(v, at, prev).prev))
  {
    var s := DecodeRun(v, at, prev);
    var rest := DecodeRunsFrom(v, s.next, s.prev);
    if rest.Success? {
      assert acc + ([s.run] + rest.value) == acc + [s.run] + rest.value;
    }
  }

  /** The body of the decoding loop: reads the run at `offset` and moves past it. */
  method ReadRun(runsView: seq<Byte>, offset: nat, previousOffset: int) returns (run: DataRun, next: nat, prev: int)
    requires offset < |runsView| && runsView[offset] != 0
    ensures Step(run, next, prev) == DecodeRun(runsView, offset, previousOffset)
  {
    var header := runsView[offset];
    var lengthLen := header % 16;
    var offsetLen := header / 16;
    var t := offset + 1 + lengthLen;
    var length := LeUintAt(runsView, offset + 1, lengthLen);
    var runOffset: Option<int>;
    prev := previousOffset;
    if offsetLen != 0 {
      runOffset := Some(LeIntAt(runsView, t, offsetLen) + prev);
      prev := runOffset.value;
    } else {
      runOffset := None;
    }
    next := offset + 1 + lengthLen + offsetLen;
    run := DataRun(length, runOffset);
  }

  /** `DataRuns.__init__`: the decoding loop over the run-list view. */
  method DecodeRuns(runsView: seq<Byte>) returns (r: Result<seq<DataRun>, RunsError>)
    ensures r == DecodeRunsFrom(runsView, 0, 0)
  {
    var runs: seq<DataRun> := [];
    var offset: nat := 0;
    var previousOffset := 0;
    assert Prepend(runs, DecodeRunsFrom(runsView, offset, previousOffset)) == DecodeRunsFrom(runsView, 0, 0) by {
      if DecodeRunsFrom(runsView, 0, 0).Success? {
        assert [] + DecodeRunsFrom(runsView, 0, 0).value == DecodeRunsFrom(runsView, 0, 0).value;
      }
    }
    while offset < |runsView| && runsView[offset] != 0
      invariant DecodeRunsFrom(runsView, 0, 0) == Prepend(runs, DecodeRunsFrom(runsView, offset, previousOffset))
      decreases |runsView| - offset
    {
      DecodeRunsStep(runsView, offset, previousOffset, runs);
      var run;
      run, offset, previousOffset := ReadRun(runsView, offset, previousOffset);
      runs := runs + [run];
    }
    if offset >= |runsView| {
      return Failure(MissingTerminator);
    }
    assert runs + [] == runs;
    return Success(runs);
  }

  // ---------------------------------------------------------------------------
  // Where decoding succeeds
  // ---------------------------------------------------------------------------

  /** A view with no zero byte from `at` on has no terminator: decoding fails. */
  lemma {:induction false} NoTerminatorFails(v: seq<Byte>, at: nat, prev: int)
    requires forall k :: at <= k < |v| ==> v[k] != 0
    ensures DecodeRunsFrom(v, at, prev) == Failure(MissingTerminator)
    decreases |v| - at
  {
    if at < |v| {
      var s := DecodeRun(v, at, prev);
      NoTerminatorFails(v, s.next, s.prev);
    }
  }

  /** A successful decoding met a zero header byte, after one header per run. */
  lemma {:induction false} SuccessHasTerminator(v: seq<Byte>, at: nat, prev: int)
    requires DecodeRunsFrom(v, at, prev).Success?
    ensures exists k :: at + |DecodeRunsFrom(v, at, prev).value| <= k < |v| && v[k] == 0
    decreases |v| - at
  {
    if v[at] != 0 {
      var s := DecodeRun(v, at, prev);
      SuccessHasTerminator(v, s.next, s.prev);
      var n := |DecodeRunsFrom(v, s.next, s.prev).value|;
      var k :| s.next + n <= k < |v| && v[k] == 0;
      assert at + (n + 1) <= k;
    }
  }

  // ---------------------------------------------------------------------------
  // The encoder: the inverse of the decoder
  // ---------------------------------------------------------------------------

  /** Both fields of `r` fit the fifteen bytes a nibble can count. */
  predicate RunFits(r: DataRun, prev: int)
  {
    && UintWidth(r.length) <= 15
    && (r.offset.Some? ==> IntWidth(r.offset.value - prev) <= 15)
  }

  /** The runs that fit: lengths below `256^15`, relative offsets in the 15-byte two's complement range. */
  lemma {:induction false} RunFitsBounds(r: DataRun, prev: int)
    requires r.length < Pow256(15)
    requires r.offset.Some? ==> -128 * Pow256(14) <= r.offset.value - prev < 128 * Pow256(14)
    ensures RunFits(r, prev)
  {
    UintWidthAtMost(r.length, 15);
    if r.offset.Some? {
      IntWidthAtMost(r.offset.value - prev, 15);
    }
  }

  predicate AllFit(runs: seq<DataRun>, prev: int)
    decreases |runs|
  {
    |runs| == 0 || (RunFits(runs[0], prev) && AllFit(runs[1..], NextPrev(runs[0], prev)))
  }

  /** The length field of a run: the fewest bytes that hold the length. */
  function LengthField(length: nat): (b: seq<Byte>)
    ensures |b| == UintWidth(length)
  {
    EncodeUint(length, UintWidth(length))
  }

  /** The offset field of a run: the fewest bytes that hold the relative offset, none when sparse. */
  function OffsetField(r: DataRun, prev: int): (b: seq<Byte>)
    ensures r.offset.None? ==> b == []
    ensures r.offset.Some? ==> |b| == IntWidth(r.offset.value - prev)
  {
    if r.offset.Some? then EncodeInt(r.offset.value - prev, IntWidth(r.offset.value - prev)) else []
  }

  /** The bytes of one run: header byte, length field, offset field. */
  function EncodeRun(r: DataRun, prev: int): (b: seq<Byte>)
    requires RunFits(r, prev)
    ensures 2 <= |b| && b[0] != 0
  {
    [|LengthField(r.length)| + 16 * |OffsetField(r, prev)|] + LengthField(r.length) + OffsetField(r, prev)
  }

  /** The run list of `runs` with its terminating zero byte. */
  function EncodeRuns(runs: seq<DataRun>, prev: int): (b: seq<Byte>)
    requires AllFit(runs, prev)
    ensures |b| >= 1
    decreases |runs|
  {
    if |runs| == 0 then [0]
    else EncodeRun(runs[0], prev) + EncodeRuns(runs[1..], NextPrev(runs[0], prev))
  }

  /** The two nibbles of a header byte. */
  lemma {:induction false} Nibbles(low: nat, high: nat)
    requires low < 16 && high < 16
    ensures (low + 16 * high) % 16 == low && (low + 16 * high) / 16 == high
  {
  }

  /** A header byte with nibbles `ll` (low) and `ol` (high) makes the run's fields `ll` and `ol` bytes long. */
  lemma {:induction false} DecodeRunFields(v: seq<Byte>, at: nat, prev: int, ll: nat, ol: nat)
    requires at < |v| && v[at] != 0 && v[at] % 16 == ll && v[at] / 16 == ol
    ensures DecodeRun(v, at, prev).next == at + 1 + ll + ol
    ensures DecodeRun(v, at, prev).run.length == LeUintAt(v, at + 1, ll)
    ensures DecodeRun(v, at, prev).run.offset
         == if ol == 0 then None else Some(LeIntAt(v, at + 1 + ll, ol) + prev)
  {
  }

  /** Where the header byte and the two fields of an encoded run sit in the view. */
  lemma {:induction false} EncodedFields(v: seq<Byte>, at: nat, r: DataRun, prev: int)
    requires RunFits(r, prev) && At(v, at, EncodeRun(r, prev))
    ensures var ll, ol := |LengthField(r.length)|, |OffsetField(r, prev)|;
      && |EncodeRun(r, prev)| == 1 + ll + ol
      && at < |v| && v[at] != 0 && v[at] % 16 == ll && v[at] / 16 == ol
      && At(v, at + 1, LengthField(r.length))
      && At(v, at + 1 + ll, OffsetField(r, prev))
  {
    var lengthBytes, offsetBytes := LengthField(r.length), OffsetField(r, prev);
    var ll, ol := |lengthBytes|, |offsetBytes|;
    var h: Byte := ll + 16 * ol;
    AtSplit(v, at, [h] + lengthBytes, offsetBytes);
    AtSplit(v, at, [h], lengthBytes);
    assert v[at + 0] == [h][0];
    Nibbles(ll, ol);
  }

  /** The length field reads back as the length. */
  lemma {:induction false} LengthDecodes(v: seq<Byte>, from: nat, length: nat)
    requires At(v, from, LengthField(length))
    ensures LeUintAt(v, from, |LengthField(length)|) == length
  {
    LeUintAtEncoded(v, from, LengthField(length));
    LeUintEncodeUint(length, UintWidth(length));
  }

  /** The offset field reads back as the offset relative to the previous run. */
  lemma {:induction false} OffsetDecodes(v: seq<Byte>, from: nat, r: DataRun, prev: int)
    requires r.offset.Some? && At(v, from, OffsetField(r, prev))
    ensures LeIntAt(v, from, |OffsetField(r, prev)|) + prev == r.offset.value
  {
    LeIntAtEncoded(v, from, OffsetField(r, prev));
    LeIntEncodeInt(r.offset.value - prev, IntWidth(r.offset.value - prev));
  }

  /** Decoding an encoded run, wherever it sits in the view, gives the run back. */
  lemma {:induction false} DecodeEncodeRun(v: seq<Byte>, at: nat, r: DataRun, prev: int)
    requires RunFits(r, prev) && At(v, at, EncodeRun(r, prev))
    ensures at < |v| && v[at] != 0
    ensures DecodeRun(v, at, prev) == Step(r, at + |EncodeRun(r, prev)|, NextPrev(r, prev))
  {
    EncodedFields(v, at, r, prev);
    LengthDecodes(v, at + 1, r.length);
    if r.offset.Some? {
      OffsetDecodes(v, at + 1 + |LengthField(r.length)|, r, prev);
    }
    DecodeRunFields(v, at, prev, |LengthField(r.length)|, |OffsetField(r, prev)|);
  }

  /** A non-zero header byte followed by a decodable list decodes to one more run. */
  lemma {:induction false} DecodeRunsCons(v: seq<Byte>, at: nat, prev: int, runs: seq<DataRun>)
    requires at < |v| && v[at] != 0
    requires DecodeRunsFrom(v, DecodeRun(v, at, prev).next, DecodeRun(v, at, prev).prev) == Success(runs)
    ensures DecodeRunsFrom(v, at, prev) == Success([DecodeRun(v, at, prev).run] + runs)
  {
  }

  /** The decoder inverts the encoder, wherever the run list sits in the view and whatever follows it. */
  lemma {:induction false} DecodeEncodeRuns(v: seq<Byte>, at: nat, runs: seq<DataRun>, prev: int)
    requires AllFit(runs, prev) && At(v, at, EncodeRuns(runs, prev))
    ensures DecodeRunsFrom(v, at, prev) == Success(runs)
    decreases |runs|
  {
    if |runs| == 0 {
      assert EncodeRuns(runs, prev) == [0];
    } else {
      EncodedRunsSplit(v, at, runs, prev);
      DecodeEncodeRuns(v, at + |EncodeRun(runs[0], prev)|, runs[1..], NextPrev(runs[0], prev));
      DecodeEncodedCons(v, at, runs[0], prev, runs[1..]);
      assert runs == [runs[0]] + runs[1..];
    }
  }

  /** An encoded run list is its first run followed by the encoding of the others. */
  lemma {:induction false} EncodedRunsSplit(v: seq<Byte>, at: nat, runs: seq<DataRun>, prev: int)
    requires |runs| > 0 && AllFit(runs, prev) && At(v, at, EncodeRuns(runs, prev))
    ensures RunFits(runs[0], prev) && AllFit(runs[1..], NextPrev(runs[0], prev))
    ensures At(v, at, EncodeRun(runs[0], prev))
    ensures At(v, at + |EncodeRun(runs[0], prev)|, EncodeRuns(runs[1..], NextPrev(runs[0], prev)))
  {
    AtSplit(v, at, EncodeRun(runs[0], prev), EncodeRuns(runs[1..], NextPrev(runs[0], prev)));
  }

  /** An encoded run followed by a decodable list decodes to that run and the list. */
  lemma {:induction false} DecodeEncodedCons(v: seq<Byte>, at: nat, r: DataRun, prev: int, rest: seq<DataRun>)
    requires RunFits(r, prev) && At(v, at, EncodeRun(r, prev))
    requires DecodeRunsFrom(v, at + |EncodeRun(r, prev)|, NextPrev(r, prev)) == Success(rest)
    ensures DecodeRunsFrom(v, at, prev) == Success([r] + rest)
  {
    DecodeEncodeRun(v, at, r, prev);
    DecodeRunsCons(v, at, prev, rest);
  }

  /** What the source's decoder does with an encoded run list: it gives back the runs. */
  lemma {:induction false} RoundTrip(runs: seq<DataRun>, rest: seq<Byte>)
    requires AllFit(runs, 0)
    ensures DecodeRunsFrom(EncodeRuns(runs, 0) + rest, 0, 0) == Success(runs)
  {
    var e := EncodeRuns(runs, 0);
    AtPrefix(e, rest);
    DecodeEncodeRuns(e + rest, 0, runs, 0);
  }
}
