/** The decode session: buffers and flow state kept in step with what the bytes so far come to. */
module PlanSession {
  import opened Common
  import opened Bytes
  import opened MsgPack
  import opened PlanWire
  import opened PlanTree
  import opened PlanBuffers
  import opened PlanDecoder
  import PlanEncoder

  // ---- The flow table ------------------------------------------------------------------------

  datatype DecodeState =
    | Start | Failed | EnvelopeArrayLen | Magic | Version | ScanSpecsArrayLen | ScanSpecs | LogicalPlanBinLen
    | LogicalPlanBin
    | BuildLogicalPlan | AwaitEof | Closed

  datatype DecodeEvent =
    | Begin | Fail | Eof | AtomDecoded | ScanSpecsStarted | ScanSpecDecoded | ScanSpecsFinished | LogicalPlanDecoded
    | LogicalPlanBuilt

  function DecodeFlow(s: DecodeState, e: DecodeEvent): Option<DecodeState> {
    match (s, e)
    case (Failed, _) => None
    case (Closed, _) => None
    case (_, Fail) => Some(Failed)
    case (AwaitEof, Eof) => Some(Closed)
    case (_, Eof) => Some(Failed)
    case (Start, Begin) => Some(EnvelopeArrayLen)
    case (EnvelopeArrayLen, AtomDecoded) => Some(Magic)
    case (Magic, AtomDecoded) => Some(Version)
    case (Version, AtomDecoded) => Some(ScanSpecsArrayLen)
    case (ScanSpecsArrayLen, ScanSpecsStarted) => Some(ScanSpecs)
    case (ScanSpecsArrayLen, ScanSpecsFinished) => Some(LogicalPlanBinLen)
    case (ScanSpecs, ScanSpecDecoded) => Some(ScanSpecs)
    case (ScanSpecs, ScanSpecsFinished) => Some(LogicalPlanBinLen)
    case (LogicalPlanBinLen, AtomDecoded) => Some(LogicalPlanBin)
    case (LogicalPlanBin, LogicalPlanDecoded) => Some(BuildLogicalPlan)
    case (BuildLogicalPlan, LogicalPlanBuilt) => Some(AwaitEof)
    case _ => None
  }

  /** What one turn of the decode loop comes to. */
  datatype Moved = Waiting | Onward | Stopped(error: DecodeError)

  // ---- The session ------------------------------------------------------------------------------

  class DecodeSession {
    const codec: PlanCodec
    var machine: DecodeState
    var controlBuf: seq<byte>
    var specsRemaining: nat
    var specs: Table
    var planLen: nat
    var received: nat
    var segments: seq<seq<byte>>
    var skeleton: Option<Skeleton>
    var ready: Option<Plan>
    var finished: bool
    var failed: Option<DecodeError>
    ghost var input: seq<byte>      // every byte taken in

    /** The buffers fit the state. */
    ghost predicate Shape()
      reads this
    {
      && NoneEmpty(segments) && received == |Flat(segments)|
      && (!machine.LogicalPlanBin? ==> segments == []) && (machine.LogicalPlanBin? ==> received <= planLen)
      && (machine.ScanSpecs? ==> specsRemaining > 0)
      && (machine.BuildLogicalPlan? <==> skeleton.Some?) && (machine.AwaitEof? <==> ready.Some?)
    }

    /** What the fields amount to while the session is live. */
    ghost function Now(): Progress
      requires Shape() && !machine.Failed? && !machine.Closed?
      reads this
    {
      Progress(
        match machine
        case Start => EnvelopeDue
        case EnvelopeArrayLen => EnvelopeDue
        case Magic => MagicDue
        case Version => VersionDue
        case ScanSpecsArrayLen => SpecsDue
        case ScanSpecs => SpecDue(specsRemaining)
        case LogicalPlanBinLen => PlanLenDue
        case LogicalPlanBin => PlanDue(planLen)
        case BuildLogicalPlan => Building(skeleton.value)
        case AwaitEof => Ready(ready.value),
        specs, Flat(segments) + controlBuf)
    }

    ghost predicate Live()
      reads this
    {
      Shape() && !machine.Failed? && !machine.Closed? && failed.None? && !finished
    }

    /**
     * A live session is where its input leads, a failed one failed as its input does or at its end, a finished one was
     * ready.
     */
    ghost predicate Valid()
      reads this
    {
      var end := Drive(codec, Feed(FRESH, input));
      if finished then machine.Closed? && failed.None? && end.stage.Ready?
      else if failed.Some? then machine.Failed? && Verdict(codec, input) == Refused(failed.value)
      else Live() && Now() == end
    }

    constructor (codec: PlanCodec)
      ensures Valid() && Live() && input == [] && this.codec == codec
    {
      this.codec := codec;
      machine, controlBuf, specsRemaining, specs, planLen, received, segments := Start, [], 0, map[], 0, 0, [];
      skeleton, ready, finished, failed, input := None, None, false, None, [];
      new;
      Untouched(codec);
    }

    /** `drain_control_into_logical_plan_segments`: buffered bytes move over, in order, as far as the payload goes. */
    method DrainControl()
      requires Live() && machine.LogicalPlanBin?
      modifies this`controlBuf, this`segments, this`received
      ensures Live() && Now() == old(Now()) && (received == planLen || controlBuf == [])
    {
      var needed := planLen - received;
      var take := if needed < |controlBuf| then needed else |controlBuf|;
      if take == 0 { return; }
      FlatAppend(segments, controlBuf[..take]);
      Joined(Flat(segments), controlBuf[..take], controlBuf[take..]);
      assert controlBuf[..take] + controlBuf[take..] == controlBuf;
      segments, received := segments + [controlBuf[..take]], received + take;
      controlBuf := controlBuf[take..];
    }

    /** `buffer_decode_chunk`: the chunk goes behind everything buffered, its payload part straight to the segments. */
    method BufferChunk(chunk: seq<byte>)
      requires Live()
      modifies this`controlBuf, this`segments, this`received
      ensures Live() && Now() == Feed(old(Now()), chunk)
    {
      if chunk == [] {
        assert controlBuf + chunk == controlBuf;
        return;
      }
      ghost var before := Flat(segments) + controlBuf;
      if machine.LogicalPlanBin? {
        DrainControl();
        var needed := planLen - received;
        var take := if needed < |chunk| then needed else |chunk|;
        if needed > 0 {
          FlatAppend(segments, chunk[..take]);
          Joined(Flat(segments), chunk[..take], chunk[take..]);
          assert Flat(segments) + [] == Flat(segments) && chunk[..take] + chunk[take..] == chunk;
          segments, received := segments + [chunk[..take]], received + take;
          controlBuf := chunk[take..];
          return;
        }
      }
      Joined(Flat(segments), controlBuf, chunk);
      controlBuf := controlBuf + chunk;
    }

    /** The states that read one MessagePack item from the control buffer. */
    method ReadControl() returns (r: Moved)
      requires Live()
               && (machine.EnvelopeArrayLen? || machine.Magic? || machine.Version? || machine.ScanSpecsArrayLen?
                   || machine.LogicalPlanBinLen?)
      modifies this`machine, this`controlBuf, this`specsRemaining, this`planLen
      ensures Outcome(r, old(Now()))
    {
      hide Read, ReadText, ReadSpec, AfterBuild, AfterPlan;
      assert Flat(segments) + controlBuf == controlBuf;
      if machine.Magic? {
        var text := ReadText(codec.wire, controlBuf);
        if text.More? { return Waiting; }
        if text.Bad? { return Stopped(Wire(text.error)); }
        if text.value != PlanEncoder.MAGIC { return Stopped(InvalidMagic); }
        controlBuf, machine := text.rest, DecodeFlow(machine, AtomDecoded).value;
        assert Flat(segments) + controlBuf == controlBuf;
        return Onward;
      }
      var family := if machine.Version? then U8 else if machine.LogicalPlanBinLen? then BinLen else ArrayLen;
      var n := Read(family, controlBuf);
      if n.More? { return Waiting; }
      if n.Bad? { return Stopped(Wire(n.error)); }
      if machine.EnvelopeArrayLen? && n.value != PlanEncoder.ENVELOPE_TAG { return Stopped(InvalidEnvelope); }
      if machine.Version? && n.value != PlanEncoder.VERSION { return Stopped(UnsupportedVersion); }
      controlBuf := n.rest;
      assert Flat(segments) + controlBuf == controlBuf;
      if machine.ScanSpecsArrayLen? {
        specsRemaining, machine := n.value,
            DecodeFlow(machine, if n.value == 0 then ScanSpecsFinished else ScanSpecsStarted).value;
      } else {
        if machine.LogicalPlanBinLen? { planLen := n.value; }
        machine := DecodeFlow(machine, AtomDecoded).value;
      }
      r := Onward;
    }

    /** The next spec goes into the table, unless its id is there already. */
    method ReadOneSpec() returns (r: Moved)
      requires Live() && machine.ScanSpecs?
      modifies this`machine, this`controlBuf, this`specsRemaining, this`specs
      ensures Outcome(r, old(Now()))
    {
      hide Read, ReadText, ReadSpec, AfterBuild, AfterPlan;
      assert Flat(segments) + controlBuf == controlBuf;
      var spec := ReadSpec(codec.wire, controlBuf);
      if spec.More? { return Waiting; }
      if spec.Bad? { return Stopped(Wire(spec.error)); }
      var duplicate := spec.value.scanId in specs;
      specs := specs[spec.value.scanId := spec.value];
      if duplicate { return Stopped(DuplicateScanId); }
      controlBuf, specsRemaining := spec.rest, specsRemaining - 1;
      machine := DecodeFlow(machine, if specsRemaining == 0 then ScanSpecsFinished else ScanSpecDecoded).value;
      assert Flat(segments) + controlBuf == controlBuf;
      r := Onward;
    }

    /** The plan payload is decoded once all its segments are there. */
    method ReadPayload() returns (r: Moved)
      requires Live() && machine.LogicalPlanBin?
      modifies this`machine, this`controlBuf, this`segments, this`received, this`skeleton
      ensures Outcome(r, old(Now()))
    {
      hide Step;
      DrainControl();
      ghost var before := Now();
      PayloadStep(codec, before);
      if received < planLen { return Waiting; }
      var payload := Gather(segments);
      assert before.buf[..planLen] == payload && before.buf[planLen..] == controlBuf;
      var decoded := codec.skeleton(payload);
      if decoded.None? { return Stopped(PlanProtobuf); }
      skeleton, segments, received := decoded, [], 0;
      machine := DecodeFlow(machine, LogicalPlanDecoded).value;
      assert Flat(segments) + controlBuf == controlBuf;
      r := Onward;
    }

    /** The plan is put together from the payload and the table, and nothing may follow it. */
    method BuildPlan() returns (r: Moved)
      requires Live() && machine.BuildLogicalPlan?
      modifies this`machine, this`skeleton, this`ready
      ensures Outcome(r, old(Now()))
    {
      hide Rebuild, Used;
      assert Flat(segments) + controlBuf == controlBuf;
      var built := Rebuild(skeleton.value, specs);
      skeleton := None;
      if built.None? { return Stopped(MissingScanSpec); }
      if exists k :: k in specs && k !in Used(built.value) { return Stopped(OrphanScanSpec); }
      if controlBuf != [] { return Stopped(TrailingBytes); }
      ready, machine := built, DecodeFlow(machine, LogicalPlanBuilt).value;
      r := Onward;
    }

    /** What handling one state leaves behind, against the step the bytes call for. */
    ghost predicate Outcome(r: Moved, before: Progress)
      reads this
    {
      match r
      case Waiting => Live() && Now() == before && Step(codec, before).None?
      case Onward => Live() && !machine.Start? && Step(codec, before) == Some(Now())
      case Stopped(error) =>
        Step(codec, before) == Some(Break(error)) && !machine.Failed? && !machine.Closed? && !machine.AwaitEof?
    }

    /** One turn of the loop in `drive_decode`. */
    method Turn() returns (r: Moved)
      requires Live() && !machine.Start? && !machine.AwaitEof?
      modifies this`machine, this`controlBuf, this`specsRemaining, this`specs, this`planLen, this`received,
               this`segments, this`skeleton, this`ready
      ensures Outcome(r, old(Now()))
    {
      hide Step, Outcome;
      if machine.ScanSpecs? {
        r := ReadOneSpec();
      } else if machine.LogicalPlanBin? {
        r := ReadPayload();
      } else if machine.BuildLogicalPlan? {
        r := BuildPlan();
      } else {
        r := ReadControl();
      }
    }

    /** What driving leaves behind, against where the bytes lead. */
    ghost predicate Driven(r: DecodeProgress, eof: bool, target: Progress)
      reads this
    {
      match r
      case NeedMoreInput => !eof && Live() && Now() == target && !target.stage.Broken?
      case Done(plan) => eof && finished && machine.Closed? && failed.None? && target.stage == Ready(plan)
      case Refused(error) =>
        && !machine.Failed? && !machine.Closed? && (error.UnexpectedEof? ==> !machine.AwaitEof?)
        && (target.stage == Broken(error)
            || (eof && error.UnexpectedEof? && !target.stage.Ready? && !target.stage.Broken?))
    }

    /** With the plan ready, only the end of input may come. */
    method AtBoundary(eof: bool, ghost target: Progress) returns (r: DecodeProgress)
      requires Live() && machine.AwaitEof? && Drive(codec, Now()) == target
      modifies this`machine, this`ready, this`finished
      ensures Driven(r, eof, target) && (!r.Done? ==> finished == old(finished))
    {
      hide Step, Drive;
      assert Flat(segments) + controlBuf == controlBuf;
      ReadyStep(codec, Now());
      if controlBuf != [] {
        DriveStep(codec, Now());
        DriveBroken(codec, TrailingBytes);
        return Refused(TrailingBytes);
      }
      DriveStops(codec, Now());
      if !eof { return NeedMoreInput; }
      machine, finished := DecodeFlow(machine, Eof).value, true;
      r := Done(ready.value);
      ready := None;
    }

    /** `drive_decode`. */
    method DriveDecode(eof: bool) returns (r: DecodeProgress)
      requires Live()
      modifies this`machine, this`controlBuf, this`specsRemaining, this`specs, this`planLen, this`received,
               this`segments, this`skeleton, this`ready, this`finished
      ensures Driven(r, eof, Drive(codec, old(Now())))
      ensures !r.Done? ==> finished == old(finished)
    {
      hide Step, Drive;
      ghost var target := Drive(codec, Now());
      if machine.Start? { machine := DecodeFlow(machine, Begin).value; }
      while !machine.AwaitEof?
        invariant Live() && !machine.Start? && Drive(codec, Now()) == target
        decreases |Now().buf|, Rank(Now().stage)
      {
        ghost var before := Now();
        var moved := Turn();
        match moved
        case Waiting =>
          DriveStops(codec, before);
          return if eof then Refused(UnexpectedEof) else NeedMoreInput;
        case Onward =>
          StepFalls(codec, before);
          DriveStep(codec, before);
        case Stopped(error) =>
          DriveStep(codec, before);
          DriveBroken(codec, error);
          return Refused(error);
      }
      r := AtBoundary(eof, target);
    }

    /** `poison_decode`. */
    method Poison(error: DecodeError)
      requires !machine.Failed? && !machine.Closed? && (error.UnexpectedEof? ==> !machine.AwaitEof?)
      modifies this`machine, this`failed
      ensures machine.Failed? && failed == Some(error)
    {
      failed := Some(error);
      machine := DecodeFlow(machine, if error.UnexpectedEof? then Eof else Fail).value;
    }

    /**
     * `push_chunk`: the verdict on everything taken in so far, never a plan. A failed or finished session takes nothing
     * in and stays as it is.
     */
    method PushChunk(chunk: seq<byte>) returns (r: DecodeProgress)
      requires Valid()
      modifies this
      ensures Valid() && !r.Done?
      ensures old(failed).Some? ==>
                r == Refused(SessionFailed(old(failed).value)) && failed == old(failed) && input == old(input)
      ensures old(finished) ==> r == Refused(AlreadyFinished) && finished && input == old(input)
      ensures !old(finished) && old(failed).None? ==> input == old(input) + chunk && !finished
      ensures !old(finished) && old(failed).None? ==>
                if failed.Some? then r == Refused(failed.value)
                    && Drive(codec, Feed(FRESH, input)).stage == Broken(failed.value)
                else r.NeedMoreInput? && !Drive(codec, Feed(FRESH, input)).stage.Broken?
    {
      hide Step, Drive;
      if failed.Some? { return Refused(SessionFailed(failed.value)); }
      if finished { return Refused(AlreadyFinished); }
      FeedMore(codec, input, chunk);
      BufferChunk(chunk);
      input := input + chunk;
      r := DriveDecode(false);
      if r.Refused? { Poison(r.error); }
    }

    /** `finish_input`: the plan if the input was a whole envelope, and the reason if it was not. */
    method FinishInput() returns (r: DecodeProgress)
      requires Valid()
      modifies this
      ensures Valid() && input == old(input)
      ensures old(failed).Some? ==> r == Refused(SessionFailed(old(failed).value)) && failed == old(failed)
      ensures old(finished) ==> r == Refused(AlreadyFinished) && finished
      ensures !old(finished) && old(failed).None? ==> r == Verdict(codec, input)
      ensures !old(finished) && old(failed).None? ==> if r.Done? then finished else failed == Some(r.error)
    {
      hide Step, Drive;
      if failed.Some? { return Refused(SessionFailed(failed.value)); }
      if finished { return Refused(AlreadyFinished); }
      DriveAgain(codec, Feed(FRESH, input));
      r := DriveDecode(true);
      if r.Refused? { Poison(r.error); }
    }
  }

  lemma Untouched(codec: PlanCodec)
    ensures Drive(codec, Feed(FRESH, [])) == FRESH && Flat([]) + [] == []
  {
    hide Drive;
    assert Feed(FRESH, []) == FRESH;
    assert Step(codec, FRESH).None?;
    DriveStops(codec, FRESH);
  }

  /** The payload as the protobuf decoder sees it. */
  method Gather(segments: seq<seq<byte>>) returns (payload: seq<byte>)
    requires NoneEmpty(segments)
    ensures payload == Flat(segments)
  {
    var source := new SegmentedSource(segments);
    payload := source.ReadAll();
  }

  lemma PayloadStep(codec: PlanCodec, p: Progress)
    requires p.stage.PlanDue?
    ensures Step(codec, p) == if |p.buf| < p.stage.len then None
            else Some(AfterPlan(codec, p.table, p.buf[..p.stage.len], p.buf[p.stage.len..]))
  {
  }

  lemma ReadyStep(codec: PlanCodec, p: Progress)
    requires p.stage.Ready?
    ensures Step(codec, p) == if p.buf == [] then None else Some(Break(TrailingBytes))
  {
  }

  lemma DriveBroken(codec: PlanCodec, error: DecodeError)
    ensures Drive(codec, Break(error)) == Break(error)
  {
    hide Drive;
    BrokenWaits(codec, Break(error));
    DriveStops(codec, Break(error));
  }

  /** Driving twice is driving once. */
  lemma {:induction false} DriveAgain(codec: PlanCodec, p: Progress)
    ensures Drive(codec, Drive(codec, p)) == Drive(codec, p) && (Step(codec, Drive(codec, p)).None?)
    decreases |p.buf|, Rank(p.stage)
  {
    hide Drive, Step;
    if Step(codec, p).None? {
      DriveStops(codec, p);
    } else {
      DriveStep(codec, p);
      StepFalls(codec, p);
      DriveAgain(codec, Step(codec, p).value);
    }
  }

  /** However a stream is cut into chunks, the session comes to the same verdict on it. */
  method DecodeChunks(codec: PlanCodec, chunks: seq<seq<byte>>) returns (r: DecodeProgress)
    ensures r == Verdict(codec, Flat(chunks))
  {
    hide Drive, Flat, Verdict;
    var session := new DecodeSession(codec);
    FlatUpTo(chunks, 0);
    for i := 0 to |chunks|
      invariant session.Valid() && session.codec == codec && fresh(session) && session.failed.None? && !session.finished
      invariant session.input == Flat(chunks[..i])
    {
      FlatPrefix(chunks, i);
      var progress := session.PushChunk(chunks[i]);
      if progress.Refused? {
        FlatUpTo(chunks, i + 1);
        BrokenVerdict(codec, Flat(chunks[..i + 1]), Flat(chunks[i + 1..]), progress.error);
        return progress;
      }
    }
    assert chunks[..|chunks|] == chunks;
    r := session.FinishInput();
  }

  lemma BrokenVerdict(codec: PlanCodec, input: seq<byte>, more: seq<byte>, error: DecodeError)
    requires Drive(codec, Feed(FRESH, input)).stage == Broken(error)
    ensures Verdict(codec, input + more) == Refused(error)
  {
    hide Drive;
    BrokenStays(codec, input, more);
  }

  lemma {:induction false} FlatUpTo(pieces: seq<seq<byte>>, i: nat)
    requires i <= |pieces|
    ensures Flat(pieces) == Flat(pieces[..i]) + Flat(pieces[i..]) && Flat(pieces[..0]) == []
    decreases i
  {
    if i > 0 {
      FlatUpTo(pieces, i - 1);
      FlatPrefix(pieces, i - 1);
      assert pieces[i - 1..][0] == pieces[i - 1] && pieces[i - 1..][1..] == pieces[i..];
      Joined(Flat(pieces[..i - 1]), pieces[i - 1], Flat(pieces[i..]));
    } else {
      assert pieces[0..] == pieces && [] + Flat(pieces) == Flat(pieces);
    }
  }
}
