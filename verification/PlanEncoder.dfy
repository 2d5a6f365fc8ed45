/** The streaming encoder of plan envelopes: items re-encoded through a window until every byte is out. */
module PlanEncoder {
  import opened Common
  import opened Bytes
  import opened MsgPack
  import opened PlanWire
  import opened PlanBuffers

  const ENVELOPE_TAG: nat := 4
  const MAGIC: seq<byte> := [0x50, 0x46, 0x50, 0x4c]
  const VERSION: nat := 1

  datatype Envelope = Envelope(specs: seq<ScanSpec>, plan: seq<byte>)

  datatype EncodeError = EmptyOutputChunk | SessionFailed(error: EncodeError) | TooManyScanSpecs | PayloadTooLarge

  datatype EncodeProgress = NeedMoreOutput(written: nat) | Done(written: nat) | Refused(error: EncodeError)

  // ---- The flow table ----------------------------------------------------------------------

  datatype EncodeState =
    | Start | Failed | EnvelopeArrayLen | Magic | Version | ScanSpecsArrayLen | ScanSpecs | LogicalPlanBinLen
    | LogicalPlanBin | Finished

  datatype EncodeEvent = Begin | Fail | AtomFinished | ScanSpecsStarted | ScanSpecFinished | ScanSpecsFinished
    | LogicalPlanFinished

  function EncodeFlow(s: EncodeState, e: EncodeEvent): Option<EncodeState> {
    match (s, e)
    case (Failed, _) => None
    case (Finished, _) => None
    case (_, Fail) => Some(Failed)
    case (Start, Begin) => Some(EnvelopeArrayLen)
    case (EnvelopeArrayLen, AtomFinished) => Some(Magic)
    case (Magic, AtomFinished) => Some(Version)
    case (Version, AtomFinished) => Some(ScanSpecsArrayLen)
    case (ScanSpecsArrayLen, ScanSpecsStarted) => Some(ScanSpecs)
    case (ScanSpecsArrayLen, ScanSpecsFinished) => Some(LogicalPlanBinLen)
    case (ScanSpecs, ScanSpecFinished) => Some(ScanSpecs)
    case (ScanSpecs, ScanSpecsFinished) => Some(LogicalPlanBinLen)
    case (LogicalPlanBinLen, AtomFinished) => Some(LogicalPlanBin)
    case (LogicalPlanBin, LogicalPlanFinished) => Some(Finished)
    case _ => None
  }

  // ---- The envelope as bytes ------------------------------------------------------------------

  /** What an envelope must keep within for its lengths to be written. */
  predicate Sendable(e: Envelope) { |e.specs| <= U32_MAX && |e.plan| <= U32_MAX }

  predicate SpecsFit(e: Envelope) { forall i :: 0 <= i < |e.specs| ==> SpecFits(e.specs[i]) }

  function Items(e: Envelope): nat { |e.specs| + 6 }

  /** The pieces of item `i`; a length that cannot be written has none. */
  function Item(e: Envelope, i: nat): seq<seq<byte>>
    requires SpecsFit(e) && i < Items(e)
  {
    var n := |e.specs|;
    if i == 0 then [Write(ArrayLen, ENVELOPE_TAG)]
    else if i == 1 then [Write(StrLen, |MAGIC|), MAGIC]
    else if i == 2 then [Write(U8, VERSION)]
    else if i == 3 then (if n <= U32_MAX then [Write(ArrayLen, n)] else [])
    else if i < 4 + n then SpecPieces(e.specs[i - 4])
    else if i == 4 + n then (if |e.plan| <= U32_MAX then [Write(BinLen, |e.plan|)] else [])
    else [e.plan]
  }

  /** The bytes of the items from `i` on. */
  function Tail(e: Envelope, i: nat): seq<byte>
    requires SpecsFit(e) && i <= Items(e)
    decreases Items(e) - i
  {
    if i == Items(e) then [] else Flat(Item(e, i)) + Tail(e, i + 1)
  }

  function EnvelopeBytes(e: Envelope): seq<byte>
    requires SpecsFit(e)
  {
    Tail(e, 0)
  }

  /** Where the encoder stands among the items. */
  function IndexOf(s: EncodeState, specIndex: nat, n: nat): nat {
    match s
    case Start => 0
    case EnvelopeArrayLen => 0
    case Magic => 1
    case Version => 2
    case ScanSpecsArrayLen => 3
    case ScanSpecs => 4 + specIndex
    case LogicalPlanBinLen => 4 + n
    case LogicalPlanBin => 5 + n
    case Finished => 6 + n
    case Failed => 0
  }

  datatype Active = Active(len: nat, emitted: nat)

  // ---- The session ----------------------------------------------------------------------------

  class EncodeSession {
    const envelope: Envelope
    var machine: EncodeState
    var specIndex: nat
    var active: Option<Active>
    var finished: bool
    var failed: Option<EncodeError>

    function Index(): nat
      reads this
    {
      IndexOf(machine, specIndex, |envelope.specs|)
    }

    ghost predicate Valid()
      reads this
    {
      && SpecsFit(envelope) && (finished <==> machine.Finished?) && (failed.Some? <==> machine.Failed?)
      && (machine.ScanSpecs? ==> specIndex < |envelope.specs|)
      && ((machine.Start? || machine.EnvelopeArrayLen? || machine.Magic? || machine.Version?
           || machine.ScanSpecsArrayLen?) ==> specIndex == 0)
      && (active.Some? ==>
            && !machine.Start? && !machine.Failed? && !machine.Finished? && Writable(Index())
            && active.value.len == |Flat(Item(envelope, Index()))| && active.value.emitted <= active.value.len)
      && (Index() > 3 ==> |envelope.specs| <= U32_MAX)
      && (Index() > 4 + |envelope.specs| ==> |envelope.plan| <= U32_MAX)
    }

    /** Item `i` is not a length that is too large. */
    predicate Writable(i: nat) {
      (i == 3 ==> |envelope.specs| <= U32_MAX) && (i == 4 + |envelope.specs| ==> |envelope.plan| <= U32_MAX)
    }

    /** The bytes that are still to be written. */
    ghost function Rest(): seq<byte>
      requires Valid() && failed.None?
      reads this
    {
      if active.Some? then Flat(Item(envelope, Index()))[active.value.emitted..] + Tail(envelope, Index() + 1)
      else Tail(envelope, Index())
    }

    constructor (envelope: Envelope)
      requires SpecsFit(envelope)
      ensures Valid() && this.envelope == envelope && failed.None? && !finished && Rest() == EnvelopeBytes(envelope)
    {
      this.envelope, machine, specIndex, active, finished, failed := envelope, Start, 0, None, false, None;
    }

    /** `ensure_encode_state_ready`: the next item is at hand, or its length cannot be written. */
    method EnsureReady() returns (failure: Option<EncodeError>)
      requires Valid() && failed.None?
      modifies this`machine, this`active
      ensures Valid() && Rest() == old(Rest()) && !machine.Start? && (machine.Finished? <==> old(machine).Finished?)
      ensures Index() == old(Index())
      ensures failure.None? && !finished ==> active.Some?
      ensures failure.Some? ==>
                !Sendable(envelope) && (failure.value.TooManyScanSpecs? || failure.value.PayloadTooLarge?)
    {
      hide Item, Flat, SpecsFit;
      failure := None;
      if machine.Start? { machine := EncodeFlow(machine, Begin).value; }
      if machine.Finished? || active.Some? { return; }
      if machine.ScanSpecsArrayLen? && |envelope.specs| > U32_MAX { return Some(TooManyScanSpecs); }
      if machine.LogicalPlanBinLen? && |envelope.plan| > U32_MAX { return Some(PayloadTooLarge); }
      var len := CountPieces(Item(envelope, Index()));
      active := Some(Active(len, 0));
      assert Flat(Item(envelope, Index()))[0..] == Flat(Item(envelope, Index()));
    }

    /** `finish_active_item`: on to the next item. */
    method FinishItem()
      requires Valid() && active.Some? && active.value.emitted == active.value.len
      modifies this`machine, this`active, this`specIndex, this`finished
      ensures Valid() && failed.None? && active.None? && Index() == old(Index()) + 1 && Rest() == old(Rest())
    {
      hide Item, Flat, Tail, SpecsFit;
      ghost var item := Flat(Item(envelope, Index()));
      assert item[|item|..] + Tail(envelope, Index() + 1) == Tail(envelope, Index() + 1);
      active := None;
      if machine.ScanSpecsArrayLen? {
        machine := EncodeFlow(machine, if |envelope.specs| == 0 then ScanSpecsFinished else ScanSpecsStarted).value;
      } else if machine.ScanSpecs? {
        specIndex := specIndex + 1;
        machine := EncodeFlow(machine,
                              if specIndex == |envelope.specs| then ScanSpecsFinished else ScanSpecFinished).value;
      } else if machine.LogicalPlanBin? {
        machine := EncodeFlow(machine, LogicalPlanFinished).value;
        finished := machine.Finished?;
      } else {
        machine := EncodeFlow(machine, AtomFinished).value;
      }
    }

    /** One item's share of the output, from `written` on. */
    method EmitItem(out: array<byte>, written: nat) returns (copied: nat)
      requires Valid() && active.Some? && written <= out.Length
      modifies this`active, out
      ensures Valid() && active.Some? && failed.None? && Index() == old(Index())
      ensures written + copied <= out.Length && copied <= |old(Rest())|
      ensures out[..written + copied] == old(out[..written]) + old(Rest())[..copied] && Rest() == old(Rest())[copied..]
      ensures active.value.emitted <= active.value.len
              && (active.value.emitted < active.value.len ==> written + copied == out.Length)
    {
      hide Item, Flat, Tail, SpecsFit;
      ghost var item, later := Flat(Item(envelope, Index())), Tail(envelope, Index() + 1);
      ghost var emitted := active.value.emitted;
      copied := EncodeRange(Item(envelope, Index()), active.value.emitted, out, written);
      active := Some(active.value.(emitted := active.value.emitted + copied));
      SplitFront(item, later, emitted, copied);
      assert out[..written + copied] == out[..written] + out[written..written + copied];
    }

    /** `write_chunk_inner`: the chunk is filled from what is left, and left unfilled only at the very end. */
    method WriteInner(out: array<byte>) returns (r: EncodeProgress)
      requires Valid() && failed.None? && !finished && out.Length > 0
      modifies this`machine, this`active, this`specIndex, this`finished, out
      ensures Valid() && failed.None?
      ensures r.Refused? ==> !Sendable(envelope) && (r.error.TooManyScanSpecs? || r.error.PayloadTooLarge?) && !finished
      ensures r.Done? ==> finished && r.written <= out.Length && out[..r.written] == old(Rest()) && Rest() == []
      ensures r.NeedMoreOutput? ==>
                !finished && r.written == out.Length <= |old(Rest())| && out[..] == old(Rest())[..r.written]
      ensures r.NeedMoreOutput? ==> Rest() == old(Rest())[r.written..]
    {
      hide Valid, Rest;
      ghost var all := Rest();
      var written: nat := 0;
      IndexWithin();
      assert all[0..] == all;
      while true
        invariant Valid() && failed.None? && !finished && written <= out.Length && written <= |all|
        invariant out[..written] == all[..written] && Rest() == all[written..]
        invariant Index() <= Items(envelope)
        decreases Items(envelope) - Index()
      {
        var failure := EnsureReady();
        if failure.Some? { return Refused(failure.value); }
        var copied := EmitItem(out, written);
        Slid(all, written, copied);
        written := written + copied;
        if active.value.emitted < active.value.len {
          assert out[..] == out[..written];
          return NeedMoreOutput(written);
        }
        FinishItem();
        IndexWithin();
        if finished {
          NothingLeft();
          assert all[..written] == all;
          return Done(written);
        }
        if written == out.Length {
          assert out[..] == out[..written];
          return NeedMoreOutput(written);
        }
      }
    }

    /** `write_chunk`. A refusal that is not about the chunk itself is final. */
    method WriteChunk(out: array<byte>) returns (r: EncodeProgress)
      requires Valid()
      modifies this`machine, this`active, this`specIndex, this`finished, this`failed, out
      ensures Valid()
      ensures old(failed).Some? ==> r == Refused(SessionFailed(old(failed).value)) && failed == old(failed)
      ensures old(failed).None? && old(finished) ==> r == Done(0) && finished && failed.None?
      ensures old(failed).None? && !old(finished) && out.Length == 0 ==>
                r == Refused(EmptyOutputChunk) && failed.None? && Rest() == old(Rest())
      ensures old(failed).None? && r.Refused? && out.Length > 0 ==> failed == Some(r.error) && !Sendable(envelope)
      ensures old(failed).None? && r.Done? ==>
                failed.None? && finished && r.written <= out.Length && out[..r.written] == old(Rest()) && Rest() == []
      ensures r.NeedMoreOutput? ==>
                old(failed).None? && failed.None? && !finished && r.written == out.Length <= |old(Rest())|
      ensures r.NeedMoreOutput? ==> out[..] == old(Rest())[..r.written] && Rest() == old(Rest())[r.written..]
    {
      hide Rest;
      if failed.Some? { return Refused(SessionFailed(failed.value)); }
      if finished {
        NothingLeft();
        return Done(0);
      }
      if out.Length == 0 { return Refused(EmptyOutputChunk); }
      r := WriteInner(out);
      if r.Refused? {
        active, failed := None, Some(r.error);
        machine := EncodeFlow(machine, Fail).value;
      }
    }

    lemma IndexWithin()
      requires Valid()
      ensures Index() <= Items(envelope)
    {
    }

    lemma NothingLeft()
      requires Valid() && finished
      ensures Rest() == []
    {
    }
  }

  lemma SplitFront(a: seq<byte>, b: seq<byte>, from: nat, n: nat)
    requires from + n <= |a|
    ensures (a[from..] + b)[..n] == a[from..from + n] && (a[from..] + b)[n..] == a[from + n..] + b
  {
  }

  lemma Slid(all: seq<byte>, n: nat, m: nat)
    requires n + m <= |all|
    ensures all[n..][m..] == all[n + m..] && all[..n] + all[n..][..m] == all[..n + m]
  {
  }

  /**
   * A whole run over output chunks of any sizes: the chunks end to end are the one-shot bytes, and every chunk before
   * the last is full. Nothing but an oversized envelope stops a run.
   */
  method EncodeChunks(envelope: Envelope, sizes: seq<nat>)
      returns (chunks: seq<seq<byte>>, ended: bool, failure: Option<EncodeError>)
    requires SpecsFit(envelope) && forall i :: 0 <= i < |sizes| ==> sizes[i] > 0
    ensures failure.Some? ==> !Sendable(envelope)
    ensures failure.None? ==>
              |chunks| <= |sizes|
                  && forall i :: 0 <= i < |chunks| && (ended ==> i + 1 < |chunks|) ==> |chunks[i]| == sizes[i]
    ensures failure.None? && ended ==>
              chunks != [] && Flat(chunks) == EnvelopeBytes(envelope) && |chunks[|chunks| - 1]| <= sizes[|chunks| - 1]
    ensures failure.None? && !ended ==> |chunks| == |sizes| && Flat(chunks) <= EnvelopeBytes(envelope)
  {
    hide EnvelopeBytes, Flat, SpecsFit, EncodeSession.Valid, EncodeSession.Rest;
    chunks, ended, failure := [], false, None;
    var session := new EncodeSession(envelope);
    ghost var all := EnvelopeBytes(envelope);
    FlatEmpty(all);
    for i := 0 to |sizes|
      invariant session.Valid() && session.failed.None? && session.envelope == envelope && fresh(session)
      invariant |chunks| == i && !ended && failure.None?
      invariant forall j :: 0 <= j < i ==> |chunks[j]| == sizes[j]
      invariant Flat(chunks) + session.Rest() == all
    {
      ghost var rest := session.Rest();
      var out := new byte[sizes[i]];
      var r := session.WriteChunk(out);
      match r
      case Refused(error) => return chunks, false, Some(error);
      case Done(written) =>
        FlatAppend(chunks, out[..written]);
        return chunks + [out[..written]], true, None;
      case NeedMoreOutput(written) =>
        FlatAppend(chunks, out[..]);
        Slid(rest, 0, written);
        Joined(Flat(chunks), out[..], session.Rest());
        assert rest[..written] + rest[written..] == rest;
        chunks := chunks + [out[..]];
    }
  }

  lemma FlatEmpty(all: seq<byte>)
    ensures Flat([]) + all == all
  {
  }
}
