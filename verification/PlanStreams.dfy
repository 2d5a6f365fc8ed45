/** Whole streams: what a message that ends too early does to one, and plans sent over chunks of any sizes. */
module PlanStreams {
  import opened Common
  import opened Bytes
  import opened MsgPack
  import opened PlanWire
  import opened PlanTree
  import opened PlanEncoder
  import opened PlanRoundTrip
  import PlanBuffers
  import PlanDecoder
  import PlanSession

  // ---- Inside one spec -----------------------------------------------------------------------

  /** The first embedded message of the spec that does not decode runs out of bytes. */
  ghost predicate Underflows(codec: Codec, s: ScanSpec) {
    TextsGood(codec, s) &&
    ((exists j :: 0 <= j < |s.compiled.residual| && ShortAt(codec, s.compiled.residual, j))
     || ((forall j :: 0 <= j < |s.compiled.residual| ==> codec.expr(s.compiled.residual[j]) == Whole)
         && codec.schema(s.schema) == Short))
  }

  ghost predicate ShortAt(codec: Codec, es: seq<seq<byte>>, j: nat) {
    j < |es| && codec.expr(es[j]) == Short && forall i :: 0 <= i < j ==> codec.expr(es[i]) == Whole
  }

  lemma {:induction false} ExprsShort(codec: Codec, es: seq<seq<byte>>)
    ensures ExprsVerdict(codec, es) == Short <==> exists j :: 0 <= j < |es| && ShortAt(codec, es, j)
  {
    if es == [] {
    } else if codec.expr(es[0]) != Whole {
      assert codec.expr(es[0]) == Short ==> ShortAt(codec, es, 0);
    } else {
      ExprsShort(codec, es[1..]);
      if j :| 0 <= j < |es| && ShortAt(codec, es, j) { assert ShortAt(codec, es[1..], j - 1); }
      if j :| 0 <= j < |es[1..]| && ShortAt(codec, es[1..], j) {
        forall i | 0 <= i < j + 1 ensures codec.expr(es[i]) == Whole { if i > 0 { assert es[i] == es[1..][i - 1]; } }
        assert ShortAt(codec, es, j + 1);
      }
    }
  }

  /** Exactly such a spec is waited for, whatever bytes follow it. */
  lemma SpecWaits(codec: Codec, s: ScanSpec, rest: seq<byte>)
    requires SpecFits(s)
    ensures ReadSpec(codec, WriteSpec(s) + rest) == More <==> Underflows(codec, s)
  {
    hide ReadSpec, WriteSpec, SpecFits, TextsGood, ExprsVerdict, ShortAt;
    SpecWritten(codec, s, rest);
    ExprsWhole(codec, s.compiled.residual);
    ExprsShort(codec, s.compiled.residual);
  }

  // ---- In a stream --------------------------------------------------------------------------------

  /** Spec `i` of the envelope underflows and those before it are fine. */
  ghost predicate UnderflowsAt(codec: PlanCodec, e: Envelope, i: nat) {
    && SpecsFit(e) && Sendable(e) && codec.wire.utf8(MAGIC) && i < |e.specs| && Distinct(e.specs[..i])
    && (forall j :: 0 <= j < i ==> Readable(codec.wire, e.specs[j])) && Underflows(codec.wire, e.specs[i])
  }

  lemma SpecTail(e: Envelope, i: nat)
    requires SpecsFit(e) && i < |e.specs|
    ensures Tail(e, 4 + i) == WriteSpec(e.specs[i]) + Tail(e, 5 + i)
  {
    hide Flat, SpecFits;
    assert Item(e, 4 + i) == SpecPieces(e.specs[i]);
  }

  /** A readable spec with a new id is taken, and the next item is due. */
  lemma SpecStep(codec: PlanCodec, e: Envelope, k: nat)
    requires SpecsFit(e) && k < |e.specs| && Readable(codec.wire, e.specs[k])
             && e.specs[k].scanId !in TableOf(e.specs[..k])
    ensures PlanDecoder.Step(codec,
                             PlanDecoder.Progress(PlanDecoder.SpecDue(|e.specs| - k), TableOf(e.specs[..k]),
                                                  Tail(e, 4 + k)))
            == Some(PlanDecoder.Progress(if k + 1 == |e.specs| then PlanDecoder.PlanLenDue
                                         else PlanDecoder.SpecDue(|e.specs| - (k + 1)),
                                         TableOf(e.specs[..k + 1]), Tail(e, 5 + k)))
  {
    hide Tail, ReadSpec, WriteSpec, TableOf, Readable;
    SpecTail(e, k);
    ReadableExactly(codec.wire, e.specs[k], Tail(e, 5 + k));
    TableNext(e.specs, k);
  }

  /** The specs before the i-th are read one after the other. */
  lemma {:induction false} SpecsReach(codec: PlanCodec, e: Envelope, k: nat, i: nat)
    requires SpecsFit(e) && k <= i < |e.specs| && Distinct(e.specs[..i])
             && forall j :: 0 <= j < i ==> Readable(codec.wire, e.specs[j])
    ensures PlanDecoder.Drive(codec,
                              PlanDecoder.Progress(PlanDecoder.SpecDue(|e.specs| - k), TableOf(e.specs[..k]),
                                                   Tail(e, 4 + k)))
         == PlanDecoder.Drive(codec,
                              PlanDecoder.Progress(PlanDecoder.SpecDue(|e.specs| - i), TableOf(e.specs[..i]),
                                                   Tail(e, 4 + i)))
    decreases i - k
  {
    hide PlanDecoder.Drive, PlanDecoder.Step, Tail, TableOf, Readable, SpecFits, Distinct;
    if k < i {
      NotYet(e.specs, k, i);
      SpecStep(codec, e, k);
      PlanDecoder.DriveStep(codec, PlanDecoder.Progress(PlanDecoder.SpecDue(|e.specs| - k), TableOf(e.specs[..k]),
                                                        Tail(e, 4 + k)));
      SpecsReach(codec, e, k + 1, i);
    }
  }

  lemma NotYet(specs: seq<ScanSpec>, k: nat, i: nat)
    requires k < i <= |specs| && Distinct(specs[..i])
    ensures specs[k].scanId !in TableOf(specs[..k])
  {
    TableHas(specs[..k], specs[k].scanId);
    forall j | 0 <= j < k ensures specs[..k][j].scanId != specs[k].scanId {
      assert specs[..i][j] == specs[j] == specs[..k][j] && specs[..i][k] == specs[k];
    }
  }

  /** Where a stream stands whose i-th spec underflows, however much follows. */
  ghost function Stuck(e: Envelope, i: nat, more: seq<byte>): Progress
    requires SpecsFit(e) && i < |e.specs|
  {
    PlanDecoder.Progress(PlanDecoder.SpecDue(|e.specs| - i), TableOf(e.specs[..i]), Tail(e, 4 + i) + more)
  }

  lemma StuckWaits(codec: PlanCodec, e: Envelope, i: nat, more: seq<byte>)
    requires UnderflowsAt(codec, e, i)
    ensures PlanDecoder.Step(codec, Stuck(e, i, more)).None?
  {
    hide ReadSpec, WriteSpec, SpecFits, Tail, TableOf, Underflows, Readable, Distinct;
    SpecTail(e, i);
    Joined(WriteSpec(e.specs[i]), Tail(e, 5 + i), more);
    SpecWaits(codec.wire, e.specs[i], Tail(e, 5 + i) + more);
  }

  /** The decoder waits at the spec for ever. */
  lemma WaitsForever(codec: PlanCodec, e: Envelope, i: nat, more: seq<byte>)
    requires UnderflowsAt(codec, e, i)
    ensures PlanDecoder.Drive(codec, PlanDecoder.Feed(PlanDecoder.FRESH, EnvelopeBytes(e) + more)) == Stuck(e, i, more)
    ensures PlanDecoder.Verdict(codec, EnvelopeBytes(e) + more) == PlanDecoder.Refused(PlanDecoder.UnexpectedEof)
  {
    hide PlanDecoder.Drive, PlanDecoder.Step, Tail, EnvelopeBytes, TableOf, Readable, Underflows;
    HeadDecodes(codec, e);
    assert e.specs[..0] == [] && TableOf([]) == map[] by { EmptyTable(); }
    SpecsReach(codec, e, 0, i);
    StuckWaits(codec, e, i, []);
    assert Tail(e, 4 + i) + [] == Tail(e, 4 + i);
    PlanDecoder.DriveStops(codec, Stuck(e, i, []));
    PlanDecoder.FeedMore(codec, EnvelopeBytes(e), more);
    StuckWaits(codec, e, i, more);
    PlanDecoder.DriveStops(codec, Stuck(e, i, more));
  }

  // ---- No other stream waits --------------------------------------------------------------------------

  /** The stream is decided: accepted, or refused for something other than its end. */
  ghost predicate Decided(p: Progress) {
    (p.stage.Ready? && p.buf == []) || (p.stage.Broken? && p.stage.error != PlanDecoder.UnexpectedEof)
  }

  lemma BreakDecides(codec: PlanCodec, p: Progress)
    requires PlanDecoder.Step(codec, p).Some? && Decided(PlanDecoder.Step(codec, p).value)
             && PlanDecoder.Step(codec, p).value.buf == []
    ensures Decided(PlanDecoder.Drive(codec, p))
  {
    hide PlanDecoder.Drive, ReadSpec;
    PlanDecoder.DriveStep(codec, p);
    PlanDecoder.DriveStops(codec, PlanDecoder.Step(codec, p).value);
  }

  /** Once the specs are read, the payload and the plan built from it decide. */
  lemma PlanDecides(codec: PlanCodec, e: Envelope, table: Table)
    requires SpecsFit(e) && Sendable(e)
    ensures Decided(PlanDecoder.Drive(codec,
                                      PlanDecoder.Progress(PlanDecoder.PlanLenDue, table, Tail(e, 4 + |e.specs|))))
  {
    hide PlanDecoder.Drive, Tail, Rebuild, Used;
    PlanDecodes(codec, e, table);
    var p := PlanDecoder.AfterPlan(codec, table, e.plan, []);
    if p.stage.Broken? { PlanDecoder.DriveStops(codec, p); } else { BreakDecides(codec, p); }
  }

  /** From spec `k` on: one of the specs underflows, or the stream is decided. */
  lemma {:induction false} SpecsDecide(codec: PlanCodec, e: Envelope, k: nat)
    requires SpecsFit(e) && Sendable(e) && codec.wire.utf8(MAGIC) && k < |e.specs| && Distinct(e.specs[..k])
             && forall j :: 0 <= j < k ==> Readable(codec.wire, e.specs[j])
    ensures (exists i :: 0 <= i < |e.specs| && UnderflowsAt(codec, e, i))
            || Decided(PlanDecoder.Drive(codec,
                                         PlanDecoder.Progress(PlanDecoder.SpecDue(|e.specs| - k), TableOf(e.specs[..k]),
                                                              Tail(e, 4 + k))))
    decreases |e.specs| - k
  {
    hide PlanDecoder.Drive, Tail, ReadSpec, WriteSpec, TableOf, Readable, Underflows, SpecFits, Distinct;
    var table, spec := TableOf(e.specs[..k]), e.specs[k];
    var p := PlanDecoder.Progress(PlanDecoder.SpecDue(|e.specs| - k), table, Tail(e, 4 + k));
    SpecTail(e, k);
    SpecWaits(codec.wire, spec, Tail(e, 5 + k));
    ReadableExactly(codec.wire, spec, Tail(e, 5 + k));
    if Underflows(codec.wire, spec) {
      assert UnderflowsAt(codec, e, k);
    } else if !Readable(codec.wire, spec) || spec.scanId in table {
      BreakDecides(codec, p);
    } else {
      SpecStep(codec, e, k);
      PlanDecoder.DriveStep(codec, p);
      StillDistinct(e.specs, k);
      if k + 1 < |e.specs| { SpecsDecide(codec, e, k + 1); } else { PlanDecides(codec, e, TableOf(e.specs[..k + 1])); }
    }
  }

  lemma StillDistinct(specs: seq<ScanSpec>, k: nat)
    requires k < |specs| && Distinct(specs[..k]) && specs[k].scanId !in TableOf(specs[..k])
    ensures Distinct(specs[..k + 1])
  {
    TableHas(specs[..k], specs[k].scanId);
    var front, more := specs[..k], specs[..k + 1];
    forall i, j | 0 <= i < j < |more| ensures more[i].scanId != more[j].scanId {
      assert more[i] == front[i] && (j < k ==> more[j] == front[j]);
    }
  }

  /** A whole envelope is reported as incomplete exactly if a spec in it underflows, whatever follows it. */
  lemma WaitsExactly(codec: PlanCodec, e: Envelope, more: seq<byte>)
    requires SpecsFit(e) && Sendable(e) && codec.wire.utf8(MAGIC)
    ensures PlanDecoder.Verdict(codec, EnvelopeBytes(e) + more) == PlanDecoder.Refused(PlanDecoder.UnexpectedEof) <==>
              exists i :: 0 <= i < |e.specs| && UnderflowsAt(codec, e, i)
  {
    hide PlanDecoder.Drive, PlanDecoder.Step, Tail, EnvelopeBytes, TableOf, UnderflowsAt;
    if i :| 0 <= i < |e.specs| && UnderflowsAt(codec, e, i) {
      WaitsForever(codec, e, i, more);
    } else {
      EnvelopeDecides(codec, e);
      var p := PlanDecoder.Drive(codec, PlanDecoder.Feed(PlanDecoder.FRESH, EnvelopeBytes(e)));
      PlanDecoder.FeedMore(codec, EnvelopeBytes(e), more);
      DecidedStays(codec, p, more);
    }
  }

  lemma EnvelopeDecides(codec: PlanCodec, e: Envelope)
    requires SpecsFit(e) && Sendable(e) && codec.wire.utf8(MAGIC)
             && !exists i :: 0 <= i < |e.specs| && UnderflowsAt(codec, e, i)
    ensures Decided(PlanDecoder.Drive(codec, PlanDecoder.Feed(PlanDecoder.FRESH, EnvelopeBytes(e))))
  {
    hide PlanDecoder.Drive, Tail, EnvelopeBytes, UnderflowsAt;
    HeadDecodes(codec, e);
    if e.specs == [] {
      PlanDecides(codec, e, map[]);
    } else {
      assert e.specs[..0] == [] && TableOf([]) == map[] by { EmptyTable(); }
      SpecsDecide(codec, e, 0);
    }
  }

  lemma DecidedStays(codec: PlanCodec, p: Progress, more: seq<byte>)
    requires Decided(p)
    ensures Decided(PlanDecoder.Drive(codec, PlanDecoder.Feed(p, more)))
  {
    hide PlanDecoder.Drive;
    var q := PlanDecoder.Feed(p, more);
    if p.stage.Broken? || more == [] { PlanDecoder.DriveStops(codec, q); } else { BreakDecides(codec, q); }
  }

  lemma EmptyTable()
    ensures TableOf([]) == map[]
  {
  }

  /** No prefix of such a stream is refused. */
  lemma PrefixWaits(codec: PlanCodec, e: Envelope, i: nat, more: seq<byte>, input: seq<byte>)
    requires UnderflowsAt(codec, e, i) && input <= EnvelopeBytes(e) + more
    ensures !PlanDecoder.Drive(codec, PlanDecoder.Feed(PlanDecoder.FRESH, input)).stage.Broken?
  {
    hide PlanDecoder.Drive, EnvelopeBytes, Underflows, Readable, Distinct;
    var all := EnvelopeBytes(e) + more;
    WaitsForever(codec, e, i, more);
    var later := all[|input|..];
    assert input + later == all;
    if PlanDecoder.Drive(codec, PlanDecoder.Feed(PlanDecoder.FRESH, input)).stage.Broken? {
      PlanDecoder.BrokenStays(codec, input, later);
    }
  }

  /** A session fed such a stream, in any chunks, asks for more after every one and is refused only at the end. */
  method PushUnderflow(codec: PlanCodec, ghost e: Envelope, ghost i: nat, ghost more: seq<byte>, chunks: seq<seq<byte>>)
      returns (asked: nat, last: PlanDecoder.DecodeProgress)
    requires UnderflowsAt(codec, e, i) && Flat(chunks) == EnvelopeBytes(e) + more
    ensures asked == |chunks| && last == PlanDecoder.Refused(PlanDecoder.UnexpectedEof)
  {
    hide PlanDecoder.Drive, PlanDecoder.Verdict, Flat, EnvelopeBytes, UnderflowsAt;
    var session := new PlanSession.DecodeSession(codec);
    PlanSession.FlatUpTo(chunks, 0);
    asked := 0;
    for k := 0 to |chunks|
      invariant session.Valid() && session.codec == codec && fresh(session) && session.failed.None? && !session.finished
      invariant session.input == Flat(chunks[..k]) && asked == k
    {
      PlanBuffers.FlatPrefix(chunks, k);
      PlanSession.FlatUpTo(chunks, k + 1);
      PrefixWaits(codec, e, i, more, Flat(chunks[..k + 1]));
      var progress := session.PushChunk(chunks[k]);
      if progress.NeedMoreInput? { asked := asked + 1; }
    }
    assert chunks[..|chunks|] == chunks;
    WaitsForever(codec, e, i, more);
    last := session.FinishInput();
  }

  /** One spec whose schema message ends too early. */
  const SHORT_SCHEMA := PlanDecoder.PlanCodec(Codec(_ => true, _ => Whole, _ => Short, _ => true), _ => None)
  const ONE_SPEC := Envelope([ScanSpec(1, 1, Relation(None, []),
                                       Compiled([], None, None, Columns([], [], [], []), [], [], true, false),
                                       Hints(None, None), [])], [])

  /** The whole envelope is there, and is reported as incomplete. */
  lemma WholeButWaiting(more: seq<byte>)
    ensures UnderflowsAt(SHORT_SCHEMA, ONE_SPEC, 0)
    ensures PlanDecoder.Verdict(SHORT_SCHEMA, EnvelopeBytes(ONE_SPEC) + more)
            == PlanDecoder.Refused(PlanDecoder.UnexpectedEof)
  {
    hide PlanDecoder.Drive, EnvelopeBytes;
    assert ONE_SPEC.specs[..0] == [];
    WaitsForever(SHORT_SCHEMA, ONE_SPEC, 0, more);
  }

  // ---- There and back over any chunks ----------------------------------------------------------------

  /**
   * A plan written into output chunks of any sizes, the bytes cut anew in any way, and read back: if the output
   * had room, the reader accepts, and gets the same plan exactly when equal scan ids carried equal specs.
   */
  method Trip(codec: PlanCodec, ghost plan: Plan, e: Envelope, sizes: seq<nat>, recut: seq<seq<byte>> -> seq<seq<byte>>)
      returns (ended: bool, r: PlanDecoder.DecodeProgress)
    requires EnvelopeOf(codec, plan, e) && forall i :: 0 <= i < |sizes| ==> sizes[i] > 0
    requires forall chunks :: Flat(recut(chunks)) == Flat(chunks)
    ensures ended ==> r.Done? && (r == PlanDecoder.Done(plan) <==> Agree(plan))
    ensures |EnvelopeBytes(e)| < Total(sizes) ==> ended
    ensures ended ==> |EnvelopeBytes(e)| <= Total(sizes)
  {
    hide EnvelopeBytes, Agree, PlanDecoder.Verdict, Flat;
    r := PlanDecoder.NeedMoreInput;
    var chunks, done, failure := EncodeChunks(e, sizes);
    assert failure.None? by { Sends(codec, plan, e); }
    ended := done;
    if ended {
      LengthUpTo(chunks, sizes, |chunks| - 1);
      TotalGrows(sizes, |chunks|, |sizes|);
      LastChunk(chunks, sizes, |chunks| - 1);
    } else {
      LengthUpTo(chunks, sizes, |chunks|);
      assert chunks[..|chunks|] == chunks && sizes[..|sizes|] == sizes;
    }
    if ended {
      PlanRoundTrips(codec, plan, e);
      r := PlanSession.DecodeChunks(codec, recut(chunks));
    }
  }

  lemma Sends(codec: PlanCodec, plan: Plan, e: Envelope)
    requires EnvelopeOf(codec, plan, e)
    ensures SpecsFit(e) && Sendable(e)
  {
  }

  function Total(sizes: seq<nat>): nat {
    if sizes == [] then 0 else Total(sizes[..|sizes| - 1]) + sizes[|sizes| - 1]
  }

  lemma {:induction false} LengthUpTo(chunks: seq<seq<byte>>, sizes: seq<nat>, k: nat)
    requires k <= |chunks| <= |sizes| && forall i :: 0 <= i < k ==> |chunks[i]| == sizes[i]
    ensures |Flat(chunks[..k])| == Total(sizes[..k])
  {
    if k > 0 {
      LengthUpTo(chunks, sizes, k - 1);
      PlanBuffers.FlatPrefix(chunks, k - 1);
      assert sizes[..k][..k - 1] == sizes[..k - 1];
    }
  }

  lemma LastChunk(chunks: seq<seq<byte>>, sizes: seq<nat>, k: nat)
    requires k + 1 == |chunks| <= |sizes| && |chunks[k]| <= sizes[k] && |Flat(chunks[..k])| == Total(sizes[..k])
    ensures |Flat(chunks)| <= Total(sizes[..k + 1])
  {
    PlanBuffers.FlatPrefix(chunks, k);
    assert chunks[..k + 1] == chunks && sizes[..k + 1][..k] == sizes[..k];
  }

  lemma {:induction false} TotalGrows(sizes: seq<nat>, a: nat, b: nat)
    requires a <= b <= |sizes|
    ensures Total(sizes[..a]) <= Total(sizes[..b]) && sizes[..|sizes|] == sizes
    decreases b - a
  {
    if a < b {
      TotalGrows(sizes, a, b - 1);
      assert sizes[..b][..b - 1] == sizes[..b - 1];
    }
  }
}
