/** The incremental decoder of plan envelopes: a flow of stages over whatever bytes have arrived. */
module PlanDecoder {
  import opened Common
  import opened Bytes
  import opened MsgPack
  import opened PlanWire
  import opened PlanTree
  import opened PlanBuffers
  import PlanEncoder

  datatype DecodeError =
    | Wire(wire: WireError) | InvalidEnvelope | InvalidMagic | UnsupportedVersion | DuplicateScanId | PlanProtobuf
    | MissingScanSpec | OrphanScanSpec | TrailingBytes | UnexpectedEof | AlreadyFinished
    | SessionFailed(error: DecodeError)

  datatype DecodeProgress = NeedMoreInput | Done(plan: Plan) | Refused(error: DecodeError)

  /** The wire codec with the protobuf decoder of the plan payload. */
  datatype PlanCodec = PlanCodec(wire: Codec, skeleton: seq<byte> -> Option<Skeleton>)

  // ---- What the bytes mean --------------------------------------------------------------------

  datatype Stage =
    | EnvelopeDue | MagicDue | VersionDue | SpecsDue | SpecDue(left: nat) | PlanLenDue | PlanDue(len: nat)
    | Building(skeleton: Skeleton) | Ready(plan: Plan) | Broken(error: DecodeError)

  /** A stage, the specs read so far, and the bytes not yet used. */
  datatype Progress = Progress(stage: Stage, table: Table, buf: seq<byte>)

  const FRESH := Progress(EnvelopeDue, map[], [])

  function Break(error: DecodeError): Progress { Progress(Broken(error), map[], []) }

  function Then<T>(r: Parsed<T>, go: (T, seq<byte>) -> Progress): Option<Progress> {
    match r
    case Got(value, rest) => Some(go(value, rest))
    case More => None
    case Bad(error) => Some(Break(Wire(error)))
  }

  /** One stage, once its bytes are there; `None` while they are not. */
  function Step(codec: PlanCodec, p: Progress): Option<Progress> {
    match p.stage
    case EnvelopeDue => Then(Read(ArrayLen, p.buf), (n, rest) => AfterEnvelope(p, n, rest))
    case MagicDue => Then(ReadText(codec.wire, p.buf), (text, rest) => AfterMagic(p, text, rest))
    case VersionDue => Then(Read(U8, p.buf), (v, rest) => AfterVersion(p, v, rest))
    case SpecsDue => Then(Read(ArrayLen, p.buf), (n, rest) => AfterCount(p, n, rest))
    case SpecDue(left) => Then(ReadSpec(codec.wire, p.buf), (spec, rest) => AfterSpec(p, left, spec, rest))
    case PlanLenDue => Then(Read(BinLen, p.buf), (n, rest) => Progress(PlanDue(n), p.table, rest))
    case PlanDue(len) => if |p.buf| < len then None else Some(AfterPlan(codec, p.table, p.buf[..len], p.buf[len..]))
    case Building(skeleton) => Some(AfterBuild(skeleton, p.table, p.buf))
    case Ready(_) => if p.buf == [] then None else Some(Break(TrailingBytes))
    case Broken(_) => None
  }

  function AfterEnvelope(p: Progress, n: nat, rest: seq<byte>): Progress {
    if n != PlanEncoder.ENVELOPE_TAG then Break(InvalidEnvelope) else Progress(MagicDue, p.table, rest)
  }

  function AfterMagic(p: Progress, text: seq<byte>, rest: seq<byte>): Progress {
    if text != PlanEncoder.MAGIC then Break(InvalidMagic) else Progress(VersionDue, p.table, rest)
  }

  function AfterVersion(p: Progress, v: nat, rest: seq<byte>): Progress {
    if v != PlanEncoder.VERSION then Break(UnsupportedVersion) else Progress(SpecsDue, p.table, rest)
  }

  function AfterCount(p: Progress, n: nat, rest: seq<byte>): Progress {
    Progress(if n == 0 then PlanLenDue else SpecDue(n), p.table, rest)
  }

  function AfterSpec(p: Progress, left: nat, spec: ScanSpec, rest: seq<byte>): Progress {
    if spec.scanId in p.table then Break(DuplicateScanId)
    else Progress(if left <= 1 then PlanLenDue else SpecDue(left - 1), p.table[spec.scanId := spec], rest)
  }

  function AfterPlan(codec: PlanCodec, table: Table, payload: seq<byte>, rest: seq<byte>): Progress {
    match codec.skeleton(payload)
    case None => Break(PlanProtobuf)
    case Some(skeleton) => Progress(Building(skeleton), table, rest)
  }

  /** `build_decoded_plan` and the check that nothing follows it. */
  function AfterBuild(skeleton: Skeleton, table: Table, buf: seq<byte>): Progress {
    match Rebuild(skeleton, table)
    case None => Break(MissingScanSpec)
    case Some(plan) =>
      if exists k :: k in table && k !in Used(plan) then Break(OrphanScanSpec)
      else if buf != [] then Break(TrailingBytes)
      else Progress(Ready(plan), table, [])
  }

  function Rank(s: Stage): nat {
    match s
    case EnvelopeDue => 9
    case MagicDue => 8
    case VersionDue => 7
    case SpecsDue => 6
    case SpecDue(_) => 5
    case PlanLenDue => 4
    case PlanDue(_) => 3
    case Building(_) => 2
    case Ready(_) => 1
    case Broken(_) => 0
  }

  lemma StepFalls(codec: PlanCodec, p: Progress)
    requires Step(codec, p).Some?
    ensures var q := Step(codec, p).value; |q.buf| < |p.buf| || (|q.buf| == |p.buf| && Rank(q.stage) < Rank(p.stage))
  {
    hide Read, ReadText, ReadSpec, Rebuild, Used;
  }

  /** As far as the bytes at hand go. */
  function Drive(codec: PlanCodec, p: Progress): Progress
    decreases |p.buf|, Rank(p.stage)
  {
    match Step(codec, p)
    case None => p
    case Some(q) =>
      StepFalls(codec, p);
      Drive(codec, q)
  }

  function Feed(p: Progress, more: seq<byte>): Progress {
    if p.stage.Broken? then p else p.(buf := p.buf + more)
  }

  // ---- Chunks do not matter --------------------------------------------------------------------

  /** A stage that has been decided is decided the same way when more bytes follow. */
  lemma StepStable(codec: PlanCodec, p: Progress, more: seq<byte>)
    requires Step(codec, p).Some? && !p.stage.Building?
    ensures Step(codec, Feed(p, more)) == Some(Feed(Step(codec, p).value, more))
  {
    hide Read, ReadText, ReadSpec, Rebuild, Used, AfterBuild;
    match p.stage
    case EnvelopeDue => ReadStable(ArrayLen, p.buf, more);
    case MagicDue => TextStable(codec.wire, p.buf, more);
    case VersionDue => ReadStable(U8, p.buf, more);
    case SpecsDue => ReadStable(ArrayLen, p.buf, more);
    case SpecDue(_) => SpecStable(codec.wire, p.buf, more);
    case PlanLenDue => ReadStable(BinLen, p.buf, more);
    case PlanDue(len) => TakeStable(p.buf, len, more);
    case Ready(_) =>
  }

  lemma DriveStep(codec: PlanCodec, p: Progress)
    requires Step(codec, p).Some?
    ensures Drive(codec, p) == Drive(codec, Step(codec, p).value)
  {
  }

  lemma DriveStops(codec: PlanCodec, p: Progress)
    requires Step(codec, p).None?
    ensures Drive(codec, p) == p
  {
  }

  /** Bytes in two chunks come to the same as in one. */
  lemma {:induction false} FeedSplit(codec: PlanCodec, p: Progress, more: seq<byte>)
    ensures Drive(codec, Feed(p, more)) == Drive(codec, Feed(Drive(codec, p), more))
    decreases |p.buf|, Rank(p.stage)
  {
    hide Drive, Step;
    if Step(codec, p).None? {
      DriveStops(codec, p);
    } else {
      var q := Step(codec, p).value;
      StepFalls(codec, p);
      DriveStep(codec, p);
      FeedSplit(codec, q, more);
      if p.stage.Building? {
        BuildSplit(codec, p, more);
      } else {
        StepStable(codec, p, more);
        DriveStep(codec, Feed(p, more));
      }
    }
  }

  /** A plan that is ready and then followed by bytes fails as one that is built in front of them. */
  lemma BuildSplit(codec: PlanCodec, p: Progress, more: seq<byte>)
    requires p.stage.Building? && Step(codec, p).Some?
    ensures Drive(codec, Feed(p, more)) == Drive(codec, Feed(Step(codec, p).value, more))
  {
    hide Rebuild, Used, Drive;
    var q := Step(codec, p).value;
    DriveStep(codec, Feed(p, more));
    if q.stage.Ready? {
      if more == [] { assert Feed(q, more) == q && Feed(p, more) == p; } else { DriveStep(codec, Feed(q, more)); }
    } else {
      assert Step(codec, Feed(p, more)) == Some(q);
    }
  }

  /** What a stream of bytes comes to once its end is known. */
  function Verdict(codec: PlanCodec, input: seq<byte>): DecodeProgress {
    match Drive(codec, Feed(FRESH, input)).stage
    case Ready(plan) => Done(plan)
    case Broken(error) => Refused(error)
    case _ => Refused(UnexpectedEof)
  }

  /** Once the bytes are refused, nothing that follows is accepted. */
  lemma BrokenStays(codec: PlanCodec, input: seq<byte>, more: seq<byte>)
    requires Drive(codec, Feed(FRESH, input)).stage.Broken?
    ensures Drive(codec, Feed(FRESH, input + more)) == Drive(codec, Feed(FRESH, input))
  {
    hide Step;
    FeedMore(codec, input, more);
    var p := Drive(codec, Feed(FRESH, input));
    assert Step(codec, p).None? by { BrokenWaits(codec, p); }
    DriveStops(codec, p);
  }

  lemma BrokenWaits(codec: PlanCodec, p: Progress)
    requires p.stage.Broken?
    ensures Step(codec, p).None?
  {
  }

  lemma FeedMore(codec: PlanCodec, input: seq<byte>, more: seq<byte>)
    ensures Drive(codec, Feed(FRESH, input + more)) == Drive(codec, Feed(Drive(codec, Feed(FRESH, input)), more))
  {
    hide Drive;
    FeedSplit(codec, Feed(FRESH, input), more);
    assert Feed(Feed(FRESH, input), more) == Feed(FRESH, input + more) by { Joined([], input, more); }
  }
}
