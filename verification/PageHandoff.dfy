/**
 * Pages and permits moving from issued senders to issued receivers. Every call and every owned object
 * (writer, outbound page, received page) is an activity; activities interleave one atomic access at a
 * time, so any number of cloned handles on any number of streams is covered. Both pools are atomic
 * here, and a release may be refused without cause.
 */
module PageHandoff {
  import opened Common

  datatype TxPhase = TxIdle | Writing | OutboundPending | TxClosed

  datatype RxPhase = RxIdle | Accepting | RxClosed

  const ID_MAX: nat := 0xFFFF_FFFF_FFFF_FFFF

  /** A carrier frame; `page` stands for a descriptor with its generation, so it is never reused. */
  datatype Frame = PageFrame(id: nat, page: nat, permit: nat) | CloseFrame(id: nat)

  /**
   * One sender and its receiver. `written` is what the carrier was given and `accepted` how much of it the
   * receiver took; `txHolder` and `rxHolder` record which activity is behind a busy phase.
   */
  datatype Stream = Stream(
    txPhase: TxPhase, txNext: nat, txHolder: Option<nat>, written: seq<Frame>,
    rxPhase: RxPhase, rxNext: nat, rxHolder: Option<nat>, accepted: nat)

  datatype Outcome =
    | NoPermits | TxBusy | TxRefusedClosed | NoPages | WriterDropped | PageSent | OutboundDropped
    | CloseWritten | RxBusy | RxRefusedClosed | UnexpectedTransferId | AccessRefused | InvalidPage | AcceptedClose
    | PageReleased

  datatype Activity =
    // `IssuedTx::begin`
    | BeginPermit(st: nat)
    | BeginEnter(st: nat, permit: nat)
    | BeginPage(st: nat, permit: nat)
    | BeginCancel(st: nat, permit: nat)
    // a writer, its `finish_with_payload_len` and its drop
    | Writer(st: nat, page: nat, permit: nat)
    | FinishReserve(st: nat, page: nat, permit: nat)
    | FinishStore(st: nat, id: nat, page: nat, permit: nat)
    | WriterRelease(st: nat, page: nat, permit: nat)
    | WriterCancel(st: nat, permit: nat)
    // an outbound page, unsent or written to the carrier, and its drop
    | Outbound(st: nat, id: nat, page: nat, permit: nat)
    | Sent(st: nat)
    | OutboundRelease(st: nat, page: nat, permit: nat)
    | OutboundFinish(st: nat, permit: nat)
    // `IssuedTx::close`
    | CloseEnter(st: nat)
    | CloseReserve(st: nat)
    | CloseNote(st: nat, id: nat)
    // `IssuedRx::accept` of the frame at position `at` of the carrier
    | AcceptEnter(st: nat, at: nat)
    | AcceptCheck(st: nat, at: nat)
    | AcceptCancel(st: nat, outcome: Outcome)
    | AcceptPage(st: nat, at: nat)
    | AcceptReject(st: nat, at: nat, page: nat, permit: nat)
    | AcceptRejectCancel(st: nat, permit: nat)
    | AcceptAdvance(st: nat, at: nat, page: nat, permit: nat)
    | AcceptFinish(st: nat, page: nat, permit: nat)
    | CloseAdvance(st: nat, at: nat)
    | CloseFinish(st: nat)
    // a received page and the second release attempt of its drop
    | Received(page: nat, permit: nat)
    | ReleaseAgain(page: nat, permit: nat)
    // the permit release that ends most paths
    | DropPermit(permit: nat, outcome: Outcome)
    | Over(outcome: Outcome)

  datatype Owner = ByActivity(a: nat) | InFrame(st: nat, at: nat) | Lost

  /** `pages` and `permits` hold everything leased from the two pools, with its owner. */
  datatype State = State(
    streams: seq<Stream>, acts: map<nat, Activity>, pageCount: nat, permitCount: nat,
    nextPage: nat, pages: map<nat, Owner>, permits: map<nat, Owner>)
  {
    function At(a: nat, act: Activity): State { this.(acts := acts[a := act]) }

    function On(st: nat, stream: Stream): State
      requires st < |streams|
    {
      this.(streams := streams[st := stream])
    }

    /** `PagePool::release` and `IssuancePool::release`: accepted, or refused and then owned by nobody. */
    function FreePage(page: nat, ok: bool): State {
      this.(pages := if ok then pages - {page} else pages[page := Lost])
    }

    function FreePermit(permit: nat, ok: bool): State {
      this.(permits := if permit !in permits then permits
            else if ok then permits - {permit} else permits[permit := Lost])
    }

    function Give(page: nat, permit: nat, owner: Owner): State {
      this.(pages := pages[page := owner], permits := permits[permit := owner])
    }
  }

  function SaturatingNext(id: nat): nat { if id < ID_MAX then id + 1 else ID_MAX }

  datatype Start = StartBegin(st: nat) | StartClose(st: nat) | StartAccept(st: nat, at: nat)

  /**
   * What an access may find: whether a pool grants or takes back, whether a page header is valid, and what
   * the caller does with an object it owns (finish or drop, send or drop, release or drop).
   */
  datatype Choice = Choice(ok: bool, pick: nat)

  predicate CanStart(s: State, a: nat, start: Start) {
    a !in s.acts && start.st < |s.streams| && (start.StartAccept? ==> start.at < |s.streams[start.st].written|)
  }

  function Begin(s: State, a: nat, start: Start): State
    requires CanStart(s, a, start)
  {
    match start
    case StartBegin(st) => s.At(a, BeginPermit(st))
    case StartClose(st) => s.At(a, CloseEnter(st))
    case StartAccept(st, at) => s.At(a, AcceptEnter(st, at))
  }

  predicate HasStream(act: Activity) {
    !act.Received? && !act.ReleaseAgain? && !act.DropPermit? && !act.Over?
  }

  /** Grants are limited to what the pools have. */
  predicate CanStep(s: State, a: nat, c: Choice) {
    a in s.acts &&
    var act := s.acts[a];
    && !act.Over? && (HasStream(act) ==> act.st < |s.streams|)
    && (act.BeginPermit? && c.ok ==> c.pick < s.permitCount && c.pick !in s.permits)
    && (act.BeginPage? && c.ok ==> |s.pages| < s.pageCount && s.nextPage !in s.pages)
    && (act.AcceptEnter? || act.AcceptCheck? || act.AcceptPage? ==> act.at < |s.streams[act.st].written|)
  }

  predicate OnSender(act: Activity) {
    act.BeginPermit? || act.BeginEnter? || act.BeginPage? || act.BeginCancel?
    || act.CloseEnter? || act.CloseReserve? || act.CloseNote?
  }

  predicate OnOutbound(act: Activity) {
    act.Writer? || act.FinishReserve? || act.FinishStore? || act.WriterRelease?
    || act.WriterCancel? || act.Outbound? || act.Sent? || act.OutboundRelease?
    || act.OutboundFinish?
  }

  predicate OnReceiver(act: Activity) {
    act.AcceptEnter? || act.AcceptCheck? || act.AcceptCancel? || act.AcceptPage?
    || act.AcceptReject? || act.AcceptRejectCancel? || act.AcceptAdvance? || act.AcceptFinish?
    || act.CloseAdvance? || act.CloseFinish?
  }

  /** Beginning and closing a sender. */
  function SenderStep(s: State, a: nat, c: Choice): State
    requires CanStep(s, a, c)
  {
    var act := s.acts[a];
    match act
    case BeginPermit(st) =>
      if c.ok then s.(permits := s.permits[c.pick := ByActivity(a)]).At(a, BeginEnter(st, c.pick))
      else s.At(a, Over(NoPermits))
    case BeginEnter(st, permit) =>
      var stream := s.streams[st];
      (match stream.txPhase
       case TxIdle => s.On(st, stream.(txPhase := Writing, txHolder := Some(a))).At(a, BeginPage(st, permit))
       case TxClosed => s.At(a, DropPermit(permit, TxRefusedClosed))
       case _ => s.At(a, DropPermit(permit, TxBusy)))
    case BeginPage(st, permit) =>
      if c.ok then
        s.(nextPage := s.nextPage + 1, pages := s.pages[s.nextPage := ByActivity(a)]).At(a,
              Writer(st, s.nextPage, permit))
      else s.At(a, BeginCancel(st, permit))
    case BeginCancel(st, permit) => ToIdle(s, st).At(a, DropPermit(permit, NoPages))
    case CloseEnter(st) =>
      var stream := s.streams[st];
      (match stream.txPhase
       case TxIdle => s.On(st, stream.(txPhase := TxClosed, txHolder := Some(a))).At(a, CloseReserve(st))
       case TxClosed => s.At(a, Over(TxRefusedClosed))
       case _ => s.At(a, Over(TxBusy)))
    case CloseReserve(st) =>
      var stream := s.streams[st];
      s.On(st, stream.(txNext := SaturatingNext(stream.txNext))).At(a, CloseNote(st, stream.txNext))
    case CloseNote(st, id) =>
      var stream := s.streams[st];
      s.On(st, stream.(txHolder := None, written := if c.ok then stream.written + [CloseFrame(id)] else stream.written))
       .At(a, Over(CloseWritten))
    case _ => s
  }

  /** A page from its writer to the carrier, or back. */
  function OutboundStep(s: State, a: nat, c: Choice): State
    requires CanStep(s, a, c)
  {
    var act := s.acts[a];
    match act
    case Writer(st, page, permit) =>
      s.At(a, if c.ok then FinishReserve(st, page, permit) else WriterRelease(st, page, permit))
    case FinishReserve(st, page, permit) =>
      var stream := s.streams[st];
      s.On(st, stream.(txNext := SaturatingNext(stream.txNext))).At(a, FinishStore(st, stream.txNext, page, permit))
    case FinishStore(st, id, page, permit) =>
      s.On(st, s.streams[st].(txPhase := OutboundPending)).At(a, Outbound(st, id, page, permit))
    case WriterRelease(st, page, permit) => s.FreePage(page, c.ok).At(a, WriterCancel(st, permit))
    case WriterCancel(st, permit) => ToIdle(s, st).At(a, DropPermit(permit, WriterDropped))
    case Outbound(st, id, page, permit) =>
      if c.ok then
        var stream := s.streams[st];
        s.On(st, stream.(written := stream.written + [PageFrame(id, page, permit)]))
         .Give(page, permit, InFrame(st, |stream.written|)).At(a, Sent(st))
      else s.At(a, OutboundRelease(st, page, permit))
    case Sent(st) => ToIdle(s, st).At(a, Over(PageSent))
    case OutboundRelease(st, page, permit) => s.FreePage(page, c.ok).At(a, OutboundFinish(st, permit))
    case OutboundFinish(st, permit) => ToIdle(s, st).At(a, DropPermit(permit, OutboundDropped))
    case _ => s
  }

  /** Accepting one frame. */
  function ReceiverStep(s: State, a: nat, c: Choice): State
    requires CanStep(s, a, c)
  {
    var act := s.acts[a];
    match act
    case AcceptEnter(st, at) =>
      var stream := s.streams[st];
      (match stream.rxPhase
       case RxIdle => s.On(st, stream.(rxPhase := Accepting, rxHolder := Some(a))).At(a, AcceptCheck(st, at))
       case RxClosed => s.At(a, Over(RxRefusedClosed))
       case Accepting => s.At(a, Over(RxBusy)))
    case AcceptCheck(st, at) =>
      var frame := s.streams[st].written[at];
      if frame.id != s.streams[st].rxNext then s.At(a, AcceptCancel(st, UnexpectedTransferId))
      else if frame.CloseFrame? then s.At(a, CloseAdvance(st, at))
      else s.At(a, AcceptPage(st, at))
    case AcceptCancel(st, outcome) => RxToIdle(s, st).At(a, Over(outcome))
    case AcceptPage(st, at) =>
      var frame := s.streams[st].written[at];
      if frame.CloseFrame? || frame.page !in s.pages || s.pages[frame.page] != InFrame(st, at)
      then s.At(a, AcceptCancel(st, AccessRefused))   // the guard's own release is refused as well
      else s.(pages := s.pages[frame.page := ByActivity(a)],
              permits := if frame.permit in s.permits && s.permits[frame.permit] == InFrame(st, at)
                         then s.permits[frame.permit := ByActivity(a)] else s.permits)
            .At(a, if c.ok then AcceptAdvance(st, at, frame.page, frame.permit)
                   else AcceptReject(st, at, frame.page, frame.permit))
    case AcceptReject(st, at, page, permit) =>
      // a refused release leaves the page detached, where its frame still finds it
      s.(pages := if c.ok then s.pages - {page} else s.pages[page := InFrame(st, at)]).At(a,
            AcceptRejectCancel(st, permit))
    case AcceptRejectCancel(st, permit) => RxToIdle(s, st).At(a, DropPermit(permit, InvalidPage))
    case AcceptAdvance(st, at, page, permit) =>
      var stream := s.streams[st];
      s.On(st, stream.(rxNext := SaturatingNext(stream.rxNext), accepted := stream.accepted + 1)).At(a,
            AcceptFinish(st, page, permit))
    case AcceptFinish(st, page, permit) => RxToIdle(s, st).At(a, Received(page, permit))
    case CloseAdvance(st, at) =>
      var stream := s.streams[st];
      s.On(st, stream.(rxNext := SaturatingNext(stream.rxNext), accepted := stream.accepted + 1)).At(a, CloseFinish(st))
    case CloseFinish(st) => s.On(st, s.streams[st].(rxPhase := RxClosed, rxHolder := None)).At(a, Over(AcceptedClose))
    case _ => s
  }

  /** Giving back a received page, and the permit release that ends most paths. */
  function ReleaseStep(s: State, a: nat, c: Choice): State
    requires CanStep(s, a, c)
  {
    var act := s.acts[a];
    match act
    case Received(page, permit) =>
      if !c.ok && c.pick == 0 then s.At(a, ReleaseAgain(page, permit))   // `release` failed, its drop tries again
      else s.FreePage(page, c.ok).At(a, DropPermit(permit, PageReleased))
    case ReleaseAgain(page, permit) => s.FreePage(page, c.ok).At(a, DropPermit(permit, PageReleased))
    case DropPermit(permit, outcome) => s.FreePermit(permit, c.ok).At(a, Over(outcome))
    case _ => s
  }

  /** One atomic access of activity `a`. */
  function Step(s: State, a: nat, c: Choice): State
    requires CanStep(s, a, c)
  {
    if OnSender(s.acts[a]) then SenderStep(s, a, c)
    else if OnOutbound(s.acts[a]) then OutboundStep(s, a, c)
    else if OnReceiver(s.acts[a]) then ReceiverStep(s, a, c)
    else ReleaseStep(s, a, c)
  }

  function ToIdle(s: State, st: nat): State
    requires st < |s.streams|
  {
    s.On(st, s.streams[st].(txPhase := TxIdle, txHolder := None))
  }

  function RxToIdle(s: State, st: nat): State
    requires st < |s.streams|
  {
    s.On(st, s.streams[st].(rxPhase := RxIdle, rxHolder := None))
  }

  // ---- Invariant -------------------------------------------------------------------------

  function PageOf(act: Activity): Option<nat> {
    match act
    case Writer(_, page, _) => Some(page)
    case FinishReserve(_, page, _) => Some(page)
    case FinishStore(_, _, page, _) => Some(page)
    case WriterRelease(_, page, _) => Some(page)
    case Outbound(_, _, page, _) => Some(page)
    case OutboundRelease(_, page, _) => Some(page)
    case AcceptReject(_, _, page, _) => Some(page)
    case AcceptAdvance(_, _, page, _) => Some(page)
    case AcceptFinish(_, page, _) => Some(page)
    case Received(page, _) => Some(page)
    case ReleaseAgain(page, _) => Some(page)
    case _ => None
  }

  function PermitOf(act: Activity): Option<nat> {
    match act
    case BeginEnter(_, permit) => Some(permit)
    case BeginPage(_, permit) => Some(permit)
    case BeginCancel(_, permit) => Some(permit)
    case Writer(_, _, permit) => Some(permit)
    case FinishReserve(_, _, permit) => Some(permit)
    case FinishStore(_, _, _, permit) => Some(permit)
    case WriterRelease(_, _, permit) => Some(permit)
    case WriterCancel(_, permit) => Some(permit)
    case Outbound(_, _, _, permit) => Some(permit)
    case OutboundRelease(_, _, permit) => Some(permit)
    case OutboundFinish(_, permit) => Some(permit)
    case AcceptReject(_, _, _, permit) => Some(permit)
    case AcceptRejectCancel(_, permit) => Some(permit)
    case AcceptAdvance(_, _, _, permit) => Some(permit)
    case AcceptFinish(_, _, permit) => Some(permit)
    case Received(_, permit) => Some(permit)
    case ReleaseAgain(_, permit) => Some(permit)
    case DropPermit(permit, _) => Some(permit)
    case _ => None
  }

  /** The sender phase an activity keeps busy, if any. */
  function TxOf(act: Activity): Option<(nat, TxPhase)> {
    match act
    case BeginPage(st, _) => Some((st, Writing))
    case BeginCancel(st, _) => Some((st, Writing))
    case Writer(st, _, _) => Some((st, Writing))
    case FinishReserve(st, _, _) => Some((st, Writing))
    case FinishStore(st, _, _, _) => Some((st, Writing))
    case WriterRelease(st, _, _) => Some((st, Writing))
    case WriterCancel(st, _) => Some((st, Writing))
    case Outbound(st, _, _, _) => Some((st, OutboundPending))
    case Sent(st) => Some((st, OutboundPending))
    case OutboundRelease(st, _, _) => Some((st, OutboundPending))
    case OutboundFinish(st, _) => Some((st, OutboundPending))
    case CloseReserve(st) => Some((st, TxClosed))
    case CloseNote(st, _) => Some((st, TxClosed))
    case _ => None
  }

  function RxOf(act: Activity): Option<nat> {
    match act
    case AcceptCheck(st, _) => Some(st)
    case AcceptCancel(st, _) => Some(st)
    case AcceptPage(st, _) => Some(st)
    case AcceptReject(st, _, _, _) => Some(st)
    case AcceptRejectCancel(st, _) => Some(st)
    case AcceptAdvance(st, _, _, _) => Some(st)
    case AcceptFinish(st, _, _) => Some(st)
    case CloseAdvance(st, _) => Some(st)
    case CloseFinish(st) => Some(st)
    case _ => None
  }

  /** The id was reserved after everything already written. */
  ghost predicate FreshId(stream: Stream, id: nat) {
    1 <= id < stream.txNext && forall j :: 0 <= j < |stream.written| ==> stream.written[j].id < id
  }

  ghost predicate IdOk(stream: Stream, act: Activity) {
    match act
    case FinishStore(_, id, _, _) => FreshId(stream, id)
    case Outbound(_, id, _, _) => FreshId(stream, id)
    case CloseNote(_, id) => FreshId(stream, id)
    case _ => true
  }

  ghost predicate FrameOk(stream: Stream, act: Activity) {
    match act
    case AcceptEnter(_, at) => at < |stream.written|
    case AcceptCheck(_, at) => at < |stream.written|
    case AcceptPage(_, at) => at == stream.accepted < |stream.written| && stream.written[at].PageFrame?
        && stream.written[at].id == stream.rxNext
    case AcceptReject(_, at, page, permit) =>
      at == stream.accepted < |stream.written| && stream.written[at] == PageFrame(stream.rxNext, page, permit)
    case AcceptAdvance(_, at, page, permit) =>
      at == stream.accepted < |stream.written| && stream.written[at] == PageFrame(stream.rxNext, page, permit)
    case CloseAdvance(_, at) => at == stream.accepted < |stream.written|
        && stream.written[at] == CloseFrame(stream.rxNext)
    case CloseFinish(_) => 0 < stream.accepted <= |stream.written| && stream.written[stream.accepted - 1].CloseFrame?
    case _ => true
  }

  ghost predicate ActOk(s: State, a: nat)
    requires a in s.acts
  {
    var act := s.acts[a];
    && (PageOf(act).Some? ==> PageOf(act).value in s.pages && s.pages[PageOf(act).value] == ByActivity(a))
    && (HasStream(act) ==> act.st < |s.streams| && IdOk(s.streams[act.st], act) && FrameOk(s.streams[act.st], act))
    && (TxOf(act).Some? ==> TxOf(act).value.0 < |s.streams| && s.streams[TxOf(act).value.0].txHolder == Some(a))
    && (RxOf(act).Some? ==> RxOf(act).value < |s.streams| && s.streams[RxOf(act).value].rxHolder == Some(a))
  }

  ghost predicate Ascending(written: seq<Frame>) {
    forall i, j :: 0 <= i < j < |written| ==> written[i].id < written[j].id
  }

  /** The ids written so far, and the prefix of them that was accepted. */
  ghost predicate CarrierOk(stream: Stream) {
    && 1 <= stream.txNext <= ID_MAX && Ascending(stream.written)
    && (forall j :: 0 <= j < |stream.written| ==> 1 <= stream.written[j].id < stream.txNext)
    && stream.accepted <= |stream.written| && stream.rxNext == stream.accepted + 1
    && (forall j :: 0 <= j < stream.accepted ==> stream.written[j].id == j + 1)
    && (forall j :: 0 <= j < |stream.written| && stream.written[j].CloseFrame? ==>
          j == |stream.written| - 1 && stream.txPhase.TxClosed? && stream.txHolder.None?)
    && (stream.rxPhase.RxClosed? ==> 0 < stream.accepted && stream.written[stream.accepted - 1].CloseFrame?)
  }

  /** A busy phase has exactly one activity behind it. */
  ghost predicate HoldersOk(s: State, st: nat)
    requires st < |s.streams|
  {
    var stream := s.streams[st];
    && (match stream.txHolder
        case None => stream.txPhase.TxIdle? || stream.txPhase.TxClosed?
        case Some(a) => a in s.acts && TxOf(s.acts[a]) == Some((st, stream.txPhase)))
    && (match stream.rxHolder
        case None => !stream.rxPhase.Accepting?
        case Some(a) => stream.rxPhase.Accepting? && a in s.acts && RxOf(s.acts[a]) == Some(st))
  }

  ghost predicate IsFrame(s: State, st: nat, at: nat) {
    st < |s.streams| && s.streams[st].accepted <= at < |s.streams[st].written| && s.streams[st].written[at].PageFrame?
  }

  /** A leased page has one owner. */
  ghost predicate PageOk(s: State, x: nat)
    requires x in s.pages
  {
    && x < s.nextPage
    && match s.pages[x]
       case ByActivity(a) => a in s.acts && PageOf(s.acts[a]) == Some(x)
       case InFrame(st, at) => IsFrame(s, st, at) && s.streams[st].written[at].page == x
       case Lost => true
  }

  /** Streams, carriers and pages are in order; nothing is said of permits. */
  ghost predicate Sound(s: State) {
    && (forall a :: a in s.acts ==> ActOk(s, a))
    && (forall st: nat :: st < |s.streams| ==> HoldersOk(s, st) && CarrierOk(s.streams[st]))
    && (forall x :: x in s.pages ==> PageOk(s, x))
  }

  // ---- Preservation -----------------------------------------------------------------------

  /** Stream fields that belong to another activity stay, and the carrier only grows. */
  ghost predicate StreamKeeps(stream: Stream, stream': Stream, a: nat) {
    && (forall b: nat :: b != a && stream.txHolder == Some(b) ==>
          stream'.txHolder == Some(b) && stream'.txPhase == stream.txPhase && stream'.txNext == stream.txNext
              && stream'.written == stream.written)
    && (forall b: nat :: b != a && stream.rxHolder == Some(b) ==>
          stream'.rxHolder == Some(b) && stream'.rxPhase == stream.rxPhase && stream'.rxNext == stream.rxNext
              && stream'.accepted == stream.accepted)
    && stream.written <= stream'.written
  }

  /** What other activities own stays theirs. */
  ghost predicate TokensKeep(owners: map<nat, Owner>, owners': map<nat, Owner>, a: nat) {
    forall x, b: nat :: b != a && x in owners && owners[x] == ByActivity(b) ==>
        x in owners' && owners'[x] == ByActivity(b)
  }

  ghost predicate Undisturbed(s: State, s': State, a: nat) {
    && a in s'.acts && s'.acts == s.acts[a := s'.acts[a]]
    && |s'.streams| == |s.streams|
    && (forall st: nat :: st < |s.streams| ==> StreamKeeps(s.streams[st], s'.streams[st], a))
    && TokensKeep(s.pages, s'.pages, a)
  }

  lemma OwnStream(act: Activity)
    ensures TxOf(act).Some? ==> HasStream(act) && TxOf(act).value.0 == act.st
    ensures RxOf(act).Some? ==> HasStream(act) && RxOf(act).value == act.st
  {
  }

  lemma OthersKeep(s: State, s': State, a: nat, b: nat)
    requires Sound(s) && Undisturbed(s, s', a) && b in s.acts && b != a
    ensures ActOk(s', b)
  {
    hide PageOf, TxOf, RxOf, IdOk, FrameOk, CarrierOk, HoldersOk, PageOk;
    assert ActOk(s, b);
    var act := s.acts[b];
    OwnStream(act);
    if HasStream(act) {
      var st := act.st;
      assert StreamKeeps(s.streams[st], s'.streams[st], a);
      OthersStream(s.streams[st], s'.streams[st], act, a, b);
    }
  }

  lemma OthersStream(stream: Stream, stream': Stream, act: Activity, a: nat, b: nat)
    requires StreamKeeps(stream, stream', a) && a != b && IdOk(stream, act) && FrameOk(stream, act)
    requires TxOf(act).Some? ==> stream.txHolder == Some(b)
    requires RxOf(act).Some? ==> stream.rxHolder == Some(b)
    ensures IdOk(stream', act) && FrameOk(stream', act)
    ensures TxOf(act).Some? ==> stream'.txHolder == Some(b)
    ensures RxOf(act).Some? ==> stream'.rxHolder == Some(b)
  {
  }

  /** A step of `a` keeps the invariant if it keeps it for `a`, for the streams and for what `a` or a frame owns. */
  lemma Keep(s: State, s': State, a: nat)
    requires Sound(s) && Undisturbed(s, s', a)
    requires ActOk(s', a)
    requires forall st: nat :: st < |s'.streams| ==> HoldersOk(s', st) && CarrierOk(s'.streams[st])
    requires forall x :: x in s'.pages ==> PageOk(s', x)
    ensures Sound(s')
  {
    forall b | b in s'.acts ensures ActOk(s', b) {
      if b != a { OthersKeep(s, s', a, b); }
    }
  }

  /** Only the activity moves: it keeps what it owns and the phases it holds. */
  lemma Quiet(s: State, a: nat, act: Activity)
    requires Sound(s) && a in s.acts
    requires PageOf(act) == PageOf(s.acts[a])
    requires TxOf(act) == TxOf(s.acts[a]) && RxOf(act) == RxOf(s.acts[a])
    requires HasStream(act) ==> HasStream(s.acts[a]) && act.st == s.acts[a].st
    requires HasStream(act) ==> act.st < |s.streams| && IdOk(s.streams[act.st], act) && FrameOk(s.streams[act.st], act)
    ensures Sound(s.At(a, act))
  {
    hide PageOf, TxOf, RxOf, IdOk, FrameOk, HasStream, CarrierOk;
    var s' := s.At(a, act);
    assert ActOk(s, a);
    forall st: nat | st < |s.streams| ensures HoldersOk(s', st) { assert HoldersOk(s, st); }
    forall x | x in s'.pages ensures PageOk(s', x) { assert PageOk(s, x); }
    Keep(s, s', a);
  }

  /** The phases of stream `st` agree with what activity `a` now does. */
  ghost predicate PhasesFit(stream: Stream, stream': Stream, st: nat, a: nat, act: Activity) {
    && (stream'.txHolder == Some(a) <==> TxOf(act) == Some((st, stream'.txPhase)))
    && (stream'.txHolder == Some(a) <==> TxOf(act).Some?)
    && (stream'.txHolder.None? ==> stream'.txPhase.TxIdle? || stream'.txPhase.TxClosed?)
    && (stream'.txHolder.Some? && stream'.txHolder != Some(a) ==>
          stream.txHolder == stream'.txHolder && stream'.txPhase == stream.txPhase)
    && (stream'.rxHolder == Some(a) <==> RxOf(act) == Some(st)) && (stream'.rxHolder == Some(a) <==> RxOf(act).Some?)
    && (stream'.rxHolder == Some(a) ==> stream'.rxPhase.Accepting?)
    && (stream'.rxHolder.None? ==> !stream'.rxPhase.Accepting?)
    && (stream'.rxHolder.Some? && stream'.rxHolder != Some(a) ==>
          stream.rxHolder == stream'.rxHolder && stream'.rxPhase == stream.rxPhase)
  }

  lemma HoldersStay(s: State, s': State, a: nat, st: nat, k: nat)
    requires Sound(s) && a in s.acts && st < |s.streams| && a in s'.acts && s'.acts == s.acts[a := s'.acts[a]]
    requires HasStream(s.acts[a]) && s.acts[a].st == st
    requires |s'.streams| == |s.streams| && s'.streams == s.streams[st := s'.streams[st]]
    requires PhasesFit(s.streams[st], s'.streams[st], st, a, s'.acts[a])
    requires k < |s.streams|
    ensures HoldersOk(s', k)
  {
    hide TxOf, RxOf, CarrierOk, PageOk, ActOk;
    assert HoldersOk(s, k) && HoldersOk(s, st);
    OwnStream(s.acts[a]);
  }

  /** A step on one stream that moves no page. */
  lemma StreamStep(s: State, a: nat, stream': Stream, act: Activity)
    requires Sound(s) && a in s.acts && HasStream(s.acts[a]) && s.acts[a].st < |s.streams|
    requires PageOf(act) == PageOf(s.acts[a])
    requires HasStream(act) ==> act.st == s.acts[a].st && IdOk(stream', act) && FrameOk(stream', act)
    requires StreamKeeps(s.streams[s.acts[a].st], stream', a) && CarrierOk(stream')
    requires PhasesFit(s.streams[s.acts[a].st], stream', s.acts[a].st, a, act)
    requires stream'.accepted == s.streams[s.acts[a].st].accepted
    ensures Sound(s.On(s.acts[a].st, stream').At(a, act))
  {
    hide PageOf, TxOf, RxOf, IdOk, FrameOk, CarrierOk;
    var st := s.acts[a].st;
    var s' := s.On(st, stream').At(a, act);
    assert ActOk(s, a);
    OwnStream(act);
    hide PhasesFit, HasStream;
    forall k: nat | k < |s.streams| ensures HoldersOk(s', k) { HoldersStay(s, s', a, st, k); }
    hide HoldersOk, ActOk;
    forall x | x in s'.pages ensures PageOk(s', x) { assert PageOk(s, x); }
    assert ActOk(s', a) by { StreamStepAct(s, s', a, st); }
    Keep(s, s', a);
  }

  lemma StreamStepAct(s: State, s': State, a: nat, st: nat)
    requires a in s.acts && ActOk(s, a) && a in s'.acts && st < |s'.streams|
    requires PageOf(s'.acts[a]) == PageOf(s.acts[a])
    requires s'.pages == s.pages
    requires HasStream(s'.acts[a]) ==>
              s'.acts[a].st == st && IdOk(s'.streams[st], s'.acts[a]) && FrameOk(s'.streams[st], s'.acts[a])
    requires TxOf(s'.acts[a]).Some? ==> s'.streams[st].txHolder == Some(a)
    requires RxOf(s'.acts[a]).Some? ==> s'.streams[st].rxHolder == Some(a)
    ensures ActOk(s', a)
  {
    hide PageOf, TxOf, RxOf, IdOk, FrameOk;
    OwnStream(s'.acts[a]);
  }

  /** A step that moves tokens and leaves every stream alone. */
  lemma TokenStep(s: State, s': State, a: nat)
    requires Sound(s) && a in s.acts && a in s'.acts && s'.acts == s.acts[a := s'.acts[a]] && s'.streams == s.streams
    requires TxOf(s'.acts[a]) == TxOf(s.acts[a]) && RxOf(s'.acts[a]) == RxOf(s.acts[a])
    requires TokensKeep(s.pages, s'.pages, a) && ActOk(s', a)
    requires forall x :: x in s'.pages ==> PageOk(s', x)
    ensures Sound(s')
  {
    hide TxOf, RxOf, CarrierOk, ActOk, PageOk;
    forall k: nat | k < |s.streams| ensures HoldersOk(s', k) { assert HoldersOk(s, k); }
    hide HoldersOk;
    Keep(s, s', a);
  }

  lemma PermitsFree(s: State, permits: map<nat, Owner>)
    requires Sound(s)
    ensures Sound(s.(permits := permits))
  {
    hide TxOf, RxOf, PageOf, CarrierOk, IdOk, FrameOk;
    var s' := s.(permits := permits);
    forall a | a in s'.acts ensures ActOk(s', a) { assert ActOk(s, a); }
    forall st: nat | st < |s'.streams| ensures HoldersOk(s', st) { assert HoldersOk(s, st); }
    forall x | x in s'.pages ensures PageOk(s', x) { assert PageOk(s, x); }
  }

  /** Only the activity and the permits move. */
  lemma PermitMoves(s: State, a: nat, act: Activity, permits: map<nat, Owner>)
    requires Sound(s) && a in s.acts
    requires PageOf(act) == PageOf(s.acts[a]) && TxOf(act) == TxOf(s.acts[a]) && RxOf(act) == RxOf(s.acts[a])
    requires HasStream(act) ==> HasStream(s.acts[a]) && act.st == s.acts[a].st
    requires HasStream(act) ==> act.st < |s.streams| && IdOk(s.streams[act.st], act) && FrameOk(s.streams[act.st], act)
    ensures Sound(s.(permits := permits).At(a, act))
  {
    hide Sound, PageOf, TxOf, RxOf, IdOk, FrameOk, HasStream;
    Quiet(s, a, act);
    PermitsFree(s.At(a, act), permits);
  }

  lemma TakesPermit(s: State, a: nat, c: Choice)
    requires Sound(s) && CanStep(s, a, c) && s.acts[a].BeginPermit? && c.ok
    ensures Sound(Step(s, a, c))
  {
    hide Sound;
    ActFacts(s, a);
    PermitMoves(s, a, BeginEnter(s.acts[a].st, c.pick), s.permits[c.pick := ByActivity(a)]);
  }

  lemma TakesPage(s: State, a: nat, c: Choice)
    requires Sound(s) && CanStep(s, a, c) && s.acts[a].BeginPage? && c.ok
    ensures Sound(Step(s, a, c))
  {
    hide Sound;
    ActFacts(s, a);
    GrantsToken(s, Step(s, a, c), a);
  }

  /** The pool grants `a` a page that nobody had. */
  lemma GrantsToken(s: State, s': State, a: nat)
    requires Sound(s) && a in s.acts && a in s'.acts && s'.acts == s.acts[a := s'.acts[a]] && s'.streams == s.streams
    requires TxOf(s'.acts[a]) == TxOf(s.acts[a]) && RxOf(s'.acts[a]) == RxOf(s.acts[a]) && ActOk(s', a)
    requires PageOf(s.acts[a]).None? && PageOf(s'.acts[a]) == Some(s.nextPage) && s.nextPage !in s.pages
    requires s'.pages == s.pages[s.nextPage := ByActivity(a)] && s'.nextPage == s.nextPage + 1
    ensures Sound(s')
  {
    hide TxOf, RxOf, CarrierOk, ActOk, PageOf, HoldersOk;
    forall x | x in s'.pages ensures PageOk(s', x) { if x in s.pages { assert PageOk(s, x); } }
    TokenStep(s, s', a);
  }

  /** The page of `a` goes back to the pool, or is lost to it. */
  lemma GivesUpPage(s: State, a: nat, ok: bool, act: Activity)
    requires Sound(s) && a in s.acts && PageOf(s.acts[a]).Some? && PageOf(act).None?
    requires TxOf(act) == TxOf(s.acts[a]) && RxOf(act) == RxOf(s.acts[a])
    requires HasStream(act) ==> HasStream(s.acts[a]) && act.st == s.acts[a].st
    requires HasStream(act) ==> act.st < |s.streams| && IdOk(s.streams[act.st], act) && FrameOk(s.streams[act.st], act)
    ensures Sound(s.FreePage(PageOf(s.acts[a]).value, ok).At(a, act))
  {
    var s' := s.FreePage(PageOf(s.acts[a]).value, ok).At(a, act);
    PagesWithout(s, a, ok, act);
    hide Sound, TxOf, RxOf, CarrierOk, PageOf, HoldersOk, IdOk, FrameOk, PageOk;
    ActFacts(s, a);
    assert ActOk(s', a) by { OwnStream(act); }
    hide ActOk, HasStream;
    TokenStep(s, s', a);
  }

  lemma PagesWithout(s: State, a: nat, ok: bool, act: Activity)
    requires Sound(s) && a in s.acts && PageOf(s.acts[a]).Some? && PageOf(act).None?
    ensures var s' := s.FreePage(PageOf(s.acts[a]).value, ok).At(a, act);
            TokensKeep(s.pages, s'.pages, a) && forall x :: x in s'.pages ==> PageOk(s', x)
  {
    var page := PageOf(s.acts[a]).value;
    var s' := s.FreePage(page, ok).At(a, act);
    ActFacts(s, a);
    hide TxOf, RxOf, CarrierOk, PageOf, HoldersOk, IdOk, FrameOk, ActOk, HasStream;
    assert page in s.pages && s.pages[page] == ByActivity(a);
    forall x | x in s'.pages ensures PageOk(s', x) { assert PageOk(s, x); }
  }

  /** A page that its receiver could not give back is where its frame still finds it. */
  lemma PutsBack(s: State, a: nat, c: Choice)
    requires Sound(s) && CanStep(s, a, c) && s.acts[a].AcceptReject? && !c.ok
    ensures Sound(Step(s, a, c))
  {
    hide SenderStep, OutboundStep, ReleaseStep, Sound;
    assert BackInFrame(s, Step(s, a, c), a);
    PageBackInFrame(s, Step(s, a, c), a);
  }

  /** A rejected page is back in its frame. */
  ghost predicate BackInFrame(s: State, s': State, a: nat) {
    a in s.acts && s.acts[a].AcceptReject? &&
    var AcceptReject(st, at, page, permit) := s.acts[a];
    s' == s.(pages := s.pages[page := InFrame(st, at)], acts := s.acts[a := AcceptRejectCancel(st, permit)])
  }

  lemma PageBackInFrame(s: State, s': State, a: nat)
    requires Sound(s) && BackInFrame(s, s', a)
    ensures Sound(s')
  {
    PagesBack(s, s', a);
    RejecterBack(s, s', a);
    hide Sound, ActOk, PageOk;
    TokenStep(s, s', a);
  }

  lemma RejecterBack(s: State, s': State, a: nat)
    requires Sound(s) && BackInFrame(s, s', a)
    ensures ActOk(s', a) && TokensKeep(s.pages, s'.pages, a)
  {
    hide Sound, CarrierOk;
    ActFacts(s, a);
  }

  lemma PagesBack(s: State, s': State, a: nat)
    requires Sound(s) && BackInFrame(s, s', a)
    ensures forall x :: x in s'.pages ==> PageOk(s', x)
  {
    ActFacts(s, a);
    hide CarrierOk, HoldersOk, ActOk;
    forall x | x in s'.pages ensures PageOk(s', x) { assert PageOk(s, x); }
  }

  /** The page of a frame moves into the accepting call. */
  lemma TakesTokens(s: State, s': State, a: nat, st: nat, at: nat)
    requires Sound(s) && a in s.acts && a in s'.acts && IsFrame(s, st, at) && at == s.streams[st].accepted
    requires PageOf(s.acts[a]).None?
    requires s.streams[st].written[at].page in s.pages && s.pages[s.streams[st].written[at].page] == InFrame(st, at)
    requires s'.acts == s.acts[a := s'.acts[a]] && s'.streams == s.streams && s'.nextPage == s.nextPage
    requires s'.pages == s.pages[s.streams[st].written[at].page := ByActivity(a)]
    requires PageOf(s'.acts[a]) == Some(s.streams[st].written[at].page)
    requires TxOf(s'.acts[a]) == TxOf(s.acts[a]) && RxOf(s'.acts[a]) == RxOf(s.acts[a]) && ActOk(s', a)
    ensures Sound(s')
  {
    hide TxOf, RxOf, CarrierOk, PageOf, HoldersOk, ActOk;
    var frame := s.streams[st].written[at];
    assert PageOk(s, frame.page);
    forall x | x in s'.pages ensures PageOk(s', x) { if x != frame.page { assert PageOk(s, x); } }
    TokenStep(s, s', a);
  }

  lemma TakesFrame(s: State, a: nat, c: Choice)
    requires Sound(s) && CanStep(s, a, c) && s.acts[a].AcceptPage?
    ensures Sound(Step(s, a, c))
  {
    hide CarrierOk, Sound;
    var AcceptPage(st, at) := s.acts[a];
    ActFacts(s, a);
    var frame := s.streams[st].written[at];
    if frame.page !in s.pages || s.pages[frame.page] != InFrame(st, at) {
      Quiet(s, a, AcceptCancel(st, AccessRefused));
    } else {
      PageFacts(s, frame.page);
      TakesTokens(s, Step(s, a, c), a, st, at);
    }
  }

  lemma PageFacts(s: State, x: nat)
    requires Sound(s) && x in s.pages
    ensures PageOk(s, x)
  {
    hide TxOf, RxOf, PageOf, CarrierOk, ActOk, HoldersOk, PageOk;
  }

  lemma ExpectedIsNext(stream: Stream, at: nat)
    requires CarrierOk(stream) && at < |stream.written| && stream.written[at].id == stream.rxNext
    ensures at == stream.accepted
  {
    AtLeastPosition(stream, at);
    if at > stream.accepted { AtLeastPosition(stream, stream.accepted); }
  }

  /** Ascending ids starting at one: the id at a position is at least the position plus one. */
  lemma {:induction false} AtLeastPosition(stream: Stream, j: nat)
    requires CarrierOk(stream) && j < |stream.written|
    ensures stream.written[j].id >= j + 1
  {
    if j > 0 { AtLeastPosition(stream, j - 1); }
  }

  lemma FrameAppended(stream: Stream, frame: Frame)
    requires CarrierOk(stream) && FreshId(stream, frame.id) && stream.txHolder.Some?
    ensures var closing := frame.CloseFrame?;
            stream.txPhase.TxClosed? || !closing ==>
              CarrierOk(stream.(written := stream.written + [frame],
                                txHolder := if closing then None else stream.txHolder))
  {
  }

  lemma AcceptedWithin(stream: Stream)
    requires CarrierOk(stream)
    ensures stream.accepted <= |stream.written|
  {
  }

  lemma CarrierAdvances(stream: Stream)
    requires CarrierOk(stream) && stream.accepted < |stream.written|
             && stream.written[stream.accepted].id == stream.rxNext
    requires !stream.rxPhase.RxClosed?
    ensures stream.rxNext < ID_MAX
    ensures CarrierOk(stream.(rxNext := stream.rxNext + 1, accepted := stream.accepted + 1))
  {
  }

  /** Writing a page frame hands its page to the carrier. */
  lemma WritesFrame(s: State, a: nat, c: Choice)
    requires Sound(s) && CanStep(s, a, c) && s.acts[a].Outbound? && c.ok
    ensures Sound(Step(s, a, c))
  {
    hide CarrierOk, Sound;
    var Outbound(st, id, page, permit) := s.acts[a];
    ActFacts(s, a);
    var stream := s.streams[st];
    FrameAppended(stream, PageFrame(id, page, permit));
    var s' := Step(s, a, c);
    assert ActOk(s', a);
    AcceptedWithin(stream);
    WritesTokens(s, s', a, st, id, page, permit);
  }

  lemma WritesTokens(s: State, s': State, a: nat, st: nat, id: nat, page: nat, permit: nat)
    requires Sound(s) && a in s.acts && a in s'.acts && st < |s.streams| == |s'.streams|
             && s'.acts == s.acts[a := s'.acts[a]]
    requires PageOf(s.acts[a]) == Some(page)
    requires TxOf(s'.acts[a]) == TxOf(s.acts[a]) && RxOf(s'.acts[a]) == RxOf(s.acts[a]) && ActOk(s', a)
    requires PageOf(s'.acts[a]).None? && s'.nextPage == s.nextPage
    requires s.streams[st].txHolder == Some(a) && s'.streams == s.streams[st := s'.streams[st]]
    requires s'.streams[st] == s.streams[st].(written := s.streams[st].written + [PageFrame(id, page, permit)])
    requires CarrierOk(s'.streams[st]) && s.streams[st].accepted <= |s.streams[st].written|
    requires page in s.pages && s.pages[page] == ByActivity(a)
    requires s'.pages == s.pages[page := InFrame(st, |s.streams[st].written|)]
    ensures Sound(s')
  {
    hide TxOf, RxOf, PageOf, CarrierOk, ActOk;
    forall x | x in s'.pages ensures PageOk(s', x) { assert PageOk(s, x); }
    forall k: nat | k < |s.streams| ensures HoldersOk(s', k) && CarrierOk(s'.streams[k]) {
      assert HoldersOk(s, k) && CarrierOk(s.streams[k]);
    }
    hide PageOk, HoldersOk;
    Keep(s, s', a);
  }

  /** The parts of the invariant about one activity and its stream. */
  lemma ActFacts(s: State, a: nat)
    requires Sound(s) && a in s.acts
    ensures ActOk(s, a) && (HasStream(s.acts[a]) ==> s.acts[a].st < |s.streams| && CarrierOk(s.streams[s.acts[a].st]))
  {
    hide TxOf, RxOf, PageOf, CarrierOk, IdOk, FrameOk, HoldersOk, PageOk;
  }

  lemma HolderAccepts(s: State, st: nat, a: nat)
    requires Sound(s) && st < |s.streams| && s.streams[st].rxHolder == Some(a)
    ensures s.streams[st].rxPhase.Accepting?
  {
    hide TxOf, RxOf, CarrierOk, ActOk, PageOk;
    assert HoldersOk(s, st);
  }

  /** Accepting a frame advances the receiver past it. */
  lemma AdvancesPage(s: State, a: nat, c: Choice)
    requires Sound(s) && CanStep(s, a, c) && s.acts[a].AcceptAdvance?
    ensures Sound(Step(s, a, c))
  {
    hide CarrierOk, Sound;
    ActFacts(s, a);
    var st := s.acts[a].st;
    HolderAccepts(s, st, a);
    CarrierAdvances(s.streams[st]);
    var stream' := s.streams[st].(rxNext := s.streams[st].rxNext + 1, accepted := s.streams[st].accepted + 1);
    var s' := s.On(st, stream').At(a, AcceptFinish(st, s.acts[a].page, s.acts[a].permit));
    assert Step(s, a, c) == s';
    var act, act' := s.acts[a], s'.acts[a];
    assert PageOf(act) == PageOf(act') == Some(act.page);
    assert TxOf(act).None? && RxOf(act) == Some(st) && TxOf(act').None? && RxOf(act') == Some(st)
           && IdOk(stream', act');
    hide Step, PageOf, TxOf, RxOf, IdOk;
    assert ActOk(s', a);
    AdvancesTokens(s, s', a, st);
  }

  lemma AdvancesClose(s: State, a: nat, c: Choice)
    requires Sound(s) && CanStep(s, a, c) && s.acts[a].CloseAdvance?
    ensures Sound(Step(s, a, c))
  {
    hide CarrierOk, Sound;
    ActFacts(s, a);
    var st := s.acts[a].st;
    HolderAccepts(s, st, a);
    CarrierAdvances(s.streams[st]);
    var stream' := s.streams[st].(rxNext := s.streams[st].rxNext + 1, accepted := s.streams[st].accepted + 1);
    var s' := s.On(st, stream').At(a, CloseFinish(st));
    assert Step(s, a, c) == s';
    var act, act' := s.acts[a], s'.acts[a];
    assert PageOf(act).None? && TxOf(act).None? && RxOf(act) == Some(st);
    assert PageOf(act').None? && TxOf(act').None? && RxOf(act') == Some(st) && IdOk(stream', act');
    hide Step, PageOf, TxOf, RxOf, IdOk;
    assert ActOk(s', a);
    AdvancesTokens(s, s', a, st);
  }

  lemma AdvancesTokens(s: State, s': State, a: nat, st: nat)
    requires Sound(s) && a in s.acts && a in s'.acts && st < |s.streams| == |s'.streams|
             && s'.acts == s.acts[a := s'.acts[a]]
    requires PageOf(s'.acts[a]) == PageOf(s.acts[a])
    requires TxOf(s'.acts[a]) == TxOf(s.acts[a]) && RxOf(s'.acts[a]) == RxOf(s.acts[a]) && ActOk(s', a)
    requires s'.pages == s.pages && s'.nextPage == s.nextPage
    requires s.streams[st].rxHolder == Some(a) && s'.streams == s.streams[st := s'.streams[st]]
    requires s'.streams[st] == s.streams[st].(rxNext := s'.streams[st].rxNext, accepted := s.streams[st].accepted + 1)
    requires var (at, written) := (s.streams[st].accepted, s.streams[st].written);
             at < |written|
                 && (written[at].PageFrame? ==>
                       written[at].page in s.pages && s.pages[written[at].page] == ByActivity(a))
    requires CarrierOk(s'.streams[st])
    ensures Sound(s')
  {
    hide TxOf, RxOf, PageOf, CarrierOk, ActOk;
    forall x | x in s'.pages ensures PageOk(s', x) { assert PageOk(s, x); }
    forall k: nat | k < |s.streams| ensures HoldersOk(s', k) && CarrierOk(s'.streams[k]) {
      assert HoldersOk(s, k) && CarrierOk(s.streams[k]);
    }
    hide PageOk, HoldersOk;
    Keep(s, s', a);
  }

  // ---- Every step keeps the invariant ------------------------------------------------------

  /** While the sender is not finally closed no close frame is on the carrier, so its side may change. */
  lemma CarrierTx(stream: Stream, stream': Stream)
    requires CarrierOk(stream) && (stream.txHolder.Some? || !stream.txPhase.TxClosed?)
    requires stream' == stream.(txPhase := stream'.txPhase, txHolder := stream'.txHolder, txNext := stream'.txNext)
    requires stream'.txNext == stream.txNext || stream.txNext < stream'.txNext <= ID_MAX
    ensures CarrierOk(stream')
  {
  }

  lemma CarrierRx(stream: Stream, stream': Stream)
    requires CarrierOk(stream) && stream' == stream.(rxPhase := stream'.rxPhase, rxHolder := stream'.rxHolder)
    requires stream'.rxPhase.RxClosed? ==>
              0 < stream.accepted <= |stream.written| && stream.written[stream.accepted - 1].CloseFrame?
    ensures CarrierOk(stream')
  {
  }

  /** The sender is idle or closed exactly when no activity holds it or closing holds it. */
  lemma HolderFacts(s: State, st: nat)
    requires Sound(s) && st < |s.streams|
    ensures HoldersOk(s, st) && CarrierOk(s.streams[st])
  {
    hide TxOf, RxOf, CarrierOk, ActOk, PageOk, HoldersOk;
  }

  lemma HoldsTx(s: State, a: nat, act: Activity, phase: TxPhase)
    requires Sound(s) && a in s.acts && HasStream(s.acts[a]) && s.acts[a].st < |s.streams| && HasStream(act)
             && act.st == s.acts[a].st
    requires s.streams[act.st].txPhase.TxIdle? && (phase.Writing? || phase.TxClosed?)
    requires TxOf(s.acts[a]).None? && TxOf(act) == Some((act.st, phase)) && RxOf(s.acts[a]).None? && RxOf(act).None?
    requires PageOf(act) == PageOf(s.acts[a])
    requires act.BeginPage? || act.CloseReserve?
    ensures Sound(s.On(act.st, s.streams[act.st].(txPhase := phase, txHolder := Some(a))).At(a, act))
  {
    hide Sound, CarrierOk, PageOf, RxOf;
    var st := act.st;
    HolderFacts(s, st);
    ActFacts(s, a);
    hide ActOk, TxOf;
    var s' := s.On(st, s.streams[st].(txPhase := phase, txHolder := Some(a))).At(a, act);
    CarrierTx(s.streams[st], s'.streams[st]);
    StreamStep(s, a, s'.streams[st], act);
  }

  lemma EntersTx(s: State, a: nat, c: Choice)
    requires Sound(s) && CanStep(s, a, c) && (s.acts[a].BeginEnter? || s.acts[a].CloseEnter?)
    ensures Sound(Step(s, a, c))
  {
    hide Sound;
    var st := s.acts[a].st;
    if s.streams[st].txPhase.TxIdle? {
      if s.acts[a].BeginEnter? { HoldsTx(s, a, BeginPage(st, s.acts[a].permit), Writing); }
      else { HoldsTx(s, a, CloseReserve(st), TxClosed); }
    } else {
      Quiet(s, a, Step(s, a, c).acts[a]);
    }
  }

  lemma MakesTxIdle(s: State, a: nat, act: Activity)
    requires Sound(s) && a in s.acts && HasStream(s.acts[a]) && s.acts[a].st < |s.streams|
    requires TxOf(s.acts[a]).Some? && TxOf(act).None? && RxOf(s.acts[a]).None? && RxOf(act).None?
    requires PageOf(act) == PageOf(s.acts[a]) && !HasStream(act)
    ensures Sound(ToIdle(s, s.acts[a].st).At(a, act))
  {
    hide Sound, CarrierOk, PageOf, TxOf, RxOf, IdOk, FrameOk;
    ActFacts(s, a);
    OwnStream(s.acts[a]);
    hide HasStream, ActOk;
    var st := s.acts[a].st;
    HolderFacts(s, st);
    var s' := ToIdle(s, st).At(a, act);
    CarrierTx(s.streams[st], s'.streams[st]);
    StreamStep(s, a, s'.streams[st], act);
  }

  /** `cancel_writer` and `finish_outbound` make the sender idle again. */
  lemma LeavesTx(s: State, a: nat, c: Choice)
    requires Sound(s) && CanStep(s, a, c)
    requires s.acts[a].BeginCancel? || s.acts[a].WriterCancel? || s.acts[a].OutboundFinish? || s.acts[a].Sent?
    ensures Sound(Step(s, a, c))
  {
    hide Sound;
    match s.acts[a]
    case BeginCancel(_, permit) => MakesTxIdle(s, a, DropPermit(permit, NoPages));
    case WriterCancel(_, permit) => MakesTxIdle(s, a, DropPermit(permit, WriterDropped));
    case OutboundFinish(_, permit) => MakesTxIdle(s, a, DropPermit(permit, OutboundDropped));
    case Sent(_) => MakesTxIdle(s, a, Over(PageSent));
  }

  lemma ReservesId(s: State, a: nat, c: Choice)
    requires Sound(s) && CanStep(s, a, c) && (s.acts[a].FinishReserve? || s.acts[a].CloseReserve?)
    requires s.streams[s.acts[a].st].txNext < ID_MAX
    ensures Sound(Step(s, a, c))
  {
    hide Sound;
    ActFacts(s, a);
    var st := s.acts[a].st;
    HolderFacts(s, st);
    var s' := Step(s, a, c);
    assert FreshId(s'.streams[st], s.streams[st].txNext);
    hide CarrierOk;
    CarrierTx(s.streams[st], s'.streams[st]);
    StreamStep(s, a, s'.streams[st], s'.acts[a]);
  }

  lemma FinishesWriter(s: State, a: nat, c: Choice)
    requires Sound(s) && CanStep(s, a, c) && s.acts[a].FinishStore?
    ensures Sound(Step(s, a, c))
  {
    hide Sound, CarrierOk;
    ActFacts(s, a);
    var st := s.acts[a].st;
    HolderFacts(s, st);
    var s' := Step(s, a, c);
    CarrierTx(s.streams[st], s'.streams[st]);
    StreamStep(s, a, s'.streams[st], s'.acts[a]);
  }

  lemma WritesClose(s: State, a: nat, c: Choice)
    requires Sound(s) && CanStep(s, a, c) && s.acts[a].CloseNote?
    ensures Sound(Step(s, a, c))
  {
    hide Sound, CarrierOk;
    ActFacts(s, a);
    var CloseNote(st, id) := s.acts[a];
    HolderFacts(s, st);
    var s' := Step(s, a, c);
    if c.ok { FrameAppended(s.streams[st], CloseFrame(id)); } else { CarrierTx(s.streams[st], s'.streams[st]); }
    StreamStep(s, a, s'.streams[st], s'.acts[a]);
  }

  lemma EntersRx(s: State, a: nat, c: Choice)
    requires Sound(s) && CanStep(s, a, c) && s.acts[a].AcceptEnter?
    ensures Sound(Step(s, a, c))
  {
    hide Sound, CarrierOk;
    ActFacts(s, a);
    var st := s.acts[a].st;
    HolderFacts(s, st);
    var (stream, s') := (s.streams[st], Step(s, a, c));
    if stream.rxPhase.RxIdle? {
      CarrierRx(stream, s'.streams[st]);
      StreamStep(s, a, s'.streams[st], s'.acts[a]);
    } else {
      Quiet(s, a, s'.acts[a]);
    }
  }

  lemma MakesRxDone(s: State, a: nat, act: Activity, phase: RxPhase)
    requires Sound(s) && a in s.acts && HasStream(s.acts[a]) && s.acts[a].st < |s.streams|
    requires RxOf(s.acts[a]).Some? && RxOf(act).None? && TxOf(s.acts[a]).None? && TxOf(act).None?
    requires PageOf(act) == PageOf(s.acts[a]) && !HasStream(act)
    requires phase.RxIdle? || (phase.RxClosed? && s.acts[a].CloseFinish?)
    ensures Sound(s.On(s.acts[a].st, s.streams[s.acts[a].st].(rxPhase := phase, rxHolder := None)).At(a, act))
  {
    hide Sound, CarrierOk, PageOf, TxOf, RxOf, IdOk;
    ActFacts(s, a);
    OwnStream(s.acts[a]);
    hide HasStream, ActOk;
    var st := s.acts[a].st;
    HolderFacts(s, st);
    var s' := s.On(st, s.streams[st].(rxPhase := phase, rxHolder := None)).At(a, act);
    CarrierRx(s.streams[st], s'.streams[st]);
    hide FrameOk;
    StreamStep(s, a, s'.streams[st], act);
  }

  /** `cancel_accept`, `finish_page_accept` and `finish_close` end an accept. */
  lemma LeavesRx(s: State, a: nat, c: Choice)
    requires Sound(s) && CanStep(s, a, c)
    requires s.acts[a].AcceptCancel? || s.acts[a].AcceptRejectCancel? || s.acts[a].AcceptFinish?
             || s.acts[a].CloseFinish?
    ensures Sound(Step(s, a, c))
  {
    hide Sound;
    match s.acts[a]
    case AcceptCancel(_, outcome) => MakesRxDone(s, a, Over(outcome), RxIdle);
    case AcceptRejectCancel(_, permit) => MakesRxDone(s, a, DropPermit(permit, InvalidPage), RxIdle);
    case AcceptFinish(_, page, permit) => MakesRxDone(s, a, Received(page, permit), RxIdle);
    case CloseFinish(_) => MakesRxDone(s, a, Over(AcceptedClose), RxClosed);
  }

  /** The frame with the expected id is the next one on the carrier, wherever the caller found it. */
  lemma ChecksId(s: State, a: nat, c: Choice)
    requires Sound(s) && CanStep(s, a, c) && s.acts[a].AcceptCheck?
    ensures Sound(Step(s, a, c))
  {
    hide Sound, CarrierOk;
    ActFacts(s, a);
    var AcceptCheck(st, at) := s.acts[a];
    if s.streams[st].written[at].id == s.streams[st].rxNext { ExpectedIsNext(s.streams[st], at); }
    Quiet(s, a, Step(s, a, c).acts[a]);
  }

  /** Ids have not run out where the next one is reserved. */
  predicate IdsLeft(s: State, a: nat)
    requires a in s.acts && (HasStream(s.acts[a]) ==> s.acts[a].st < |s.streams|)
  {
    s.acts[a].FinishReserve? || s.acts[a].CloseReserve? ==> s.streams[s.acts[a].st].txNext < ID_MAX
  }

  lemma ReleasesPage(s: State, a: nat, c: Choice)
    requires Sound(s) && CanStep(s, a, c)
    requires s.acts[a].WriterRelease? || s.acts[a].OutboundRelease? || (s.acts[a].AcceptReject? && c.ok)
             || s.acts[a].ReleaseAgain?
             || (s.acts[a].Received? && (c.ok || c.pick != 0))
    ensures Sound(Step(s, a, c))
  {
    hide Sound;
    ActFacts(s, a);
    match s.acts[a]
    case WriterRelease(st, _, permit) => GivesUpPage(s, a, c.ok, WriterCancel(st, permit));
    case OutboundRelease(st, _, permit) => GivesUpPage(s, a, c.ok, OutboundFinish(st, permit));
    case AcceptReject(st, _, _, permit) => GivesUpPage(s, a, true, AcceptRejectCancel(st, permit));
    case Received(_, permit) => GivesUpPage(s, a, c.ok, DropPermit(permit, PageReleased));
    case ReleaseAgain(_, permit) => GivesUpPage(s, a, c.ok, DropPermit(permit, PageReleased));
  }

  /** Steps that only decide where the activity goes next. */
  lemma Decides(s: State, a: nat, c: Choice)
    requires Sound(s) && CanStep(s, a, c)
    requires || s.acts[a].Writer? || (s.acts[a].Outbound? && !c.ok) || (s.acts[a].Received? && !c.ok && c.pick == 0)
             || (s.acts[a].BeginPermit? && !c.ok) || (s.acts[a].BeginPage? && !c.ok)
    ensures Sound(Step(s, a, c))
  {
    hide Sound;
    ActFacts(s, a);
    match s.acts[a]
    case Writer(st, page, permit) =>
      Quiet(s, a, if c.ok then FinishReserve(st, page, permit) else WriterRelease(st, page, permit));
    case Outbound(st, _, page, permit) => Quiet(s, a, OutboundRelease(st, page, permit));
    case Received(page, permit) => Quiet(s, a, ReleaseAgain(page, permit));
    case BeginPermit(_) => Quiet(s, a, Over(NoPermits));
    case BeginPage(st, permit) => Quiet(s, a, BeginCancel(st, permit));
  }

  /** Every access of every activity keeps every page with exactly one owner and the carriers in order. */
  lemma StepIsSound(s: State, a: nat, c: Choice)
    requires Sound(s) && CanStep(s, a, c) && IdsLeft(s, a)
    ensures Sound(Step(s, a, c))
  {
    hide Sound, Step;
    match s.acts[a]
    case BeginPermit(_) => if c.ok { TakesPermit(s, a, c); } else { Decides(s, a, c); }
    case BeginEnter(_, _) => EntersTx(s, a, c);
    case BeginPage(_, _) => if c.ok { TakesPage(s, a, c); } else { Decides(s, a, c); }
    case BeginCancel(_, _) => LeavesTx(s, a, c);
    case Writer(_, _, _) => Decides(s, a, c);
    case FinishReserve(_, _, _) => ReservesId(s, a, c);
    case FinishStore(_, _, _, _) => FinishesWriter(s, a, c);
    case WriterRelease(_, _, _) => ReleasesPage(s, a, c);
    case WriterCancel(_, _) => LeavesTx(s, a, c);
    case Outbound(_, _, _, _) => if c.ok { WritesFrame(s, a, c); } else { Decides(s, a, c); }
    case Sent(_) => LeavesTx(s, a, c);
    case OutboundRelease(_, _, _) => ReleasesPage(s, a, c);
    case OutboundFinish(_, _) => LeavesTx(s, a, c);
    case CloseEnter(_) => EntersTx(s, a, c);
    case CloseReserve(_) => ReservesId(s, a, c);
    case CloseNote(_, _) => WritesClose(s, a, c);
    case AcceptEnter(_, _) => EntersRx(s, a, c);
    case AcceptCheck(_, _) => ChecksId(s, a, c);
    case AcceptCancel(_, _) => LeavesRx(s, a, c);
    case AcceptPage(_, _) => TakesFrame(s, a, c);
    case AcceptReject(_, _, _, _) => if c.ok { ReleasesPage(s, a, c); } else { PutsBack(s, a, c); }
    case AcceptRejectCancel(_, _) => LeavesRx(s, a, c);
    case AcceptAdvance(_, _, _, _) => AdvancesPage(s, a, c);
    case AcceptFinish(_, _, _) => LeavesRx(s, a, c);
    case CloseAdvance(_, _) => AdvancesClose(s, a, c);
    case CloseFinish(_) => LeavesRx(s, a, c);
    case Received(_, _) => if !c.ok && c.pick == 0 { Decides(s, a, c); } else { ReleasesPage(s, a, c); }
    case ReleaseAgain(_, _) => ReleasesPage(s, a, c);
    case DropPermit(_, _) => DropsPermit(s, a, c);
  }

  lemma DropsPermit(s: State, a: nat, c: Choice)
    requires Sound(s) && CanStep(s, a, c) && s.acts[a].DropPermit?
    ensures Sound(Step(s, a, c))
  {
    hide Sound;
    PermitMoves(s, a, Over(s.acts[a].outcome), s.FreePermit(s.acts[a].permit, c.ok).permits);
  }

  /** A new call owns nothing and holds no phase. */
  lemma NewActivity(s: State, a: nat, act: Activity)
    requires Sound(s) && a !in s.acts && HasStream(act) && act.st < |s.streams|
    requires PageOf(act).None? && TxOf(act).None? && RxOf(act).None?
    requires IdOk(s.streams[act.st], act) && FrameOk(s.streams[act.st], act)
    ensures Sound(s.At(a, act))
  {
    hide PageOf, TxOf, RxOf, CarrierOk, IdOk, FrameOk, HasStream;
    var s' := s.At(a, act);
    assert ActOk(s', a);
    hide ActOk;
    forall k: nat | k < |s.streams| ensures HoldersOk(s', k) { assert HoldersOk(s, k); }
    forall x | x in s'.pages ensures PageOk(s', x) { assert PageOk(s, x); }
    hide HoldersOk, PageOk;
    Keep(s, s', a);
  }

  lemma BeginIsSound(s: State, a: nat, start: Start)
    requires Sound(s) && CanStart(s, a, start)
    ensures Sound(Begin(s, a, start))
  {
    hide Sound;
    match start
    case StartBegin(st) => NewActivity(s, a, BeginPermit(st));
    case StartClose(st) => NewActivity(s, a, CloseEnter(st));
    case StartAccept(st, at) => NewActivity(s, a, AcceptEnter(st, at));
  }

  // ---- Permits ---------------------------------------------------------------------------------

  /** A leased permit has one owner, and a frame on the carrier owns it together with its page. */
  ghost predicate PermitOk(s: State, p: nat)
    requires p in s.permits
  {
    var owner := s.permits[p];
    match owner
    case ByActivity(a) => a in s.acts && PermitOf(s.acts[a]) == Some(p)
    case InFrame(st, at) =>
      && IsFrame(s, st, at) && s.streams[st].written[at].permit == p
      && s.streams[st].written[at].page in s.pages && s.pages[s.streams[st].written[at].page] == InFrame(st, at)
    case Lost => true
  }

  ghost predicate HasPermit(s: State, a: nat)
    requires a in s.acts
  {
    var permit := PermitOf(s.acts[a]);
    permit.Some? ==> permit.value in s.permits && s.permits[permit.value] == ByActivity(a)
  }

  ghost predicate FramePaid(s: State, st: nat, at: nat) {
    && IsFrame(s, st, at) && s.streams[st].written[at].permit in s.permits
    && s.permits[s.streams[st].written[at].permit] == InFrame(st, at)
  }

  /** Every permit is accounted for, and every page on the carrier has its permit with it. */
  ghost predicate Paid(s: State) {
    && (forall a :: a in s.acts ==> HasPermit(s, a))
    && (forall p :: p in s.permits ==> PermitOk(s, p))
    && (forall x :: x in s.pages && s.pages[x].InFrame? ==> FramePaid(s, s.pages[x].st, s.pages[x].at))
  }

  /** Each page and each permit has exactly one owner, and streams and carriers are in order. */
  ghost predicate Inv(s: State) { Sound(s) && Paid(s) }

  /** The pages on the carrier are the same. */
  ghost predicate SameFramePages(s: State, s': State) {
    && (forall x :: x in s.pages && s.pages[x].InFrame? ==> x in s'.pages && s'.pages[x] == s.pages[x])
    && (forall x :: x in s'.pages && s'.pages[x].InFrame? ==> x in s.pages && s.pages[x] == s'.pages[x])
  }

  /** Frames that own a permit stay on the carrier. */
  ghost predicate PaidFramesStay(s: State, s': State) {
    forall p :: p in s.permits && s.permits[p].InFrame? ==> FrameSame(s, s', s.permits[p].st, s.permits[p].at)
  }

  ghost predicate FrameSame(s: State, s': State, st: nat, at: nat) {
    IsFrame(s, st, at) ==> IsFrame(s', st, at) && s'.streams[st].written[at] == s.streams[st].written[at]
  }

  /** The permits of all activities but `a` are where they were. */
  lemma PaidKeeps(s: State, s': State, a: nat)
    requires Paid(s) && a in s'.acts && s'.acts == s.acts[a := s'.acts[a]]
    requires s'.permits == s.permits && SameFramePages(s, s') && PaidFramesStay(s, s')
    requires PermitOf(s'.acts[a]) == if a in s.acts then PermitOf(s.acts[a]) else None
    ensures Paid(s')
  {
    hide PermitOf, IsFrame;
    forall b | b in s'.acts ensures HasPermit(s', b) { if b in s.acts { assert HasPermit(s, b); } }
    forall p | p in s'.permits ensures PermitOk(s', p) {
      assert PermitOk(s, p);
      if s.permits[p].InFrame? { assert FrameSame(s, s', s.permits[p].st, s.permits[p].at); }
    }
    forall x | x in s'.pages && s'.pages[x].InFrame? ensures FramePaid(s', s'.pages[x].st, s'.pages[x].at) {
      var (st, at) := (s'.pages[x].st, s'.pages[x].at);
      assert FramePaid(s, st, at);
      assert FrameSame(s, s', st, at);
    }
  }

  /** Steps that move a permit, a frame or the receiver's position. */
  predicate Handles(act: Activity, c: Choice) {
    || (act.BeginPermit? && c.ok) || (act.Outbound? && c.ok) || act.AcceptPage? || (act.AcceptReject? && !c.ok)
    || act.AcceptAdvance? || act.CloseAdvance? || act.DropPermit?
  }

  lemma SenderPlain(s: State, a: nat, c: Choice)
    requires Sound(s) && CanStep(s, a, c) && OnSender(s.acts[a]) && !Handles(s.acts[a], c)
    ensures var s' := Step(s, a, c);
            && s'.permits == s.permits && a in s'.acts && s'.acts == s.acts[a := s'.acts[a]]
            && PermitOf(s'.acts[a]) == PermitOf(s.acts[a])
            && SameFramePages(s, s') && forall st: nat, at: nat :: FrameSame(s, s', st, at)
  {
    hide OutboundStep, ReceiverStep, ReleaseStep, Sound, SameFramePages, FrameSame, PermitOf;
    SenderPermits(s, a, c);
    SenderPages(s, a, c);
    forall st: nat, at: nat ensures FrameSame(s, Step(s, a, c), st, at) { SenderFrames(s, a, c, st, at); }
  }

  lemma SenderPermits(s: State, a: nat, c: Choice)
    requires CanStep(s, a, c) && OnSender(s.acts[a]) && !Handles(s.acts[a], c)
    ensures Step(s, a, c).permits == s.permits && PermitOf(Step(s, a, c).acts[a]) == PermitOf(s.acts[a])
  {
    hide OutboundStep, ReceiverStep, ReleaseStep;
    if s.acts[a].CloseEnter? || s.acts[a].CloseReserve? || s.acts[a].CloseNote? {
      assert PermitOf(SenderStep(s, a, c).acts[a]).None?;
    }
  }

  lemma SenderPages(s: State, a: nat, c: Choice)
    requires CanStep(s, a, c) && OnSender(s.acts[a])
    ensures SameFramePages(s, Step(s, a, c))
  {
    hide OutboundStep, ReceiverStep, ReleaseStep, PermitOf;
  }

  lemma SenderFrames(s: State, a: nat, c: Choice, st: nat, at: nat)
    requires CanStep(s, a, c) && OnSender(s.acts[a])
    ensures FrameSame(s, Step(s, a, c), st, at)
  {
    hide OutboundStep, ReceiverStep, ReleaseStep, PermitOf;
  }

  lemma OutboundPlain(s: State, a: nat, c: Choice)
    requires Sound(s) && CanStep(s, a, c) && OnOutbound(s.acts[a]) && !Handles(s.acts[a], c)
    ensures var s' := Step(s, a, c);
            && s'.permits == s.permits && a in s'.acts && s'.acts == s.acts[a := s'.acts[a]]
            && PermitOf(s'.acts[a]) == PermitOf(s.acts[a])
            && SameFramePages(s, s') && forall st: nat, at: nat :: FrameSame(s, s', st, at)
  {
    hide SenderStep, ReceiverStep, ReleaseStep, Sound, CarrierOk, TxOf, RxOf, IdOk, FrameOk;
    ActFacts(s, a);
  }

  lemma ReceiverPlain(s: State, a: nat, c: Choice)
    requires Sound(s) && CanStep(s, a, c) && !OnSender(s.acts[a]) && !OnOutbound(s.acts[a]) && !Handles(s.acts[a], c)
    ensures var s' := Step(s, a, c);
            && s'.permits == s.permits && a in s'.acts && s'.acts == s.acts[a := s'.acts[a]]
            && PermitOf(s'.acts[a]) == PermitOf(s.acts[a])
            && SameFramePages(s, s') && forall st: nat, at: nat :: FrameSame(s, s', st, at)
  {
    hide SenderStep, OutboundStep, Sound, SameFramePages, FrameSame, PermitOf;
    ReceiverPermits(s, a, c);
    ReceiverPages(s, a, c);
    forall st: nat, at: nat ensures FrameSame(s, Step(s, a, c), st, at) { ReceiverFrames(s, a, c, st, at); }
  }

  lemma ReceiverPermits(s: State, a: nat, c: Choice)
    requires CanStep(s, a, c) && !OnSender(s.acts[a]) && !OnOutbound(s.acts[a]) && !Handles(s.acts[a], c)
    ensures Step(s, a, c).permits == s.permits && PermitOf(Step(s, a, c).acts[a]) == PermitOf(s.acts[a])
  {
    hide SenderStep, OutboundStep;
  }

  lemma ReceiverPages(s: State, a: nat, c: Choice)
    requires Sound(s) && CanStep(s, a, c) && !OnSender(s.acts[a]) && !OnOutbound(s.acts[a]) && !Handles(s.acts[a], c)
    ensures SameFramePages(s, Step(s, a, c))
  {
    hide SenderStep, OutboundStep, Sound, CarrierOk, TxOf, RxOf, IdOk, FrameOk, PermitOf;
    ActFacts(s, a);
  }

  lemma ReceiverFrames(s: State, a: nat, c: Choice, st: nat, at: nat)
    requires CanStep(s, a, c) && !OnSender(s.acts[a]) && !OnOutbound(s.acts[a]) && !Handles(s.acts[a], c)
    ensures FrameSame(s, Step(s, a, c), st, at)
  {
    hide SenderStep, OutboundStep, PermitOf;
  }

  lemma PlainKeeps(s: State, a: nat, c: Choice)
    requires Sound(s) && Paid(s) && CanStep(s, a, c) && !Handles(s.acts[a], c)
    ensures Paid(Step(s, a, c))
  {
    hide Sound, Paid, Step, PermitOf, SameFramePages, FrameSame;
    if OnSender(s.acts[a]) { SenderPlain(s, a, c); }
    else if OnOutbound(s.acts[a]) { OutboundPlain(s, a, c); }
    else { ReceiverPlain(s, a, c); }
    PaidKeeps(s, Step(s, a, c), a);
  }

  lemma PermitFacts(s: State, a: nat)
    requires Paid(s) && a in s.acts
    ensures HasPermit(s, a)
  {
    hide HasPermit, PermitOk, FramePaid;
  }

  lemma OwnedPermit(s: State, p: nat)
    requires Paid(s) && p in s.permits
    ensures PermitOk(s, p)
  {
    hide HasPermit, PermitOk, FramePaid;
  }

  lemma PaidFrame(s: State, x: nat)
    requires Paid(s) && x in s.pages && s.pages[x].InFrame?
    ensures FramePaid(s, s.pages[x].st, s.pages[x].at)
  {
    hide HasPermit, PermitOk, FramePaid;
  }

  /** A permit goes to a new owner, or back to the pool, and nothing else moves. */
  lemma PermitTurns(s: State, s': State, a: nat, p: nat)
    requires Paid(s) && a in s.acts && a in s'.acts && s'.acts == s.acts[a := s'.acts[a]] && s'.streams == s.streams
             && s'.pages == s.pages
    requires (PermitOf(s.acts[a]) == Some(p) && PermitOf(s'.acts[a]).None?)
             || (p !in s.permits && PermitOf(s.acts[a]).None? && PermitOf(s'.acts[a]) == Some(p))
    requires s'.permits - {p} == s.permits - {p}
             && (p in s'.permits ==> s'.permits[p].Lost? || PermitOf(s'.acts[a]) == Some(p))
    requires PermitOf(s'.acts[a]) == Some(p) ==> p in s'.permits && s'.permits[p] == ByActivity(a)
    ensures Paid(s')
  {
    hide PermitOf;
    PermitFacts(s, a);
    assert forall q :: q != p ==>
              (q in s'.permits <==> q in s'.permits - {p}) && (q in s.permits <==> q in s.permits - {p});
    assert forall q :: q != p && q in s.permits ==>
              q in s'.permits && (s'.permits - {p})[q] == s'.permits[q] && (s.permits - {p})[q] == s.permits[q];
    forall b | b in s'.acts ensures HasPermit(s', b) { assert HasPermit(s, b); }
    forall q | q in s'.permits ensures PermitOk(s', q) { if q != p { assert PermitOk(s, q); } }
    forall x | x in s'.pages && s'.pages[x].InFrame? ensures FramePaid(s', s'.pages[x].st, s'.pages[x].at) {
      assert FramePaid(s, s.pages[x].st, s.pages[x].at);
    }
  }

  /** Page and permit of a frame change hands together. */
  lemma PairMoves(s: State, s': State, a: nat, x: nat, p: nat, from: Owner, to: Owner)
    requires Sound(s) && Paid(s) && a in s.acts && a in s'.acts && s'.acts == s.acts[a := s'.acts[a]]
             && |s'.streams| == |s.streams|
    requires x in s.pages && s.pages[x] == from && p in s.permits && s.permits[p] == from
             && s'.pages == s.pages[x := to] && s'.permits == s.permits[p := to]
    requires forall st: nat, at: nat :: FrameSame(s, s', st, at)
    requires from == ByActivity(a) ==> to.InFrame? && PermitOf(s.acts[a]) == Some(p) && PermitOf(s'.acts[a]).None?
    requires from.InFrame? ==> to == ByActivity(a) && PermitOf(s.acts[a]).None? && PermitOf(s'.acts[a]) == Some(p)
                               && FramePaid(s, from.st, from.at) && s.streams[from.st].written[from.at].page == x
                               && s.streams[from.st].written[from.at].permit == p
    requires to.InFrame? ==>
              IsFrame(s', to.st, to.at) && !IsFrame(s, to.st, to.at) && s'.streams[to.st].written[to.at].page == x
                             && s'.streams[to.st].written[to.at].permit == p
    requires from.InFrame? || from == ByActivity(a)
    ensures Paid(s')
  {
    hide PermitOf, IsFrame, Sound;
    forall b | b in s'.acts ensures HasPermit(s', b) { PermitFacts(s, b); }
    forall q | q in s'.permits ensures PermitOk(s', q) {
      if q != p {
        OwnedPermit(s, q);
        if s.permits[q].InFrame? { assert FrameSame(s, s', s.permits[q].st, s.permits[q].at); }
      }
    }
    forall y | y in s'.pages && s'.pages[y].InFrame? ensures FramePaid(s', s'.pages[y].st, s'.pages[y].at) {
      if y != x {
        PaidFrame(s, y);
        PageFacts(s, y);
        assert FrameSame(s, s', s.pages[y].st, s.pages[y].at);
      }
    }
  }

  /** Steps that move a permit or a frame keep the books, except a refused release of a rejected page. */
  lemma HandlesPermit(s: State, a: nat, c: Choice)
    requires Sound(s) && Paid(s) && CanStep(s, a, c) && ((s.acts[a].BeginPermit? && c.ok) || s.acts[a].DropPermit?)
    ensures Paid(Step(s, a, c))
  {
    hide Sound, Paid;
    PermitFacts(s, a);
    if s.acts[a].DropPermit? {
      PermitTurns(s, Step(s, a, c), a, s.acts[a].permit);
    } else {
      PermitTurns(s, Step(s, a, c), a, c.pick);
    }
  }

  lemma HandlesOutbound(s: State, a: nat, c: Choice)
    requires Sound(s) && Paid(s) && CanStep(s, a, c) && s.acts[a].Outbound? && c.ok
    ensures Paid(Step(s, a, c))
  {
    hide Sound, Paid, CarrierOk;
    ActFacts(s, a);
    PermitFacts(s, a);
    var Outbound(st, _, page, permit) := s.acts[a];
    AcceptedWithin(s.streams[st]);
    PairMoves(s, Step(s, a, c), a, page, permit, ByActivity(a), InFrame(st, |s.streams[st].written|));
  }

  lemma HandlesFrame(s: State, a: nat, c: Choice)
    requires Sound(s) && Paid(s) && CanStep(s, a, c) && s.acts[a].AcceptPage?
    ensures Paid(Step(s, a, c))
  {
    hide Sound, Paid, CarrierOk;
    var AcceptPage(st, at) := s.acts[a];
    ActFacts(s, a);
    var frame := s.streams[st].written[at];
    if frame.page in s.pages && s.pages[frame.page] == InFrame(st, at) {
      PaidFrame(s, frame.page);
      PairMoves(s, Step(s, a, c), a, frame.page, frame.permit, InFrame(st, at), ByActivity(a));
    } else {
      PaidKeeps(s, Step(s, a, c), a);
    }
  }

  lemma HandlesAdvance(s: State, a: nat, c: Choice)
    requires Sound(s) && Paid(s) && CanStep(s, a, c) && (s.acts[a].AcceptAdvance? || s.acts[a].CloseAdvance?)
    ensures Paid(Step(s, a, c))
  {
    hide Sound, Paid, CarrierOk;
    ActFacts(s, a);
    PermitFacts(s, a);
    var (s', st) := (Step(s, a, c), s.acts[a].st);
    assert PermitOf(s'.acts[a]) == PermitOf(s.acts[a]);
    forall p | p in s.permits && s.permits[p].InFrame? ensures FrameSame(s, s', s.permits[p].st, s.permits[p].at) {
      OwnedPermit(s, p);
    }
    PaidKeeps(s, s', a);
  }

  /** Every access keeps the books, unless a rejected page could not be given back. */
  lemma StepKeeps(s: State, a: nat, c: Choice)
    requires Inv(s) && CanStep(s, a, c) && Proper(s, a, c)
    ensures Inv(Step(s, a, c))
  {
    hide Sound, Paid, Step;
    StepIsSound(s, a, c);
    var act := s.acts[a];
    if !Handles(act, c) { PlainKeeps(s, a, c); }
    else if act.BeginPermit? || act.DropPermit? { HandlesPermit(s, a, c); }
    else if act.Outbound? { HandlesOutbound(s, a, c); }
    else if act.AcceptPage? { HandlesFrame(s, a, c); }
    else { HandlesAdvance(s, a, c); }
  }

  /** The pool takes a rejected page back, and ids have not run out. */
  predicate Proper(s: State, a: nat, c: Choice)
    requires CanStep(s, a, c)
  {
    (s.acts[a].AcceptReject? ==> c.ok) && IdsLeft(s, a)
  }

  /** One access keeps the books exactly when it is proper. */
  lemma KeepsExactly(s: State, a: nat, c: Choice)
    requires Inv(s) && CanStep(s, a, c)
    ensures Inv(Step(s, a, c)) <==> Proper(s, a, c)
  {
    hide Sound, Paid;
    if Proper(s, a, c) {
      hide Step;
      StepKeeps(s, a, c);
    } else {
      ActFacts(s, a);
      PermitFacts(s, a);
      if s.acts[a].AcceptReject? && !c.ok { RefusedRejectUnpaid(s, a, c); } else { IdRunsOut(s, a, c); }
    }
  }

  lemma RefusedRejectUnpaid(s: State, a: nat, c: Choice)
    requires Inv(s) && CanStep(s, a, c) && s.acts[a].AcceptReject? && !c.ok
    ensures !Paid(Step(s, a, c))
  {
    hide Sound, CarrierOk;
    ActFacts(s, a);
    PermitFacts(s, a);
    var (s', act) := (Step(s, a, c), s.acts[a]);
    assert s'.pages[act.page] == InFrame(act.st, act.at) && !FramePaid(s', act.st, act.at);
  }

  lemma IdRunsOut(s: State, a: nat, c: Choice)
    requires Inv(s) && CanStep(s, a, c) && !IdsLeft(s, a)
    ensures !Sound(Step(s, a, c))
  {
    hide Sound, Paid, CarrierOk, TxOf, RxOf, PageOf, FrameOk;
    HolderFacts(s, s.acts[a].st);
    NextAtMost(s.streams[s.acts[a].st]);
    var s' := Step(s, a, c);
    if Sound(s') { ActFacts(s', a); }
  }

  lemma NextAtMost(stream: Stream)
    requires CarrierOk(stream)
    ensures stream.txNext <= ID_MAX
  {
  }

  lemma BeginKeeps(s: State, a: nat, start: Start)
    requires Inv(s) && CanStart(s, a, start)
    ensures Inv(Begin(s, a, start))
  {
    hide Sound, Paid;
    BeginIsSound(s, a, start);
    PaidKeeps(s, Begin(s, a, start), a);
  }
}
