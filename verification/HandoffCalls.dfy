/** What every call and object of the page handoff comes to, however the others are interleaved with it. */
module HandoffCalls {
  import opened Common
  import opened PageHandoff
  import opened HandoffRuns

  // ---- How an activity ends ------------------------------------------------------------------------

  /** The end that an access of activity `a` decides on, if it does: what it finds, and what its owner chooses. */
  ghost function Decides(s: State, a: nat, c: Choice): Option<Outcome>
    requires a in s.acts && (HasStream(s.acts[a]) ==> s.acts[a].st < |s.streams|) && FrameThere(s, a)
  {
    var act := s.acts[a];
    match act
    case BeginPermit(_) => if c.ok then None else Some(NoPermits)
    case BeginEnter(st, _) => TxRefusal(s.streams[st].txPhase)
    case BeginPage(_, _) => if c.ok then None else Some(NoPages)
    case Writer(_, _, _) => if c.ok then None else Some(WriterDropped)
    case Outbound(_, _, _, _) => Some(if c.ok then PageSent else OutboundDropped)
    case CloseEnter(st) =>
      var refusal := TxRefusal(s.streams[st].txPhase);
      if refusal.None? then Some(CloseWritten) else refusal
    case AcceptEnter(st, _) =>
      (match s.streams[st].rxPhase
       case RxIdle => None
       case RxClosed => Some(RxRefusedClosed)
       case Accepting => Some(RxBusy))
    case AcceptCheck(st, at) =>
      if s.streams[st].written[at].id != s.streams[st].rxNext then Some(UnexpectedTransferId)
      else if s.streams[st].written[at].CloseFrame? then Some(AcceptedClose)
      else None
    case AcceptPage(st, at) =>
      if FrameEmpty(s, st, at) then Some(AccessRefused)
      else Some(if c.ok then PageReleased else InvalidPage)
    case _ => None
  }

  function TxRefusal(phase: TxPhase): Option<Outcome> {
    match phase
    case TxIdle => None
    case TxClosed => Some(TxRefusedClosed)
    case _ => Some(TxBusy)
  }

  ghost predicate FrameThere(s: State, a: nat)
    requires a in s.acts && (HasStream(s.acts[a]) ==> s.acts[a].st < |s.streams|)
  {
    s.acts[a].AcceptCheck? || s.acts[a].AcceptPage? ==> s.acts[a].at < |s.streams[s.acts[a].st].written|
  }

  /** The end an activity is heading for. */
  function HeadsFor(act: Activity): Option<Outcome> {
    match act
    case BeginCancel(_, _) => Some(NoPages)
    case WriterRelease(_, _, _) => Some(WriterDropped)
    case WriterCancel(_, _) => Some(WriterDropped)
    case Sent(_) => Some(PageSent)
    case OutboundRelease(_, _, _) => Some(OutboundDropped)
    case OutboundFinish(_, _) => Some(OutboundDropped)
    case CloseReserve(_) => Some(CloseWritten)
    case CloseNote(_, _) => Some(CloseWritten)
    case AcceptCancel(_, outcome) => Some(outcome)
    case AcceptReject(_, _, _, _) => Some(InvalidPage)
    case AcceptRejectCancel(_, _) => Some(InvalidPage)
    case AcceptAdvance(_, _, _, _) => Some(PageReleased)
    case AcceptFinish(_, _, _) => Some(PageReleased)
    case CloseAdvance(_, _) => Some(AcceptedClose)
    case CloseFinish(_) => Some(AcceptedClose)
    case Received(_, _) => Some(PageReleased)
    case ReleaseAgain(_, _) => Some(PageReleased)
    case DropPermit(_, outcome) => Some(outcome)
    case Over(outcome) => Some(outcome)
    case _ => None
  }

  lemma FrameKnown(s: State, a: nat)
    requires Sound(s) && a in s.acts
    ensures (HasStream(s.acts[a]) ==> s.acts[a].st < |s.streams|) && FrameThere(s, a)
    ensures s.acts[a].AcceptPage? ==> s.streams[s.acts[a].st].written[s.acts[a].at].PageFrame?
  {
    hide Sound, PageOf, TxOf, RxOf, IdOk;
    ActFacts(s, a);
  }

  /** The next stage heads for the same end, or for the one just decided on. */
  ghost predicate Headed(s: State, a: nat, c: Choice, s': State)
    requires a in s.acts && (HasStream(s.acts[a]) ==> s.acts[a].st < |s.streams|) && FrameThere(s, a)
  {
    a in s'.acts
    && HeadsFor(s'.acts[a]) == if HeadsFor(s.acts[a]).Some? then HeadsFor(s.acts[a]) else Decides(s, a, c)
  }

  lemma BeginHeads(s: State, a: nat, c: Choice)
    requires Sound(s) && CanStep(s, a, c) && FrameThere(s, a)
    requires (s.acts[a].BeginPermit? || s.acts[a].BeginEnter? || s.acts[a].BeginPage? || s.acts[a].BeginCancel?)
    ensures Headed(s, a, c, SenderStep(s, a, c))
  {
    hide Sound;
  }

  lemma CloseHeads(s: State, a: nat, c: Choice)
    requires Sound(s) && CanStep(s, a, c) && FrameThere(s, a)
    requires (s.acts[a].CloseEnter? || s.acts[a].CloseReserve? || s.acts[a].CloseNote?)
    ensures Headed(s, a, c, SenderStep(s, a, c))
  {
    hide Sound;
  }

  lemma SenderHeads(s: State, a: nat, c: Choice)
    requires Sound(s) && CanStep(s, a, c) && FrameThere(s, a) && OnSender(s.acts[a])
    ensures Headed(s, a, c, SenderStep(s, a, c))
  {
    hide Sound, SenderStep, Headed;
    if s.acts[a].CloseEnter? || s.acts[a].CloseReserve? || s.acts[a].CloseNote? { CloseHeads(s, a, c); } else {
      BeginHeads(s, a, c);
    }
  }

  lemma OutboundHeads(s: State, a: nat, c: Choice)
    requires Sound(s) && CanStep(s, a, c) && FrameThere(s, a) && OnOutbound(s.acts[a])
    ensures Headed(s, a, c, OutboundStep(s, a, c))
  {
    hide Sound;
  }

  lemma EnterHeads(s: State, a: nat, c: Choice)
    requires Sound(s) && CanStep(s, a, c) && FrameThere(s, a) && s.acts[a].AcceptEnter?
    ensures Headed(s, a, c, ReceiverStep(s, a, c))
  {
    hide Sound;
  }

  lemma CheckHeads(s: State, a: nat, c: Choice)
    requires Sound(s) && CanStep(s, a, c) && FrameThere(s, a) && s.acts[a].AcceptCheck?
    ensures Headed(s, a, c, ReceiverStep(s, a, c))
  {
    hide Sound;
  }

  lemma PageHeads(s: State, a: nat, c: Choice)
    requires Sound(s) && CanStep(s, a, c) && FrameThere(s, a) && s.acts[a].AcceptPage?
    ensures Headed(s, a, c, ReceiverStep(s, a, c))
  {
    FrameKnown(s, a);
    hide Sound;
    var AcceptPage(st, at) := s.acts[a];
    var act := PageNext(s, a, c);
    hide ReceiverStep;
  }

  lemma PageNext(s: State, a: nat, c: Choice) returns (act: Activity)
    requires CanStep(s, a, c) && FrameThere(s, a) && s.acts[a].AcceptPage?
    requires s.streams[s.acts[a].st].written[s.acts[a].at].PageFrame?
    ensures a in ReceiverStep(s, a, c).acts && ReceiverStep(s, a, c).acts[a] == act
    ensures var AcceptPage(st, at) := s.acts[a];
            var frame := s.streams[st].written[at];
            act == if FrameEmpty(s, st, at) then AcceptCancel(st, AccessRefused)
                   else if c.ok then AcceptAdvance(st, at, frame.page, frame.permit)
                   else AcceptReject(st, at, frame.page, frame.permit)
  {
    act := ReceiverStep(s, a, c).acts[a];
  }

  lemma AcceptHeads(s: State, a: nat, c: Choice)
    requires Sound(s) && CanStep(s, a, c) && FrameThere(s, a) && OnReceiver(s.acts[a]) && HeadsFor(s.acts[a]).Some?
    ensures Headed(s, a, c, ReceiverStep(s, a, c))
  {
    hide Sound;
  }

  lemma ReceiverHeads(s: State, a: nat, c: Choice)
    requires Sound(s) && CanStep(s, a, c) && FrameThere(s, a) && OnReceiver(s.acts[a])
    ensures Headed(s, a, c, ReceiverStep(s, a, c))
  {
    hide Sound, ReceiverStep, Headed;
    if s.acts[a].AcceptPage? { PageHeads(s, a, c); }
    else if s.acts[a].AcceptEnter? { EnterHeads(s, a, c); }
    else if s.acts[a].AcceptCheck? { CheckHeads(s, a, c); }
    else { AcceptHeads(s, a, c); }
  }

  lemma ReleaseHeads(s: State, a: nat, c: Choice)
    requires CanStep(s, a, c) && !OnSender(s.acts[a]) && !OnOutbound(s.acts[a]) && !OnReceiver(s.acts[a])
    ensures var s' := ReleaseStep(s, a, c);
            a in s'.acts && HeadsFor(s'.acts[a]) == HeadsFor(s.acts[a]) && HeadsFor(s.acts[a]).Some?
  {
  }

  /** An activity heads for the end first decided on, and nothing but a decision of its own gives it one. */
  lemma StepHeads(s: State, a: nat, c: Choice)
    requires Sound(s) && CanStep(s, a, c) && FrameThere(s, a)
    ensures Headed(s, a, c, Step(s, a, c))
  {
    hide Sound, SenderStep, OutboundStep, ReceiverStep, ReleaseStep, Decides, HeadsFor;
    if OnSender(s.acts[a]) { SenderHeads(s, a, c); }
    else if OnOutbound(s.acts[a]) { OutboundHeads(s, a, c); }
    else if OnReceiver(s.acts[a]) { ReceiverHeads(s, a, c); }
    else { ReleaseHeads(s, a, c); }
  }

  /** What turn `k` decides about activity `a`. */
  ghost function DecidesAt(s: State, turn: Turn, a: nat): Option<Outcome> {
    if turn.Moves? && turn.a == a && Sound(s) && a in s.acts then
      FrameKnown(s, a);
      Decides(s, a, turn.choice)
    else None
  }

  /** The first decision about activity `a` before turn `k`. */
  ghost function Decision(states: seq<State>, turns: seq<Turn>, k: nat, a: nat): Option<Outcome>
    requires |states| == |turns| + 1 && k <= |turns|
  {
    if k == 0 then None
    else if Decision(states, turns, k - 1, a).Some? then Decision(states, turns, k - 1, a)
    else DecidesAt(states[k - 1], turns[k - 1], a)
  }

  /** In every run every activity heads for, and ends with, what was first decided about it. */
  lemma {:induction false} EndsAsDecided(states: seq<State>, turns: seq<Turn>, k: nat, a: nat)
    requires IsRun(states, turns) && Initial(states[0]) && k <= |turns|
    ensures Decision(states, turns, k, a) == if a in states[k].acts then HeadsFor(states[k].acts[a]) else None
    decreases k
  {
    hide Next, Sound, Initial, HeadsFor, Decides;
    if k == 0 {
      NobodyAtFirst(states[0], a);
    } else {
      EndsAsDecided(states, turns, k - 1, a);
      Sounds(states, turns, k - 1);
      var (s, turn, s') := (states[k - 1], turns[k - 1], states[k]);
      if turn.a != a { OnlyOwnTurn(s, turn, s', a); }
      else if turn.Starts? { StartsUndecided(s, turn, s'); }
      else { MovesDecided(s, turn, s'); }
    }
  }

  lemma StartsUndecided(s: State, turn: Turn, s': State)
    requires Next(s, turn, s') && turn.Starts?
    ensures turn.a !in s.acts && turn.a in s'.acts && HeadsFor(s'.acts[turn.a]).None?
  {
  }

  lemma MovesDecided(s: State, turn: Turn, s': State)
    requires Sound(s) && Next(s, turn, s') && turn.Moves?
    ensures turn.a in s.acts && turn.a in s'.acts
    ensures HeadsFor(s'.acts[turn.a])
            == if HeadsFor(s.acts[turn.a]).Some? then HeadsFor(s.acts[turn.a]) else DecidesAt(s, turn, turn.a)
  {
    hide Sound, Step, HeadsFor, Decides;
    FrameKnown(s, turn.a);
    StepHeads(s, turn.a, turn.choice);
  }

  // ---- What an accept comes to -----------------------------------------------------------------------

  /** At turn `m` activity `a` looks at the frame at position `at` of stream `st`. */
  ghost predicate ChecksAt(states: seq<State>, turns: seq<Turn>, m: nat, a: nat, st: nat, at: nat)
    requires |states| == |turns| + 1
  {
    && m < |turns| && turns[m].Moves? && turns[m].a == a && a in states[m].acts
    && states[m].acts[a] == AcceptCheck(st, at) && st < |states[m].streams| && at < |states[m].streams[st].written|
  }

  /** The frame is the one expected next. */
  ghost predicate InOrder(s: State, st: nat, at: nat)
    requires st < |s.streams| && at < |s.streams[st].written|
  {
    s.streams[st].written[at].id == s.streams[st].rxNext
  }

  lemma {:induction false} DecisionStays(states: seq<State>, turns: seq<Turn>, m: nat, k: nat, a: nat)
    requires |states| == |turns| + 1 && m <= k <= |turns| && Decision(states, turns, m, a).Some?
    ensures Decision(states, turns, k, a) == Decision(states, turns, m, a)
    decreases k
  {
    hide DecidesAt;
    if m < k { DecisionStays(states, turns, m, k - 1, a); }
  }

  /** A page frame in order leads to its page, and from there to no other end than a page's. */
  ghost predicate AtPage(act: Activity, st: nat, at: nat) {
    act == AcceptPage(st, at) || HeadsFor(act) in [Some(AccessRefused), Some(PageReleased), Some(InvalidPage)]
  }

  lemma {:induction false} PageAhead(states: seq<State>, turns: seq<Turn>, m: nat, k: nat, a: nat, st: nat, at: nat)
    requires IsRun(states, turns) && Initial(states[0]) && m < k <= |turns| && ChecksAt(states, turns, m, a, st, at)
    requires InOrder(states[m], st, at) && states[m].streams[st].written[at].PageFrame?
    ensures a in states[k].acts && AtPage(states[k].acts[a], st, at)
    decreases k
  {
    hide Next, Sound, Initial, AtPage;
    Sounds(states, turns, k - 1);
    var (s, turn, s') := (states[k - 1], turns[k - 1], states[k]);
    if k == m + 1 {
      CheckLeadsToPage(s, turn, s', st, at);
    } else {
      PageAhead(states, turns, m, k - 1, a, st, at);
      if turn.a != a { OnlyOwnTurn(s, turn, s', a); } else { PageStays(s, turn, s', st, at); }
    }
  }

  lemma CheckLeadsToPage(s: State, turn: Turn, s': State, st: nat, at: nat)
    requires Next(s, turn, s') && turn.Moves? && turn.a in s.acts && s.acts[turn.a] == AcceptCheck(st, at)
    requires st < |s.streams| && at < |s.streams[st].written| && InOrder(s, st, at)
             && s.streams[st].written[at].PageFrame?
    ensures turn.a in s'.acts && AtPage(s'.acts[turn.a], st, at)
  {
    hide SenderStep, OutboundStep, ReleaseStep, HeadsFor;
  }

  lemma PageStays(s: State, turn: Turn, s': State, st: nat, at: nat)
    requires Sound(s) && Next(s, turn, s') && turn.a in s.acts && AtPage(s.acts[turn.a], st, at)
    ensures turn.a in s'.acts && AtPage(s'.acts[turn.a], st, at)
  {
    hide Sound, Step;
    KnownAfter(s, turn, s');
    FrameKnown(s, turn.a);
    StepHeads(s, turn.a, turn.choice);
  }

  /** An accept that got to its frame is refused as out of order exactly if the frame was not the one expected next. */
  lemma AcceptEndsExactly(states: seq<State>, turns: seq<Turn>, m: nat, k: nat, a: nat, st: nat, at: nat)
    requires IsRun(states, turns) && Initial(states[0]) && m < k <= |turns| && ChecksAt(states, turns, m, a, st, at)
    requires a in states[k].acts && states[k].acts[a].Over?
    ensures states[k].acts[a] == Over(UnexpectedTransferId) <==> !InOrder(states[m], st, at)
    ensures states[k].acts[a] == Over(AcceptedClose) <==>
              InOrder(states[m], st, at) && states[m].streams[st].written[at].CloseFrame?
  {
    hide Next, Sound, Initial;
    EndsAsDecided(states, turns, m, a);
    EndsAsDecided(states, turns, m + 1, a);
    EndsAsDecided(states, turns, k, a);
    Sounds(states, turns, m);
    if InOrder(states[m], st, at) && states[m].streams[st].written[at].PageFrame? {
      PageAhead(states, turns, m, k, a, st, at);
    } else {
      DecisionStays(states, turns, m + 1, k, a);
    }
  }

  /** A close frame in order advances the receiver and closes it. */
  ghost predicate ClosingUp(s: State, a: nat, st: nat, at: nat) {
    && a in s.acts && st < |s.streams| && at < |s.streams[st].written| && s.streams[st].written[at].CloseFrame?
    && match s.acts[a]
       case CloseAdvance(st', at') => (st', at') == (st, at)
       case CloseFinish(st') => st' == st
       case Over(o) =>
         o == AcceptedClose && s.streams[st].rxPhase.RxClosed? && s.streams[st].accepted == at + 1
             && s.streams[st].rxNext == at + 2
       case _ => false
  }

  lemma {:induction false} ClosesReceiver(states: seq<State>, turns: seq<Turn>, m: nat, k: nat, a: nat, st: nat,
                                       at: nat)
    requires IsRun(states, turns) && Initial(states[0]) && m < k <= |turns| && ChecksAt(states, turns, m, a, st, at)
    requires InOrder(states[m], st, at) && states[m].streams[st].written[at].CloseFrame?
    ensures ClosingUp(states[k], a, st, at)
    decreases k
  {
    hide Next, Sound, Initial, ClosingUp;
    Sounds(states, turns, k - 1);
    Sounds(states, turns, k);
    var (s, turn, s') := (states[k - 1], turns[k - 1], states[k]);
    if k == m + 1 {
      CheckLeadsToClose(s, turn, s', st, at);
    } else {
      ClosesReceiver(states, turns, m, k - 1, a, st, at);
      ClosingOn(s, turn, s', a, st, at);
    }
  }

  lemma CheckLeadsToClose(s: State, turn: Turn, s': State, st: nat, at: nat)
    requires Next(s, turn, s') && turn.Moves? && turn.a in s.acts && s.acts[turn.a] == AcceptCheck(st, at)
    requires st < |s.streams| && at < |s.streams[st].written| && InOrder(s, st, at)
             && s.streams[st].written[at].CloseFrame?
    ensures ClosingUp(s', turn.a, st, at)
  {
    hide SenderStep, OutboundStep, ReleaseStep;
  }

  lemma ClosingOn(s: State, turn: Turn, s': State, a: nat, st: nat, at: nat)
    requires Sound(s) && Sound(s') && Next(s, turn, s') && ClosingUp(s, a, st, at)
    ensures ClosingUp(s', a, st, at)
  {
    hide Sound, Step, CarrierOk;
    FramesOn(s, turn, s', st, at);
    if turn.a != a { OnlyOwnTurn(s, turn, s', a); }
    if s.acts[a].Over? {
      ClosedStays(s, turn, s', st);
      NextAfterClose(s', st, at);
    } else if turn.a == a {
      ClosingStep(s, turn, s', st, at);
    }
  }

  lemma FramesOn(s: State, turn: Turn, s': State, st: nat, at: nat)
    requires Next(s, turn, s') && st < |s.streams| && at < |s.streams[st].written|
    ensures st < |s'.streams| && at < |s'.streams[st].written|
            && s'.streams[st].written[at] == s.streams[st].written[at]
  {
    if turn.Moves? { FrameStays(s, turn.a, turn.choice, st, at); }
    hide Step;
  }

  lemma NextAfterClose(s: State, st: nat, at: nat)
    requires Sound(s) && st < |s.streams| && s.streams[st].accepted == at + 1
    ensures s.streams[st].rxNext == at + 2
  {
    hide Sound;
    HolderFacts(s, st);
  }

  lemma ClosingStep(s: State, turn: Turn, s': State, st: nat, at: nat)
    requires Sound(s) && Sound(s') && Next(s, turn, s') && turn.Moves? && ClosingUp(s, turn.a, st, at)
             && !s.acts[turn.a].Over?
    requires st < |s'.streams| && at < |s'.streams[st].written|
             && s'.streams[st].written[at] == s.streams[st].written[at]
    ensures ClosingUp(s', turn.a, st, at)
  {
    hide Sound, SenderStep, OutboundStep, ReleaseStep, PageOf, TxOf;
    ActFacts(s, turn.a);
    HolderFacts(s, st);
    HolderFacts(s', st);
  }

  /** From a page in its frame with a good header on: the call takes that page and that permit, with its frame. */
  ghost predicate TakingUp(s: State, a: nat, st: nat, at: nat, page: nat, permit: nat) {
    && a in s.acts && st < |s.streams|
    && (|| s.acts[a] == AcceptAdvance(st, at, page, permit)
        || (s.streams[st].accepted > at && Holding(s.acts[a], st, page, permit)))
  }

  /** What has been taken is held until it is given back. */
  predicate Holding(act: Activity, st: nat, page: nat, permit: nat) {
    || act == AcceptFinish(st, page, permit) || act == Received(page, permit) || act == ReleaseAgain(page, permit)
    || act == DropPermit(permit, PageReleased) || act == Over(PageReleased)
  }

  /** At turn `m` activity `a` finds the page of its frame in place and its header good. */
  ghost predicate FindsAt(states: seq<State>, turns: seq<Turn>, m: nat, a: nat, st: nat, at: nat)
    requires |states| == |turns| + 1
  {
    && m < |turns| && turns[m].Moves? && turns[m].a == a && turns[m].choice.ok && a in states[m].acts
    && states[m].acts[a] == AcceptPage(st, at) && st < |states[m].streams| && at < |states[m].streams[st].written|
    && states[m].streams[st].written[at].PageFrame? && !FrameEmpty(states[m], st, at)
  }

  lemma {:induction false} TakesPage(states: seq<State>, turns: seq<Turn>, m: nat, k: nat, a: nat, st: nat, at: nat)
    requires IsRun(states, turns) && Initial(states[0]) && m < k <= |turns| && FindsAt(states, turns, m, a, st, at)
    ensures var frame := states[m].streams[st].written[at];
            TakingUp(states[k], a, st, at, frame.page, frame.permit)
    decreases k
  {
    hide Next, Initial, TakingUp, Sound;
    var (s, turn, s') := (states[k - 1], turns[k - 1], states[k]);
    var frame := states[m].streams[st].written[at];
    if k == m + 1 {
      PageTaken(s, turn, s', st, at);
    } else {
      TakesPage(states, turns, m, k - 1, a, st, at);
      Sounds(states, turns, k - 1);
      TakingOn(s, turn, s', a, st, at, frame.page, frame.permit);
    }
  }

  lemma PageTaken(s: State, turn: Turn, s': State, st: nat, at: nat)
    requires Next(s, turn, s') && turn.Moves? && turn.choice.ok && turn.a in s.acts
    requires s.acts[turn.a] == AcceptPage(st, at)
    requires st < |s.streams| && at < |s.streams[st].written| && s.streams[st].written[at].PageFrame?
             && !FrameEmpty(s, st, at)
    ensures TakingUp(s', turn.a, st, at, s.streams[st].written[at].page, s.streams[st].written[at].permit)
  {
    hide SenderStep, OutboundStep, ReleaseStep;
  }

  lemma TakingOn(s: State, turn: Turn, s': State, a: nat, st: nat, at: nat, page: nat, permit: nat)
    requires Sound(s) && Next(s, turn, s') && TakingUp(s, a, st, at, page, permit)
    ensures TakingUp(s', a, st, at, page, permit)
  {
    hide Next, Sound;
    AcceptedGrows(s, turn, s', st);
    if turn.a != a {
      OnlyOwnTurn(s, turn, s', a);
    } else if Holding(s.acts[a], st, page, permit) {
      HoldingOn(s, turn, s', st, page, permit);
    } else {
      Advances(s, turn, s', st, at, page, permit);
    }
  }

  lemma AcceptedGrows(s: State, turn: Turn, s': State, st: nat)
    requires Next(s, turn, s') && st < |s.streams|
    ensures st < |s'.streams| && s'.streams[st].accepted >= s.streams[st].accepted
  {
    if turn.Moves? {
      if OnReceiver(s.acts[turn.a]) { hide SenderStep, OutboundStep, ReleaseStep; } else {
        OthersLeaveRx(s, turn.a, turn.choice, st);
        hide Step;
      }
    }
  }

  lemma HoldingOn(s: State, turn: Turn, s': State, st: nat, page: nat, permit: nat)
    requires Next(s, turn, s') && turn.a in s.acts && Holding(s.acts[turn.a], st, page, permit)
    ensures turn.a in s'.acts && Holding(s'.acts[turn.a], st, page, permit)
  {
    hide SenderStep, OutboundStep;
    KnownAfter(s, turn, s');
  }

  lemma Advances(s: State, turn: Turn, s': State, st: nat, at: nat, page: nat, permit: nat)
    requires Sound(s) && Next(s, turn, s') && turn.a in s.acts && s.acts[turn.a] == AcceptAdvance(st, at, page, permit)
    ensures TakingUp(s', turn.a, st, at, page, permit)
  {
    hide SenderStep, OutboundStep, ReleaseStep;
    KnownAfter(s, turn, s');
  }

  // ---- What is sent is on the carrier, under ids given out one by one --------------------------------------

  /** The frames an access puts on stream `st`: an outbound page that is sent, or a close frame that is delivered. */
  function PutOn(act: Activity, c: Choice, st: nat): seq<Frame> {
    if c.ok && act.Outbound? && act.st == st then [PageFrame(act.id, act.page, act.permit)]
    else if c.ok && act.CloseNote? && act.st == st then [CloseFrame(act.id)]
    else []
  }

  /** An access reserves an id on stream `st`. */
  predicate ReservesOn(act: Activity, st: nat) { (act.FinishReserve? || act.CloseReserve?) && act.st == st }

  /** What an access does to the sending side of stream `st`. */
  ghost predicate Sends(s: State, act: Activity, c: Choice, s': State, st: nat)
    requires st < |s.streams|
  {
    && |s'.streams| == |s.streams| && s'.streams[st].written == s.streams[st].written + PutOn(act, c, st)
    && s'.streams[st].txNext == s.streams[st].txNext + if ReservesOn(act, st) then 1 else 0
  }

  lemma SenderSends(s: State, a: nat, c: Choice, st: nat)
    requires CanStep(s, a, c) && OnSender(s.acts[a]) && st < |s.streams| && IdsLeft(s, a)
    ensures Sends(s, s.acts[a], c, SenderStep(s, a, c), st)
  {
  }

  lemma OutboundSends(s: State, a: nat, c: Choice, st: nat)
    requires CanStep(s, a, c) && OnOutbound(s.acts[a]) && st < |s.streams| && IdsLeft(s, a)
    ensures Sends(s, s.acts[a], c, OutboundStep(s, a, c), st)
  {
  }

  lemma ReceiverSends(s: State, a: nat, c: Choice, st: nat)
    requires CanStep(s, a, c) && OnReceiver(s.acts[a]) && st < |s.streams|
    ensures Sends(s, s.acts[a], c, ReceiverStep(s, a, c), st)
  {
  }

  lemma ReleaseSends(s: State, a: nat, c: Choice, st: nat)
    requires CanStep(s, a, c) && !HasStream(s.acts[a]) && st < |s.streams|
    ensures Sends(s, s.acts[a], c, ReleaseStep(s, a, c), st)
  {
  }

  ghost function Puts(s: State, turn: Turn, st: nat): seq<Frame> {
    if turn.Moves? && turn.a in s.acts then PutOn(s.acts[turn.a], turn.choice, st) else []
  }

  ghost predicate Reserves(s: State, turn: Turn, st: nat) {
    turn.Moves? && turn.a in s.acts && ReservesOn(s.acts[turn.a], st)
  }

  lemma NextSends(s: State, turn: Turn, s': State, st: nat)
    requires Next(s, turn, s') && st < |s.streams|
    ensures |s'.streams| == |s.streams| && s'.streams[st].written == s.streams[st].written + Puts(s, turn, st)
    ensures s'.streams[st].txNext == s.streams[st].txNext + if Reserves(s, turn, st) then 1 else 0
  {
    hide SenderStep, OutboundStep, ReceiverStep, ReleaseStep, PutOn;
    if turn.Moves? {
      var (a, c) := (turn.a, turn.choice);
      if OnSender(s.acts[a]) { SenderSends(s, a, c, st); }
      else if OnOutbound(s.acts[a]) { OutboundSends(s, a, c, st); }
      else if OnReceiver(s.acts[a]) { ReceiverSends(s, a, c, st); }
      else { ReleaseSends(s, a, c, st); }
    }
  }

  /** The frames put on stream `st` before turn `k`, in order. */
  ghost function Put(states: seq<State>, turns: seq<Turn>, k: nat, st: nat): seq<Frame>
    requires |states| == |turns| + 1 && k <= |turns|
  {
    if k == 0 then [] else Put(states, turns, k - 1, st) + Puts(states[k - 1], turns[k - 1], st)
  }

  /** How many ids were reserved on stream `st` before turn `k`. */
  ghost function Reserved(states: seq<State>, turns: seq<Turn>, k: nat, st: nat): nat
    requires |states| == |turns| + 1 && k <= |turns|
  {
    if k == 0 then 0
    else Reserved(states, turns, k - 1, st) + if Reserves(states[k - 1], turns[k - 1], st) then 1 else 0
  }

  /**
   * In every run the carrier of a stream holds what was sent on it, each frame once and in order, and nothing else, and
   * its next id is one more than the number of ids reserved on it.
   */
  lemma {:induction false} CarrierHoldsSent(states: seq<State>, turns: seq<Turn>, k: nat, st: nat)
    requires IsRun(states, turns) && Initial(states[0]) && k <= |turns| && st < |states[0].streams|
    ensures |states[k].streams| == |states[0].streams| && states[k].streams[st].written == Put(states, turns, k, st)
    ensures states[k].streams[st].txNext == Reserved(states, turns, k, st) + 1
    decreases k
  {
    hide Next, Puts, Reserves;
    if k > 0 {
      CarrierHoldsSent(states, turns, k - 1, st);
      NextSends(states[k - 1], turns[k - 1], states[k], st);
    }
  }

  lemma {:induction false} SameStreams(states: seq<State>, turns: seq<Turn>, k: nat)
    requires IsRun(states, turns) && k <= |turns|
    ensures |states[k].streams| == |states[0].streams|
    decreases k
  {
    hide Next, Puts, Reserves;
    if k > 0 {
      SameStreams(states, turns, k - 1);
      if states[k - 1].streams != [] { NextSends(states[k - 1], turns[k - 1], states[k], 0); }
      else { NoStreams(states[k - 1], turns[k - 1], states[k]); }
    }
  }

  lemma NoStreams(s: State, turn: Turn, s': State)
    requires Next(s, turn, s') && s.streams == []
    ensures s'.streams == []
  {
    hide SenderStep, OutboundStep, ReceiverStep;
  }

  /** The id an activity has reserved and not yet used or given up. */
  function Id(act: Activity): Option<nat> {
    if act.FinishStore? || act.Outbound? || act.CloseNote? then Some(act.id) else None
  }

  /** The number, among the reservations on its stream, of the one that activity `a` made before turn `k`. */
  ghost function ReservedBy(states: seq<State>, turns: seq<Turn>, k: nat, a: nat): Option<nat>
    requires |states| == |turns| + 1 && k <= |turns|
  {
    if k == 0 then None
    else
      var (s, turn) := (states[k - 1], turns[k - 1]);
      if turn.a == a && a in s.acts && HasStream(s.acts[a]) && Reserves(s, turn, s.acts[a].st)
      then Some(Reserved(states, turns, k - 1, s.acts[a].st) + 1)
      else ReservedBy(states, turns, k - 1, a)
  }

  lemma SenderIds(s: State, a: nat, c: Choice)
    requires CanStep(s, a, c) && OnSender(s.acts[a])
    ensures a in SenderStep(s, a, c).acts
    ensures Id(SenderStep(s, a, c).acts[a])
            == if s.acts[a].CloseReserve? then Some(s.streams[s.acts[a].st].txNext) else None
  {
  }

  lemma OutboundIds(s: State, a: nat, c: Choice)
    requires CanStep(s, a, c) && OnOutbound(s.acts[a])
    ensures a in OutboundStep(s, a, c).acts
    ensures s.acts[a].FinishReserve? ==> Id(OutboundStep(s, a, c).acts[a]) == Some(s.streams[s.acts[a].st].txNext)
    ensures !s.acts[a].FinishReserve? && Id(OutboundStep(s, a, c).acts[a]).Some? ==>
              Id(OutboundStep(s, a, c).acts[a]) == Id(s.acts[a])
  {
  }

  lemma OthersIds(s: State, a: nat, c: Choice)
    requires CanStep(s, a, c) && !OnSender(s.acts[a]) && !OnOutbound(s.acts[a])
    ensures a in Step(s, a, c).acts && Id(Step(s, a, c).acts[a]).None?
  {
    hide SenderStep, OutboundStep;
    if OnReceiver(s.acts[a]) { ReceiverIds(s, a, c); hide ReceiverStep, ReleaseStep; } else { hide ReceiverStep; }
  }

  lemma ReceiverIds(s: State, a: nat, c: Choice)
    requires CanStep(s, a, c) && OnReceiver(s.acts[a])
    ensures a in ReceiverStep(s, a, c).acts && Id(ReceiverStep(s, a, c).acts[a]).None?
  {
  }

  /** A turn gives its activity the id it reserves, and otherwise leaves it the one it has. */
  lemma NextIds(s: State, turn: Turn, s': State)
    requires Next(s, turn, s')
    ensures turn.a in s'.acts
    ensures forall st: nat :: Reserves(s, turn, st) ==>
              st < |s.streams| && Id(s'.acts[turn.a]) == Some(s.streams[st].txNext)
    ensures (forall st: nat :: !Reserves(s, turn, st)) && Id(s'.acts[turn.a]).Some? ==>
              turn.a in s.acts && Id(s.acts[turn.a]) == Id(s'.acts[turn.a])
  {
    hide SenderStep, OutboundStep, ReceiverStep, ReleaseStep;
    if turn.Moves? {
      var (a, c) := (turn.a, turn.choice);
      if OnSender(s.acts[a]) { SenderIds(s, a, c); }
      else if OnOutbound(s.acts[a]) { OutboundIds(s, a, c); }
      else { OthersIds(s, a, c); }
      if s.acts[a].FinishReserve? || s.acts[a].CloseReserve? { assert Reserves(s, turn, s.acts[a].st); }
    }
  }

  /** In every run what an activity writes carries the number of its own reservation: one after the other from 1 on. */
  lemma {:induction false} IdsInOrder(states: seq<State>, turns: seq<Turn>, k: nat, a: nat)
    requires IsRun(states, turns) && Initial(states[0]) && k <= |turns|
    requires a in states[k].acts && Id(states[k].acts[a]).Some?
    ensures Id(states[k].acts[a]) == ReservedBy(states, turns, k, a)
    decreases k
  {
    hide Next, Id;
    var (s, turn, s') := (states[k - 1], turns[k - 1], states[k]);
    NextIds(s, turn, s');
    if turn.a != a {
      OnlyOwnTurn(s, turn, s', a);
      IdsInOrder(states, turns, k - 1, a);
    } else if st: nat :| Reserves(s, turn, st) {
      SameStreams(states, turns, k - 1);
      CarrierHoldsSent(states, turns, k - 1, st);
    } else {
      IdsInOrder(states, turns, k - 1, a);
    }
  }

  // ---- Nothing is lost unless a pool refuses it --------------------------------------------------------

  /** Every page and permit that is out is held by an activity or travels in a frame. */
  ghost predicate NoneLost(s: State) {
    && (forall x :: x in s.pages ==> !s.pages[x].Lost?)
    && (forall p :: p in s.permits ==> !s.permits[p].Lost?)
  }

  /** A pool refuses to take back a page or a permit. */
  predicate Refuses(act: Activity, c: Choice) {
    !c.ok && (act.WriterRelease? || act.OutboundRelease? || act.Received? || act.ReleaseAgain? || act.DropPermit?)
  }

  lemma SenderKeepsAll(s: State, a: nat, c: Choice)
    requires CanStep(s, a, c) && OnSender(s.acts[a]) && NoneLost(s) && !Refuses(s.acts[a], c)
    ensures NoneLost(SenderStep(s, a, c))
  {
  }

  lemma OutboundKeepsAll(s: State, a: nat, c: Choice)
    requires CanStep(s, a, c) && OnOutbound(s.acts[a]) && NoneLost(s) && !Refuses(s.acts[a], c)
    ensures NoneLost(OutboundStep(s, a, c))
  {
  }

  lemma ReceiverKeepsAll(s: State, a: nat, c: Choice)
    requires CanStep(s, a, c) && OnReceiver(s.acts[a]) && NoneLost(s) && !Refuses(s.acts[a], c)
    ensures NoneLost(ReceiverStep(s, a, c))
  {
  }

  lemma ReleaseKeepsAll(s: State, a: nat, c: Choice)
    requires CanStep(s, a, c) && !HasStream(s.acts[a]) && NoneLost(s) && !Refuses(s.acts[a], c)
    ensures NoneLost(ReleaseStep(s, a, c))
  {
  }

  lemma NextKeepsAll(s: State, turn: Turn, s': State)
    requires Next(s, turn, s') && NoneLost(s) && (turn.Moves? ==> !Refuses(s.acts[turn.a], turn.choice))
    ensures NoneLost(s')
  {
    hide SenderStep, OutboundStep, ReceiverStep, ReleaseStep, NoneLost;
    match turn
    case Starts(a, start) => SameBooks(s, a, start);
    case Moves(a, c) =>
      if OnSender(s.acts[a]) { SenderKeepsAll(s, a, c); }
      else if OnOutbound(s.acts[a]) { OutboundKeepsAll(s, a, c); }
      else if OnReceiver(s.acts[a]) { ReceiverKeepsAll(s, a, c); }
      else { ReleaseKeepsAll(s, a, c); }
  }

  lemma SameBooks(s: State, a: nat, start: Start)
    requires CanStart(s, a, start) && NoneLost(s)
    ensures NoneLost(Begin(s, a, start))
  {
  }

  /** No release before turn `k` was refused. */
  ghost predicate AllTaken(states: seq<State>, turns: seq<Turn>, k: nat)
    requires |states| == |turns| + 1 && k <= |turns|
  {
    forall j :: 0 <= j < k ==> Taken(states[j], turns[j])
  }

  ghost predicate Taken(s: State, turn: Turn) {
    turn.Moves? && turn.a in s.acts ==> !Refuses(s.acts[turn.a], turn.choice)
  }

  /** In every run whose pools take back what they are given, nothing that is out is ever without a holder. */
  lemma {:induction false} NothingLost(states: seq<State>, turns: seq<Turn>, k: nat)
    requires IsRun(states, turns) && Initial(states[0]) && k <= |turns| && AllTaken(states, turns, k)
    ensures NoneLost(states[k])
    decreases k
  {
    hide Next, NoneLost, Refuses;
    if k == 0 {
      NothingAtFirst(states[0]);
    } else {
      NothingLost(states, turns, k - 1);
      assert Taken(states[k - 1], turns[k - 1]);
      MoverKnown(states[k - 1], turns[k - 1], states[k]);
      NextKeepsAll(states[k - 1], turns[k - 1], states[k]);
    }
  }

  lemma MoverKnown(s: State, turn: Turn, s': State)
    requires Next(s, turn, s')
    ensures turn.Moves? ==> turn.a in s.acts
  {
  }

  lemma NothingAtFirst(s: State)
    requires Initial(s)
    ensures NoneLost(s)
  {
  }

  /** Once every call is over, the pools have everything back but what travels in frames and what they refused. */
  lemma AllReturned(s: State)
    requires Inv(s) && forall a :: a in s.acts ==> s.acts[a].Over?
    ensures forall x :: x in s.pages ==> s.pages[x].Lost? || s.pages[x].InFrame?
    ensures forall p :: p in s.permits ==> s.permits[p].Lost? || s.permits[p].InFrame?
  {
    hide Sound, Paid;
    forall x | x in s.pages ensures s.pages[x].Lost? || s.pages[x].InFrame? { PageFacts(s, x); }
    forall p | p in s.permits ensures s.permits[p].Lost? || s.permits[p].InFrame? { OwnedPermit(s, p); }
  }
}
