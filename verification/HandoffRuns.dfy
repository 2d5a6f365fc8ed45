/** Whole runs of the page handoff: any number of calls, objects and streams, interleaved in any way. */
module HandoffRuns {
  import opened Common
  import opened PageHandoff

  datatype Turn = Starts(a: nat, start: Start) | Moves(a: nat, choice: Choice)

  /** One call begins, or one access of a call or object happens. */
  ghost predicate Next(s: State, turn: Turn, s': State) {
    match turn
    case Starts(a, start) => CanStart(s, a, start) && s' == Begin(s, a, start)
    case Moves(a, c) => CanStep(s, a, c) && IdsLeft(s, a) && s' == Step(s, a, c)
  }

  ghost predicate IsRun(states: seq<State>, turns: seq<Turn>) {
    |states| == |turns| + 1 && forall k :: 0 <= k < |turns| ==> Next(states[k], turns[k], states[k + 1])
  }

  /** The pool took back every page that a receiver rejected. */
  ghost predicate TakenBack(states: seq<State>, turns: seq<Turn>)
    requires |states| == |turns| + 1
  {
    forall k :: 0 <= k < |turns| ==> ReclaimedAt(states[k], turns[k])
  }

  ghost predicate ReclaimedAt(s: State, turn: Turn) {
    turn.Moves? && turn.a in s.acts && s.acts[turn.a].AcceptReject? ==> turn.choice.ok
  }

  function FreshStream(): Stream { Stream(TxIdle, 1, None, [], RxIdle, 1, None, 0) }

  /** `PageTx::new`, `PageRx::new` and two pools with nothing leased. */
  ghost predicate Initial(s: State) {
    && s.acts == map[] && s.pages == map[] && s.permits == map[]
    && forall st: nat :: st < |s.streams| ==> s.streams[st] == FreshStream()
  }

  lemma InitialInv(s: State)
    requires Initial(s)
    ensures Inv(s)
  {
    forall st: nat | st < |s.streams| ensures HoldersOk(s, st) && CarrierOk(s.streams[st]) {}
  }

  lemma NextIsSound(s: State, turn: Turn, s': State)
    requires Sound(s) && Next(s, turn, s')
    ensures Sound(s')
  {
    hide Sound, Step, Begin;
    match turn
    case Starts(a, start) => BeginIsSound(s, a, start);
    case Moves(a, c) => StepIsSound(s, a, c);
  }

  lemma NextKeeps(s: State, turn: Turn, s': State)
    requires Inv(s) && Next(s, turn, s') && ReclaimedAt(s, turn)
    ensures Inv(s')
  {
    hide Inv, Step, Begin;
    match turn
    case Starts(a, start) => BeginKeeps(s, a, start);
    case Moves(a, c) => StepKeeps(s, a, c);
  }

  /** Streams, carriers and pages are in order in every state of every run. */
  lemma {:induction false} Sounds(states: seq<State>, turns: seq<Turn>, k: nat)
    requires IsRun(states, turns) && Initial(states[0]) && k <= |turns|
    ensures Sound(states[k])
  {
    hide Sound, Next, Initial;
    if k == 0 {
      InitialInv(states[0]);
    } else {
      Sounds(states, turns, k - 1);
      NextIsSound(states[k - 1], turns[k - 1], states[k]);
    }
  }

  /** So are the permits, as long as rejected pages are taken back. */
  lemma {:induction false} Reaches(states: seq<State>, turns: seq<Turn>, k: nat)
    requires IsRun(states, turns) && TakenBack(states, turns) && Initial(states[0]) && k <= |turns|
    ensures Inv(states[k])
  {
    hide Inv, Next, Initial, ReclaimedAt;
    if k == 0 {
      InitialInv(states[0]);
    } else {
      Reaches(states, turns, k - 1);
      NextKeeps(states[k - 1], turns[k - 1], states[k]);
    }
  }

  // ---- Streams: every run ---------------------------------------------------------------------

  /** In every reachable state the accepted frames are the first ones written, numbered 1, 2, 3 and so on. */
  lemma AcceptedPrefix(states: seq<State>, turns: seq<Turn>, k: nat, st: nat)
    requires IsRun(states, turns) && Initial(states[0]) && k <= |turns| && st < |states[k].streams|
    ensures var stream := states[k].streams[st];
            && stream.accepted <= |stream.written|
            && (forall j :: 0 <= j < stream.accepted ==> stream.written[j].id == j + 1)
            && Ascending(stream.written)
  {
    hide Sound;
    Sounds(states, turns, k);
    HolderFacts(states[k], st);
  }

  /** A receiver only ever takes the frame right after the ones it took, whatever frames it is offered. */
  lemma TakesOnlyNext(states: seq<State>, turns: seq<Turn>, k: nat)
    requires IsRun(states, turns) && Initial(states[0]) && k < |turns| && turns[k].Moves?
             && turns[k].a in states[k].acts
    requires states[k].acts[turns[k].a].AcceptAdvance? || states[k].acts[turns[k].a].CloseAdvance?
    ensures var (act, s, s') := (states[k].acts[turns[k].a], states[k], states[k + 1]);
            && act.st < |s.streams| == |s'.streams|
            && act.at == s.streams[act.st].accepted < |s.streams[act.st].written|
            && s'.streams[act.st].accepted == act.at + 1 && s.streams[act.st].written[act.at].id == act.at + 1
            && !s.streams[act.st].rxPhase.RxClosed?
  {
    hide Sound;
    Sounds(states, turns, k);
    ActFacts(states[k], turns[k].a);
    HolderFacts(states[k], states[k].acts[turns[k].a].st);
  }

  /** One stream has at most one writer or outbound page at a time. */
  lemma OneSender(states: seq<State>, turns: seq<Turn>, k: nat, a: nat, b: nat)
    requires IsRun(states, turns) && Initial(states[0]) && k <= |turns|
    requires a in states[k].acts && b in states[k].acts
    requires TxOf(states[k].acts[a]).Some? && TxOf(states[k].acts[b]).Some?
    requires TxOf(states[k].acts[a]).value.0 == TxOf(states[k].acts[b]).value.0
    ensures a == b
  {
    hide Sound, TxOf, RxOf, PageOf, IdOk, FrameOk;
    Sounds(states, turns, k);
    ActFacts(states[k], a);
    ActFacts(states[k], b);
  }

  /** A closed receiver accepts nothing more. */
  lemma ClosedStays(s: State, turn: Turn, s': State, st: nat)
    requires Sound(s) && Next(s, turn, s') && st < |s.streams| && s.streams[st].rxPhase.RxClosed?
    ensures |s'.streams| == |s.streams| && s'.streams[st].rxPhase.RxClosed?
            && s'.streams[st].accepted == s.streams[st].accepted
  {
    hide Sound, CarrierOk, PageOf, TxOf, IdOk, FrameOk;
    HolderFacts(s, st);
    if turn.Moves? {
      ActFacts(s, turn.a);
      if OnReceiver(s.acts[turn.a]) { hide SenderStep, OutboundStep, ReleaseStep; } else {
        OthersLeaveRx(s, turn.a, turn.choice, st);
        hide Step;
      }
    }
  }

  lemma OthersLeaveRx(s: State, a: nat, c: Choice, st: nat)
    requires CanStep(s, a, c) && !OnReceiver(s.acts[a]) && st < |s.streams|
    ensures var s' := Step(s, a, c);
            && |s'.streams| == |s.streams| && s'.streams[st].rxPhase == s.streams[st].rxPhase
            && s'.streams[st].accepted == s.streams[st].accepted
  {
    hide ReceiverStep;
    if OnSender(s.acts[a]) { hide OutboundStep, ReleaseStep; }
    else if OnOutbound(s.acts[a]) { hide SenderStep, ReleaseStep; }
    else { hide SenderStep, OutboundStep; }
  }

  lemma {:induction false} ClosedForever(states: seq<State>, turns: seq<Turn>, i: nat, j: nat, st: nat)
    requires IsRun(states, turns) && Initial(states[0]) && i <= j <= |turns|
    requires st < |states[i].streams| && states[i].streams[st].rxPhase.RxClosed?
    ensures st < |states[j].streams| && states[j].streams[st].rxPhase.RxClosed?
    ensures states[j].streams[st].accepted == states[i].streams[st].accepted
    decreases j - i
  {
    hide Next, Sound, Initial;
    if i < j {
      ClosedForever(states, turns, i, j - 1, st);
      Sounds(states, turns, j - 1);
      ClosedStays(states[j - 1], turns[j - 1], states[j], st);
    }
  }

  /** Nothing follows a close frame on the carrier. */
  lemma CloseIsLast(states: seq<State>, turns: seq<Turn>, k: nat, st: nat, at: nat)
    requires IsRun(states, turns) && Initial(states[0]) && k <= |turns| && st < |states[k].streams|
    requires at < |states[k].streams[st].written| && states[k].streams[st].written[at].CloseFrame?
    ensures at == |states[k].streams[st].written| - 1
  {
    hide Sound;
    Sounds(states, turns, k);
    HolderFacts(states[k], st);
  }

  // ---- Owners ------------------------------------------------------------------------------------

  /** In every run no page is held by two activities, nor by an activity and a frame on the carrier. */
  lemma OnePageOwner(states: seq<State>, turns: seq<Turn>, k: nat, a: nat, b: nat)
    requires IsRun(states, turns) && Initial(states[0]) && k <= |turns|
    requires a in states[k].acts && b in states[k].acts && a != b && PageOf(states[k].acts[a]).Some?
    ensures PageOf(states[k].acts[a]) != PageOf(states[k].acts[b])
    ensures var page := PageOf(states[k].acts[a]).value;
            page in states[k].pages && states[k].pages[page] == ByActivity(a)
  {
    hide Sound, TxOf, RxOf, PageOf, IdOk, FrameOk;
    Sounds(states, turns, k);
    ActFacts(states[k], a);
    ActFacts(states[k], b);
  }

  /** The same for permits, as long as rejected pages are taken back. */
  lemma OnePermitOwner(states: seq<State>, turns: seq<Turn>, k: nat, a: nat, b: nat)
    requires IsRun(states, turns) && TakenBack(states, turns) && Initial(states[0]) && k <= |turns|
    requires a in states[k].acts && b in states[k].acts && a != b && PermitOf(states[k].acts[a]).Some?
    ensures PermitOf(states[k].acts[a]) != PermitOf(states[k].acts[b])
    ensures var permit := PermitOf(states[k].acts[a]).value;
            permit in states[k].permits && states[k].permits[permit] == ByActivity(a)
  {
    hide Sound, Paid, PermitOf;
    Reaches(states, turns, k);
    PermitFacts(states[k], a);
    PermitFacts(states[k], b);
  }

  /** Two activities come to hold one permit only after a receiver rejected a page that the pool refused. */
  lemma HeldTwice(states: seq<State>, turns: seq<Turn>, k: nat, a: nat, b: nat) returns (j: nat)
    requires IsRun(states, turns) && Initial(states[0]) && k <= |turns|
    requires a in states[k].acts && b in states[k].acts && a != b
    requires PermitOf(states[k].acts[a]).Some? && PermitOf(states[k].acts[a]) == PermitOf(states[k].acts[b])
    ensures j < k && !ReclaimedAt(states[j], turns[j])
  {
    hide Next, Initial, ReclaimedAt, PermitOf;
    var (states', turns') := (states[..k + 1], turns[..k]);
    if TakenBack(states', turns') {
      OnePermitOwner(states', turns', k, a, b);
      assert false;
    }
    j :| 0 <= j < |turns'| && !ReclaimedAt(states'[j], turns'[j]);
  }

  // ---- Pages never outnumber permits --------------------------------------------------------------

  ghost function Owned(owners: map<nat, Owner>): set<nat> {
    set x | x in owners && !owners[x].Lost?
  }

  /** The permit that travels with a page. */
  ghost function Companion(s: State, x: nat): nat
    requires Sound(s) && x in Owned(s.pages)
  {
    PageFacts(s, x);
    var owner := s.pages[x];
    match owner
    case ByActivity(a) => PairedActivity(s.acts[a]); PermitOf(s.acts[a]).value
    case InFrame(st, at) => s.streams[st].written[at].permit
  }

  lemma PairedActivity(act: Activity)
    ensures PageOf(act).Some? ==> PermitOf(act).Some?
  {
  }

  lemma CompanionOk(s: State, x: nat)
    requires Inv(s) && x in Owned(s.pages)
    ensures Companion(s, x) in Owned(s.permits) && s.permits[Companion(s, x)] == s.pages[x]
  {
    hide Sound, Paid;
    PageFacts(s, x);
    if s.pages[x].InFrame? { PaidFrame(s, x); }
    if s.pages[x].ByActivity? {
      hide PageOf, PermitOf, TxOf, RxOf, IdOk, FrameOk;
      ActFacts(s, s.pages[x].a);
      PermitFacts(s, s.pages[x].a);
      PairedActivity(s.acts[s.pages[x].a]);
    }
  }

  lemma CompanionTells(s: State, x: nat, y: nat)
    requires Inv(s) && x in Owned(s.pages) && y in Owned(s.pages) && Companion(s, x) == Companion(s, y)
    ensures x == y
  {
    hide Sound, Paid, Companion;
    CompanionOk(s, x);
    CompanionOk(s, y);
    PageFacts(s, x);
    PageFacts(s, y);
  }

  lemma {:induction false} FewerPages(s: State, some: set<nat>) returns (permits: set<nat>)
    requires Inv(s) && some <= Owned(s.pages)
    ensures permits <= Owned(s.permits) && |permits| == |some|
    ensures forall p :: p in permits ==> exists x :: x in some && Companion(s, x) == p
    decreases |some|
  {
    hide Sound, Paid, Companion;
    if some == {} {
      permits := {};
    } else {
      var x :| x in some;
      var rest := FewerPages(s, some - {x});
      CompanionOk(s, x);
      if Companion(s, x) in rest {
        var y :| y in some - {x} && Companion(s, y) == Companion(s, x);
        CompanionTells(s, x, y);
        assert false;
      }
      permits := rest + {Companion(s, x)};
      forall p | p in permits ensures exists y :: y in some && Companion(s, y) == p {
        if p in rest { var y :| y in some - {x} && Companion(s, y) == p; assert y in some; } else { assert x in some; }
      }
    }
  }

  lemma AtMost(a: set<nat>, b: set<nat>)
    requires a <= b
    ensures |a| <= |b|
  {
    assert b == a + (b - a);
  }

  /** Pages that have an owner never outnumber the permits that have one. */
  lemma PagesWithinPermits(states: seq<State>, turns: seq<Turn>, k: nat)
    requires IsRun(states, turns) && TakenBack(states, turns) && Initial(states[0]) && k <= |turns|
    ensures |Owned(states[k].pages)| <= |Owned(states[k].permits)| <= |states[k].permits|
    ensures |states[k].pages| > |states[k].permits| ==> exists x :: x in states[k].pages && states[k].pages[x].Lost?
  {
    hide Inv;
    Reaches(states, turns, k);
    if forall x :: x in states[k].pages ==> !states[k].pages[x].Lost? {
      assert Owned(states[k].pages) == states[k].pages.Keys;
    }
    var permits := FewerPages(states[k], Owned(states[k].pages));
    AtMost(permits, Owned(states[k].permits));
    AtMost(Owned(states[k].permits), states[k].permits.Keys);
  }

  // ---- One activity through a run --------------------------------------------------------------

  lemma OnlyOwnTurn(s: State, turn: Turn, s': State, b: nat)
    requires Next(s, turn, s') && b != turn.a
    ensures b in s'.acts <==> b in s.acts
    ensures b in s.acts ==> s'.acts[b] == s.acts[b]
  {
    if turn.Moves? { StepActs(s, turn.a, turn.choice); }
    hide Step;
  }

  lemma StepActs(s: State, a: nat, c: Choice)
    requires CanStep(s, a, c)
    ensures a in Step(s, a, c).acts && Step(s, a, c).acts == s.acts[a := Step(s, a, c).acts[a]]
  {
    hide SenderStep, OutboundStep, ReceiverStep, ReleaseStep;
    if OnSender(s.acts[a]) { SenderActs(s, a, c); }
    else if OnOutbound(s.acts[a]) { OutboundActs(s, a, c); }
    else if OnReceiver(s.acts[a]) { ReceiverActs(s, a, c); }
    else { ReleaseActs(s, a, c); }
  }

  lemma SenderActs(s: State, a: nat, c: Choice)
    requires CanStep(s, a, c) && OnSender(s.acts[a])
    ensures var s' := SenderStep(s, a, c); a in s'.acts && s'.acts == s.acts[a := s'.acts[a]] && Sending(s'.acts[a])
  {
  }

  lemma OutboundActs(s: State, a: nat, c: Choice)
    requires CanStep(s, a, c) && OnOutbound(s.acts[a])
    ensures var s' := OutboundStep(s, a, c); a in s'.acts && s'.acts == s.acts[a := s'.acts[a]] && Sending(s'.acts[a])
  {
  }

  lemma ReceiverActs(s: State, a: nat, c: Choice)
    requires CanStep(s, a, c) && OnReceiver(s.acts[a])
    ensures var s' := ReceiverStep(s, a, c); a in s'.acts && s'.acts == s.acts[a := s'.acts[a]]
  {
  }

  lemma ReleaseActs(s: State, a: nat, c: Choice)
    requires CanStep(s, a, c) && !OnSender(s.acts[a]) && !OnOutbound(s.acts[a]) && !OnReceiver(s.acts[a])
    ensures var s' := ReleaseStep(s, a, c); a in s'.acts && s'.acts == s.acts[a := s'.acts[a]]
  {
  }

  /** The stages and ends of sending. */
  predicate Sending(act: Activity) {
    OnSender(act) || OnOutbound(act) || ((act.DropPermit? || act.Over?) && SendingOutcome(act.outcome))
  }

  predicate SendingOutcome(o: Outcome) {
    o.NoPermits? || o.TxBusy? || o.TxRefusedClosed? || o.NoPages? || o.WriterDropped? || o.PageSent?
        || o.OutboundDropped? || o.CloseWritten?
  }

  lemma SendingOn(s: State, a: nat, c: Choice)
    requires CanStep(s, a, c) && (OnSender(s.acts[a]) || OnOutbound(s.acts[a]))
    ensures Sending(Step(s, a, c).acts[a])
  {
    hide SenderStep, OutboundStep, ReceiverStep, ReleaseStep;
    if OnSender(s.acts[a]) { SenderActs(s, a, c); } else { OutboundActs(s, a, c); }
  }

  /** How accepts are cut short, and how permits are given up. */
  ghost predicate OutcomesFit(s: State) {
    && (forall a :: a in s.acts && s.acts[a].AcceptCancel? ==> IsRefusal(s.acts[a].outcome))
    && (forall a :: a in s.acts && s.acts[a].DropPermit? ==> !IsRefusal(s.acts[a].outcome))
  }

  lemma {:induction false} OutcomesAlways(states: seq<State>, turns: seq<Turn>, k: nat)
    requires IsRun(states, turns) && Initial(states[0]) && k <= |turns|
    ensures OutcomesFit(states[k])
    decreases k
  {
    hide Next;
    if k > 0 {
      OutcomesAlways(states, turns, k - 1);
      var (s, turn, s') := (states[k - 1], turns[k - 1], states[k]);
      forall b | b in s'.acts
        ensures (s'.acts[b].AcceptCancel? ==> IsRefusal(s'.acts[b].outcome))
                && (s'.acts[b].DropPermit? ==> !IsRefusal(s'.acts[b].outcome))
      {
        if b != turn.a { OnlyOwnTurn(s, turn, s', b); } else { OutcomesFrom(s, turn, s'); }
      }
    }
  }

  lemma ReceiverOutcomes(s: State, a: nat, c: Choice)
    requires CanStep(s, a, c) && OnReceiver(s.acts[a])
    ensures var act := ReceiverStep(s, a, c).acts[a];
            (act.AcceptCancel? ==> IsRefusal(act.outcome)) && (act.DropPermit? ==> !IsRefusal(act.outcome))
  {
  }

  lemma ReleaseOutcomes(s: State, a: nat, c: Choice)
    requires CanStep(s, a, c) && !OnSender(s.acts[a]) && !OnOutbound(s.acts[a]) && !OnReceiver(s.acts[a])
    ensures var act := ReleaseStep(s, a, c).acts[a]; !act.AcceptCancel? && (act.DropPermit? ==> !IsRefusal(act.outcome))
  {
  }

  lemma OutcomesFrom(s: State, turn: Turn, s': State)
    requires Next(s, turn, s') && turn.a in s'.acts
    ensures s'.acts[turn.a].AcceptCancel? ==> IsRefusal(s'.acts[turn.a].outcome)
    ensures s'.acts[turn.a].DropPermit? ==> !IsRefusal(s'.acts[turn.a].outcome)
  {
    hide SenderStep, OutboundStep, ReceiverStep, ReleaseStep;
    if turn.Moves? {
      var (act, c) := (s.acts[turn.a], turn.choice);
      if OnSender(act) || OnOutbound(act) { SendingOn(s, turn.a, c); }
      else if OnReceiver(act) { ReceiverOutcomes(s, turn.a, c); }
      else { ReleaseOutcomes(s, turn.a, c); }
    }
  }

  /** An activity that took a turn is known from then on. */
  lemma {:induction false} StaysKnown(states: seq<State>, turns: seq<Turn>, m: nat, k: nat)
    requires IsRun(states, turns) && m < k <= |turns|
    ensures turns[m].a in states[k].acts
    decreases k
  {
    hide Next;
    var a := turns[m].a;
    if k == m + 1 {
      KnownAfter(states[m], turns[m], states[k]);
    } else {
      StaysKnown(states, turns, m, k - 1);
      if turns[k - 1].a == a { KnownAfter(states[k - 1], turns[k - 1], states[k]); } else {
        OnlyOwnTurn(states[k - 1], turns[k - 1], states[k], a);
      }
    }
  }

  lemma KnownAfter(s: State, turn: Turn, s': State)
    requires Next(s, turn, s')
    ensures turn.a in s'.acts && (turn.Starts? <==> turn.a !in s.acts)
  {
    if turn.Moves? { StepActs(s, turn.a, turn.choice); }
    hide Step;
  }

  // ---- Refusals ----------------------------------------------------------------------------------

  predicate IsRefusal(o: Outcome) { o.RxBusy? || o.RxRefusedClosed? || o.UnexpectedTransferId? || o.AccessRefused? }

  /** The stages of an accept that is or will be refused, so far as it has gone. */
  predicate Trying(act: Activity) {
    act.AcceptEnter? || act.AcceptCheck? || act.AcceptPage?
        || ((act.AcceptCancel? || act.Over?) && IsRefusal(act.outcome))
  }

  /** No page, permit or frame moved. */
  ghost predicate NothingMoved(s: State, s': State) {
    && s'.pages == s.pages && s'.permits == s.permits && |s'.streams| == |s.streams|
    && forall st: nat :: st < |s.streams| ==> s'.streams[st].written == s.streams[st].written
  }

  lemma ReceiverTrying(s: State, a: nat, c: Choice)
    requires CanStep(s, a, c) && OnReceiver(s.acts[a]) && Trying(ReceiverStep(s, a, c).acts[a])
    ensures NothingMoved(s, ReceiverStep(s, a, c)) && Trying(s.acts[a])
  {
    hide NothingMoved;
    assert Trying(s.acts[a]);
    TriesQuietly(s, a, c);
  }

  lemma TriesQuietly(s: State, a: nat, c: Choice)
    requires CanStep(s, a, c) && Trying(s.acts[a]) && Trying(ReceiverStep(s, a, c).acts[a])
    ensures NothingMoved(s, ReceiverStep(s, a, c))
  {
    var s' := ReceiverStep(s, a, c);
    assert s'.pages == s.pages && s'.permits == s.permits;
    match s.acts[a]
    case AcceptEnter(_, _) =>
    case AcceptCheck(_, _) =>
    case AcceptPage(_, _) =>
    case AcceptCancel(_, _) =>
  }

  lemma ReleaseTrying(s: State, a: nat, c: Choice)
    requires CanStep(s, a, c) && !OnSender(s.acts[a]) && !OnOutbound(s.acts[a]) && !OnReceiver(s.acts[a])
    requires s.acts[a].DropPermit? ==> !IsRefusal(s.acts[a].outcome)
    ensures !Trying(ReleaseStep(s, a, c).acts[a])
  {
  }

  lemma TryingBefore(s: State, turn: Turn, s': State)
    requires Next(s, turn, s') && OutcomesFit(s) && turn.a in s'.acts && Trying(s'.acts[turn.a])
    ensures NothingMoved(s, s') && (turn.a in s.acts ==> Trying(s.acts[turn.a]))
  {
    hide SenderStep, OutboundStep, ReceiverStep, ReleaseStep;
    if turn.Moves? {
      var (act, c) := (s.acts[turn.a], turn.choice);
      if OnSender(act) || OnOutbound(act) { SendingOn(s, turn.a, c); }
      else if OnReceiver(act) { ReceiverTrying(s, turn.a, c); }
      else { ReleaseTrying(s, turn.a, c); }
    }
  }

  lemma {:induction false} TryingMovesNothing(states: seq<State>, turns: seq<Turn>, k: nat, a: nat, m: nat)
    requires IsRun(states, turns) && Initial(states[0]) && m < k <= |turns| && turns[m].a == a && a in states[k].acts
             && Trying(states[k].acts[a])
    ensures NothingMoved(states[m], states[m + 1])
    decreases k
  {
    hide Next, Trying, NothingMoved, OutcomesFit, Initial;
    if turns[k - 1].a == a {
      OutcomesAlways(states, turns, k - 1);
      TryingBefore(states[k - 1], turns[k - 1], states[k]);
      if m < k - 1 {
        StaysKnown(states, turns, m, k - 1);
        TryingMovesNothing(states, turns, k - 1, a, m);
      }
    } else {
      OnlyOwnTurn(states[k - 1], turns[k - 1], states[k], a);
      TryingMovesNothing(states, turns, k - 1, a, m);
    }
  }

  /** An accept that ends busy, closed, out of order or without access has moved nothing in any of its accesses. */
  lemma RefusalMovesNothing(states: seq<State>, turns: seq<Turn>, k: nat, a: nat, m: nat)
    requires IsRun(states, turns) && Initial(states[0]) && m < k <= |turns| && turns[m].a == a
    requires a in states[k].acts && states[k].acts[a].Over? && IsRefusal(states[k].acts[a].outcome)
    ensures NothingMoved(states[m], states[m + 1])
  {
    hide Next, NothingMoved;
    TryingMovesNothing(states, turns, k, a, m);
  }

  // ---- Rejections ----------------------------------------------------------------------------------

  /** The stages of an accept up to the release of a page with a bad header. */
  predicate Taking(act: Activity) { act.AcceptEnter? || act.AcceptCheck? || act.AcceptPage? || act.AcceptReject? }

  lemma ReceiverTaking(s: State, a: nat, c: Choice)
    requires CanStep(s, a, c) && OnReceiver(s.acts[a]) && Taking(ReceiverStep(s, a, c).acts[a])
    ensures var s' := ReceiverStep(s, a, c);
            s.pages.Keys <= s'.pages.Keys && s.permits.Keys <= s'.permits.Keys && Taking(s.acts[a])
  {
  }

  lemma ReleaseTaking(s: State, a: nat, c: Choice)
    requires CanStep(s, a, c) && !OnSender(s.acts[a]) && !OnOutbound(s.acts[a]) && !OnReceiver(s.acts[a])
    ensures !Taking(ReleaseStep(s, a, c).acts[a])
  {
  }

  lemma TakingBefore(s: State, turn: Turn, s': State)
    requires Next(s, turn, s') && turn.a in s'.acts && Taking(s'.acts[turn.a])
    ensures s.pages.Keys <= s'.pages.Keys && s.permits.Keys <= s'.permits.Keys
            && (turn.a in s.acts ==> Taking(s.acts[turn.a]))
  {
    hide SenderStep, OutboundStep, ReceiverStep, ReleaseStep;
    if turn.Moves? {
      var (act, c) := (s.acts[turn.a], turn.choice);
      if OnSender(act) || OnOutbound(act) { SendingOn(s, turn.a, c); }
      else if OnReceiver(act) { ReceiverTaking(s, turn.a, c); }
      else { ReleaseTaking(s, turn.a, c); }
    }
  }

  lemma {:induction false} TakingReturnsNothing(states: seq<State>, turns: seq<Turn>, k: nat, a: nat, m: nat)
    requires IsRun(states, turns) && m < k <= |turns| && turns[m].a == a && a in states[k].acts
             && Taking(states[k].acts[a])
    ensures states[m].pages.Keys <= states[m + 1].pages.Keys && states[m].permits.Keys <= states[m + 1].permits.Keys
    decreases k
  {
    hide Next, Taking;
    if turns[k - 1].a == a {
      TakingBefore(states[k - 1], turns[k - 1], states[k]);
      if m < k - 1 {
        StaysKnown(states, turns, m, k - 1);
        TakingReturnsNothing(states, turns, k - 1, a, m);
      }
    } else {
      OnlyOwnTurn(states[k - 1], turns[k - 1], states[k], a);
      TakingReturnsNothing(states, turns, k - 1, a, m);
    }
  }

  /** At turn `i`, activity `a` rejected a page and gave it back to the pool. */
  ghost predicate PageBackAt(states: seq<State>, turns: seq<Turn>, i: nat, a: nat, page: nat, permit: nat)
    requires |states| == |turns| + 1
  {
    && i < |turns| && turns[i].Moves? && turns[i].a == a && a in states[i].acts
    && states[i].acts[a].AcceptReject? && states[i].acts[a].page == page && states[i].acts[a].permit == permit
    && page in states[i].pages && states[i].pages[page] == ByActivity(a)
    && states[i + 1].pages == states[i].pages - {page}
    && states[i + 1].permits == states[i].permits
  }

  /** At turn `j`, activity `a` gave its permit back, or the permit pool refused it. */
  ghost predicate PermitBackAt(states: seq<State>, turns: seq<Turn>, j: nat, a: nat, permit: nat)
    requires |states| == |turns| + 1
  {
    && j < |turns| && turns[j].Moves? && turns[j].a == a && permit in states[j].permits
    && states[j].permits[permit] == ByActivity(a)
    && states[j + 1].pages == states[j].pages
    && states[j + 1].permits == if turns[j].choice.ok then states[j].permits - {permit}
        else states[j].permits[permit := Lost]
  }

  /** The turns of `a` before `k` other than `i` and `j` returned nothing to either pool. */
  ghost predicate OtherwiseKept(states: seq<State>, turns: seq<Turn>, k: nat, a: nat, i: nat, j: nat)
    requires |states| == |turns| + 1 && k <= |turns|
  {
    forall m: nat :: m < k && turns[m].a == a && m != i && m != j ==>
      states[m].pages.Keys <= states[m + 1].pages.Keys && states[m].permits.Keys <= states[m + 1].permits.Keys
  }

  predicate Rejecting(act: Activity, permit: nat) {
    (act.AcceptRejectCancel? && act.permit == permit) || act == DropPermit(permit, InvalidPage)
  }

  lemma ReceiverRejecting(s: State, a: nat, c: Choice, permit: nat)
    requires CanStep(s, a, c) && OnReceiver(s.acts[a]) && Rejecting(ReceiverStep(s, a, c).acts[a], permit)
    ensures var s' := ReceiverStep(s, a, c);
            && s'.permits == s.permits
            && ((s.acts[a].AcceptReject? && s.acts[a].permit == permit)
                || (Rejecting(s.acts[a], permit) && s'.pages == s.pages))
  {
  }

  lemma ReleaseRejecting(s: State, a: nat, c: Choice, permit: nat)
    requires CanStep(s, a, c) && !OnSender(s.acts[a]) && !OnOutbound(s.acts[a]) && !OnReceiver(s.acts[a])
    ensures !Rejecting(ReleaseStep(s, a, c).acts[a], permit)
  {
  }

  lemma RejectingBefore(s: State, turn: Turn, s': State, permit: nat)
    requires Next(s, turn, s') && turn.a in s'.acts && Rejecting(s'.acts[turn.a], permit)
    ensures turn.Moves? && turn.a in s.acts
    ensures (s.acts[turn.a].AcceptReject? && s.acts[turn.a].permit == permit && s'.permits == s.permits)
            || (Rejecting(s.acts[turn.a], permit) && s'.pages == s.pages && s'.permits == s.permits)
  {
    hide SenderStep, OutboundStep, ReceiverStep, ReleaseStep;
    if turn.Moves? {
      var (act, c) := (s.acts[turn.a], turn.choice);
      if OnSender(act) || OnOutbound(act) { SendingOn(s, turn.a, c); }
      else if OnReceiver(act) { ReceiverRejecting(s, turn.a, c, permit); }
      else { ReleaseRejecting(s, turn.a, c, permit); }
    }
  }

  /** A rejecting activity has given its page back, once, and nothing else. */
  lemma {:induction false} RejectedPage(states: seq<State>, turns: seq<Turn>, k: nat, a: nat, permit: nat)
      returns (i: nat, page: nat)
    requires IsRun(states, turns) && TakenBack(states, turns) && Initial(states[0]) && k <= |turns|
    requires a in states[k].acts && Rejecting(states[k].acts[a], permit)
    ensures i < k && PageBackAt(states, turns, i, a, page, permit) && OtherwiseKept(states, turns, k, a, i, i)
    decreases k
  {
    hide Next, Initial, Rejecting, ReclaimedAt, Taking;
    if k == 0 {
      NobodyAtFirst(states[0], a);
      assert false;
    }
    var (s, turn, s') := (states[k - 1], turns[k - 1], states[k]);
    if turn.a != a {
      OnlyOwnTurn(s, turn, s', a);
      i, page := RejectedPage(states, turns, k - 1, a, permit);
    } else {
      RejectingBefore(s, turn, s', permit);
      if !s.acts[a].AcceptReject? {
        i, page := RejectedPage(states, turns, k - 1, a, permit);
      } else {
        i, page := k - 1, s.acts[a].page;
        Sounds(states, turns, k - 1);
        GivesBack(s, turn, s');
        forall m: nat | m < k && turns[m].a == a && m != i
          ensures states[m].pages.Keys <= states[m + 1].pages.Keys
                  && states[m].permits.Keys <= states[m + 1].permits.Keys
        {
          StaysKnown(states, turns, m, k - 1);
          RejectIsTaking(s.acts[a]);
          TakingReturnsNothing(states, turns, k - 1, a, m);
        }
      }
    }
  }

  lemma RejectIsTaking(act: Activity)
    requires act.AcceptReject?
    ensures Taking(act)
  {
  }

  lemma NobodyAtFirst(s: State, a: nat)
    requires Initial(s)
    ensures a !in s.acts
  {
  }

  lemma GivesBack(s: State, turn: Turn, s': State)
    requires Sound(s) && Next(s, turn, s') && ReclaimedAt(s, turn) && turn.Moves? && s.acts[turn.a].AcceptReject?
    ensures var page := s.acts[turn.a].page;
            page in s.pages && s.pages[page] == ByActivity(turn.a) && s'.pages == s.pages - {page}
                && s'.permits == s.permits
  {
    hide Sound, SenderStep, OutboundStep, ReleaseStep;
    ActFacts(s, turn.a);
  }

  /** A page that went back to the pool is never leased again under the same descriptor. */
  lemma {:induction false} GoneForever(states: seq<State>, turns: seq<Turn>, i: nat, m: nat, page: nat)
    requires IsRun(states, turns) && Initial(states[0]) && i <= m <= |turns| && page !in states[i].pages
             && page < states[i].nextPage
    ensures page !in states[m].pages && page < states[m].nextPage
    decreases m - i
  {
    hide Next, Initial, Sound;
    if i < m {
      GoneForever(states, turns, i, m - 1, page);
      Sounds(states, turns, m - 1);
      StaysGone(states[m - 1], turns[m - 1], states[m], page);
    }
  }

  lemma StaysGone(s: State, turn: Turn, s': State, page: nat)
    requires Sound(s) && Next(s, turn, s') && page !in s.pages && page < s.nextPage
    ensures page !in s'.pages && page < s'.nextPage
  {
    hide Sound, CarrierOk, IdOk, FrameOk, TxOf, RxOf;
    if turn.Moves? {
      ActFacts(s, turn.a);
      if OnSender(s.acts[turn.a]) { hide OutboundStep, ReceiverStep, ReleaseStep; }
      else if OnOutbound(s.acts[turn.a]) { hide SenderStep, ReceiverStep, ReleaseStep; }
      else { hide SenderStep, OutboundStep; }
    }
  }

  lemma ReceiverOver(s: State, a: nat, c: Choice)
    requires CanStep(s, a, c) && OnReceiver(s.acts[a]) && (s.acts[a].AcceptCancel? ==> IsRefusal(s.acts[a].outcome))
    ensures ReceiverStep(s, a, c).acts[a] != Over(InvalidPage)
  {
  }

  lemma ReleaseOver(s: State, a: nat, c: Choice)
    requires CanStep(s, a, c) && !OnSender(s.acts[a]) && !OnOutbound(s.acts[a]) && !OnReceiver(s.acts[a])
             && ReleaseStep(s, a, c).acts[a] == Over(InvalidPage)
    ensures s.acts[a].DropPermit? && s.acts[a].outcome == InvalidPage
    ensures ReleaseStep(s, a, c).pages == s.pages
            && ReleaseStep(s, a, c).permits == s.FreePermit(s.acts[a].permit, c.ok).permits
  {
  }

  lemma OverBefore(s: State, turn: Turn, s': State)
    requires Next(s, turn, s') && turn.a in s'.acts && s'.acts[turn.a] == Over(InvalidPage)
    requires turn.a in s.acts && OutcomesFit(s)
    ensures turn.Moves? && s.acts[turn.a].DropPermit? && s.acts[turn.a].outcome == InvalidPage
    ensures s'.pages == s.pages && s'.permits == s.FreePermit(s.acts[turn.a].permit, turn.choice.ok).permits
  {
    hide SenderStep, OutboundStep, ReceiverStep, ReleaseStep;
    if turn.Moves? {
      var (act, c) := (s.acts[turn.a], turn.choice);
      if OnSender(act) || OnOutbound(act) { SendingOn(s, turn.a, c); }
      else if OnReceiver(act) { ReceiverOver(s, turn.a, c); }
      else { ReleaseOver(s, turn.a, c); }
    }
  }

  /**
   * However it is interleaved, an accept that ends with a bad header gave its page back at one of its accesses and its
   * permit at a later one, returned nothing else to either pool, and the page is never leased again.
   */
  lemma {:induction false} RejectReturnsBoth(states: seq<State>, turns: seq<Turn>, k: nat, a: nat)
      returns (i: nat, j: nat, page: nat, permit: nat)
    requires IsRun(states, turns) && TakenBack(states, turns) && Initial(states[0]) && k <= |turns|
    requires a in states[k].acts && states[k].acts[a] == Over(InvalidPage)
    ensures i < j < k && PageBackAt(states, turns, i, a, page, permit) && PermitBackAt(states, turns, j, a, permit)
    ensures OtherwiseKept(states, turns, k, a, i, j)
    ensures forall m: nat :: i < m <= |turns| ==> page !in states[m].pages
    decreases k
  {
    hide Next, Initial, ReclaimedAt, Sound, Paid, PageBackAt, OutcomesFit;
    if k == 0 {
      NobodyAtFirst(states[0], a);
      assert false;
    }
    var (s, turn, s') := (states[k - 1], turns[k - 1], states[k]);
    if turn.a != a {
      OnlyOwnTurn(s, turn, s', a);
      i, j, page, permit := RejectReturnsBoth(states, turns, k - 1, a);
    } else {
      OverIsNotFirst(s, turn, s');
      OutcomesAlways(states, turns, k - 1);
      OverBefore(s, turn, s');
      j, permit := k - 1, s.acts[a].permit;
      i, page := RejectedPage(states, turns, k - 1, a, permit);
      Reaches(states, turns, k - 1);
      PermitFacts(s, a);
      PageThenGone(states, turns, i, a, page, permit);
    }
  }

  lemma OverIsNotFirst(s: State, turn: Turn, s': State)
    requires Next(s, turn, s') && turn.a in s'.acts && s'.acts[turn.a].Over?
    ensures turn.a in s.acts
  {
  }

  lemma PageThenGone(states: seq<State>, turns: seq<Turn>, i: nat, a: nat, page: nat, permit: nat)
    requires IsRun(states, turns) && Initial(states[0]) && PageBackAt(states, turns, i, a, page, permit)
    ensures forall m: nat :: i < m <= |turns| ==> page !in states[m].pages
  {
    hide Next, Initial, Sound;
    Sounds(states, turns, i);
    PageFacts(states[i], page);
    NextPageGrows(states[i], turns[i], states[i + 1]);
    forall m: nat | i < m <= |turns| ensures page !in states[m].pages { GoneForever(states, turns, i + 1, m, page); }
  }

  lemma NextPageGrows(s: State, turn: Turn, s': State)
    requires Next(s, turn, s')
    ensures s.nextPage <= s'.nextPage
  {
    if turn.Moves? {
      if OnSender(s.acts[turn.a]) { hide OutboundStep, ReceiverStep, ReleaseStep; }
      else if OnOutbound(s.acts[turn.a]) { hide SenderStep, ReceiverStep, ReleaseStep; }
      else { hide SenderStep, OutboundStep; }
    }
  }

  // ---- Frames whose page is gone -----------------------------------------------------------------------

  /** The page of this frame has left the carrier. */
  ghost predicate FrameEmpty(s: State, st: nat, at: nat) {
    && st < |s.streams| && at < |s.streams[st].written| && s.streams[st].written[at].PageFrame?
    && !(s.streams[st].written[at].page in s.pages && s.pages[s.streams[st].written[at].page] == InFrame(st, at))
  }

  /** An empty frame stays empty: a rejected or accepted page is never taken from its frame again. */
  lemma EmptyStays(s: State, turn: Turn, s': State, st: nat, at: nat)
    requires Next(s, turn, s') && ReclaimedAt(s, turn) && FrameEmpty(s, st, at)
    ensures FrameEmpty(s', st, at)
  {
    if turn.Moves? {
      FrameStays(s, turn.a, turn.choice, st, at);
      FilledOnlyWhenWritten(s, turn.a, turn.choice, s.streams[st].written[at].page, st, at);
      hide Step, CanStep;
    }
  }

  lemma FrameStays(s: State, a: nat, c: Choice, st: nat, at: nat)
    requires CanStep(s, a, c) && st < |s.streams| && at < |s.streams[st].written|
    ensures |Step(s, a, c).streams| == |s.streams| && at < |Step(s, a, c).streams[st].written|
    ensures Step(s, a, c).streams[st].written[at] == s.streams[st].written[at]
  {
    if OnSender(s.acts[a]) { hide OutboundStep, ReceiverStep, ReleaseStep; }
    else if OnOutbound(s.acts[a]) { hide SenderStep, ReceiverStep, ReleaseStep; }
    else { hide SenderStep, OutboundStep; }
  }

  lemma FilledOnlyWhenWritten(s: State, a: nat, c: Choice, x: nat, st: nat, at: nat)
    requires CanStep(s, a, c) && (s.acts[a].AcceptReject? ==> c.ok) && st < |s.streams| && at < |s.streams[st].written|
    requires !(x in s.pages && s.pages[x] == InFrame(st, at))
    ensures !(x in Step(s, a, c).pages && Step(s, a, c).pages[x] == InFrame(st, at))
  {
    if OnSender(s.acts[a]) { hide OutboundStep, ReceiverStep, ReleaseStep; }
    else if OnOutbound(s.acts[a]) { hide SenderStep, ReceiverStep, ReleaseStep; }
    else { hide SenderStep, OutboundStep; }
  }

  lemma {:induction false} EmptyForever(states: seq<State>, turns: seq<Turn>, i: nat, j: nat, st: nat, at: nat)
    requires IsRun(states, turns) && TakenBack(states, turns) && i <= j <= |turns| && FrameEmpty(states[i], st, at)
    ensures FrameEmpty(states[j], st, at)
    decreases j - i
  {
    hide Next, FrameEmpty, ReclaimedAt;
    if i < j {
      EmptyForever(states, turns, i, j - 1, st, at);
      EmptyStays(states[j - 1], turns[j - 1], states[j], st, at);
    }
  }

  /** Offering an empty frame again moves nothing: its permit is returned only once. */
  lemma EmptyFrameRefused(s: State, a: nat, c: Choice)
    requires CanStep(s, a, c) && s.acts[a].AcceptPage? && FrameEmpty(s, s.acts[a].st, s.acts[a].at)
    ensures Step(s, a, c) == s.At(a, AcceptCancel(s.acts[a].st, AccessRefused))
  {
  }

  // ---- Why rejected pages must be taken back -----------------------------------------------------------

  ghost predicate CanReach(s: State, s': State) {
    exists states, turns :: IsRun(states, turns) && states[0] == s && states[|turns|] == s'
  }

  lemma ReachesItself(s: State)
    ensures CanReach(s, s)
  {
    assert IsRun([s], []);
  }

  lemma ReachesNext(s: State, s': State, turn: Turn, s'': State)
    requires CanReach(s, s') && Next(s', turn, s'')
    ensures CanReach(s, s'')
  {
    hide Next;
    var states, turns :| IsRun(states, turns) && states[0] == s && states[|turns|] == s';
    var (states', turns') := (states + [s''], turns + [turn]);
    assert IsRun(states', turns');
    assert states'[|turns'|] == s'';
  }

  /** One frame on the carrier, expected next, with an invalid header. */
  ghost predicate OneBadFrame(s: State) {
    |s.streams| == 1 && s.streams[0].written == [PageFrame(1, 0, 0)] && s.streams[0].rxNext == 1
  }

  /** One stream, two pages and one permit, with nothing leased. */
  const ONE_STREAM := State([FreshStream()], map[], 2, 1, 0, map[], map[])

  const YES := Choice(true, 0)

  /** A writer gets its permit, its page and the sender. */
  lemma FirstWriter() returns (s: State)
    ensures CanReach(ONE_STREAM, s)
    ensures s
            == ONE_STREAM.(streams := [FreshStream().(txPhase := Writing, txHolder := Some(0))],
                           acts := map[0 := Writer(0, 0, 0)],
                             nextPage := 1, pages := map[0 := ByActivity(0)], permits := map[0 := ByActivity(0)])
  {
    hide CanReach, IsRun;
    var from := ONE_STREAM;
    ReachesItself(from);
    var s1 := Begin(from, 0, StartBegin(0));
    ReachesNext(from, from, Starts(0, StartBegin(0)), s1);
    var s2 := SenderStep(s1, 0, YES);
    ReachesNext(from, s1, Moves(0, YES), s2);
    var s3 := SenderStep(s2, 0, YES);
    ReachesNext(from, s2, Moves(0, YES), s3);
    s := SenderStep(s3, 0, YES);
    ReachesNext(from, s3, Moves(0, YES), s);
    assert s.acts == map[0 := Writer(0, 0, 0)] && s.pages == map[0 := ByActivity(0)]
           && s.permits == map[0 := ByActivity(0)];
    assert s.streams == [FreshStream().(txPhase := Writing, txHolder := Some(0))];
  }

  lemma FirstOutbound() returns (s: State)
    ensures CanReach(ONE_STREAM, s)
    ensures s == ONE_STREAM.(streams := [FreshStream().(txPhase := OutboundPending, txHolder := Some(0), txNext := 2)],
                             acts := map[0 := Outbound(0, 1, 0, 0)], nextPage := 1,
                             pages := map[0 := ByActivity(0)], permits := map[0 := ByActivity(0)])
  {
    hide CanReach, IsRun;
    var from := ONE_STREAM;
    var s0 := FirstWriter();
    var s1 := OutboundStep(s0, 0, YES);
    ReachesNext(from, s0, Moves(0, YES), s1);
    var s2 := OutboundStep(s1, 0, YES);
    ReachesNext(from, s1, Moves(0, YES), s2);
    s := OutboundStep(s2, 0, YES);
    ReachesNext(from, s2, Moves(0, YES), s);
    assert s.acts == map[0 := Outbound(0, 1, 0, 0)];
    assert s.streams == [FreshStream().(txPhase := OutboundPending, txHolder := Some(0), txNext := 2)];
  }

  /** It finishes the page and sends it. */
  lemma FirstFrame() returns (s: State)
    ensures CanReach(ONE_STREAM, s)
    ensures s
            == State([FreshStream().(txNext := 2, written := [PageFrame(1, 0, 0)])], map[0 := Over(PageSent)], 2, 1, 1,
                       map[0 := InFrame(0, 0)], map[0 := InFrame(0, 0)])
  {
    hide CanReach, IsRun;
    var from := ONE_STREAM;
    var s3 := FirstOutbound();
    var s4 := OutboundStep(s3, 0, YES);
    ReachesNext(from, s3, Moves(0, YES), s4);
    assert s4.streams[0].written == [PageFrame(1, 0, 0)];
    s := OutboundStep(s4, 0, YES);
    ReachesNext(from, s4, Moves(0, YES), s);
    assert s.acts == map[0 := Over(PageSent)] && s.pages == map[0 := InFrame(0, 0)]
           && s.permits == map[0 := InFrame(0, 0)];
    assert s.streams == [FreshStream().(txNext := 2, written := [PageFrame(1, 0, 0)])];
  }

  lemma BadFrameChecked(from: State, s: State, a: nat) returns (s': State)
    requires CanReach(from, s) && OneBadFrame(s) && a !in s.acts && s.streams[0].rxPhase.RxIdle?
    ensures CanReach(from, s')
    ensures s'
            == s.(acts := s.acts[a := AcceptPage(0, 0)],
                  streams := [s.streams[0].(rxPhase := Accepting, rxHolder := Some(a))])
  {
    hide CanReach, IsRun;
    var s1 := Begin(s, a, StartAccept(0, 0));
    ReachesNext(from, s, Starts(a, StartAccept(0, 0)), s1);
    var s2 := ReceiverStep(s1, a, Choice(true, 0));
    ReachesNext(from, s1, Moves(a, Choice(true, 0)), s2);
    s' := ReceiverStep(s2, a, Choice(true, 0));
    ReachesNext(from, s2, Moves(a, Choice(true, 0)), s');
    assert s'.acts == s.acts[a := AcceptPage(0, 0)];
    assert s'.streams == [s.streams[0].(rxPhase := Accepting, rxHolder := Some(a))];
  }

  lemma BadPageReleased(from: State, s: State, a: nat, taken: bool) returns (s': State)
    requires CanReach(from, s) && OneBadFrame(s) && a in s.acts && s.acts[a] == AcceptPage(0, 0)
    requires 0 in s.pages && s.pages[0] == InFrame(0, 0)
    ensures CanReach(from, s')
    ensures a in s'.acts && s'.acts == s.acts[a := AcceptRejectCancel(0, 0)] && s'.streams == s.streams
            && s'.nextPage == s.nextPage
    ensures s'.pageCount == s.pageCount && s'.permitCount == s.permitCount
    ensures s'.pages == (if taken then s.pages - {0} else s.pages)
    ensures s'.permits == if 0 in s.permits && s.permits[0] == InFrame(0, 0) then s.permits[0 := ByActivity(a)]
            else s.permits
  {
    hide CanReach, IsRun;
    var s1 := ReceiverStep(s, a, Choice(false, 0));
    ReachesNext(from, s, Moves(a, Choice(false, 0)), s1);
    s' := ReceiverStep(s1, a, Choice(taken, 0));
    ReachesNext(from, s1, Moves(a, Choice(taken, 0)), s');
    assert s'.acts == s.acts[a := AcceptRejectCancel(0, 0)];
    assert s'.pages == (if taken then s.pages - {0} else s.pages);
  }

  lemma BadPermitReturned(from: State, s: State, a: nat) returns (s': State)
    requires CanReach(from, s) && OneBadFrame(s) && a in s.acts && s.acts[a] == AcceptRejectCancel(0, 0)
    ensures CanReach(from, s')
    ensures s'
            == s.(acts := s.acts[a := Over(InvalidPage)],
                  streams := [s.streams[0].(rxPhase := RxIdle, rxHolder := None)],
                     permits := s.permits - {0})
  {
    hide CanReach, IsRun;
    var s1 := ReceiverStep(s, a, Choice(true, 0));
    ReachesNext(from, s, Moves(a, Choice(true, 0)), s1);
    s' := ReleaseStep(s1, a, Choice(true, 0));
    ReachesNext(from, s1, Moves(a, Choice(true, 0)), s');
    assert s'.acts == s.acts[a := Over(InvalidPage)];
    assert s'.streams == [s.streams[0].(rxPhase := RxIdle, rxHolder := None)];
  }

  lemma WriterStarts(from: State, s: State, a: nat) returns (s': State)
    requires CanReach(from, s) && OneBadFrame(s) && a !in s.acts && s.streams[0].txPhase.TxIdle?
    requires 0 < s.permitCount && 0 !in s.permits && |s.pages| < s.pageCount && s.nextPage !in s.pages
    ensures CanReach(from, s')
    ensures s'.acts == s.acts[a := Writer(0, s.nextPage, 0)] && OneBadFrame(s')
            && s'.streams[0].rxPhase == s.streams[0].rxPhase
    ensures s'.pages == s.pages[s.nextPage := ByActivity(a)] && s'.permits == s.permits[0 := ByActivity(a)]
            && s'.permitCount == s.permitCount
  {
    hide CanReach, IsRun;
    var yes := Choice(true, 0);
    var s1 := Begin(s, a, StartBegin(0));
    ReachesNext(from, s, Starts(a, StartBegin(0)), s1);
    var s2 := SenderStep(s1, a, yes);
    ReachesNext(from, s1, Moves(a, yes), s2);
    var s3 := SenderStep(s2, a, yes);
    ReachesNext(from, s2, Moves(a, yes), s3);
    s' := SenderStep(s3, a, yes);
    ReachesNext(from, s3, Moves(a, yes), s');
    assert s'.acts == s.acts[a := Writer(0, s.nextPage, 0)];
  }

  /** A call takes the permit that the pool has. */
  lemma PermitTaken(from: State, s: State, a: nat) returns (s': State)
    requires CanReach(from, s) && |s.streams| == 1 && a !in s.acts && 0 < s.permitCount && 0 !in s.permits
    ensures CanReach(from, s') && s'.acts == s.acts[a := BeginEnter(0, 0)]
  {
    hide CanReach, IsRun;
    var s1 := Begin(s, a, StartBegin(0));
    ReachesNext(from, s, Starts(a, StartBegin(0)), s1);
    s' := SenderStep(s1, a, YES);
    ReachesNext(from, s1, Moves(a, YES), s');
    assert s'.acts == s.acts[a := BeginEnter(0, 0)];
  }

  /** The frame is offered, its page is refused back, its permit is returned, and a new writer gets that permit. */
  lemma SecondWriter() returns (s: State)
    ensures CanReach(ONE_STREAM, s) && OneBadFrame(s) && s.streams[0].rxPhase.RxIdle? && s.permitCount == 1
    ensures 0 in s.pages && s.pages[0] == InFrame(0, 0) && 0 in s.permits && s.permits[0] == ByActivity(2)
    ensures 2 in s.acts && s.acts[2] == Writer(0, 1, 0) && 3 !in s.acts && 4 !in s.acts
  {
    hide CanReach, IsRun;
    var from := ONE_STREAM;
    var s0 := FirstFrame();
    var s1 := BadFrameChecked(from, s0, 1);
    var s2 := BadPageReleased(from, s1, 1, false);
    var s3 := BadPermitReturned(from, s2, 1);
    assert s3.pages == map[0 := InFrame(0, 0)] && s3.permits == map[];
    s := WriterStarts(from, s3, 2);
  }

  /**
   * If the pool refuses a rejected page, the frame can be offered again, and that returns the permit once more. By then
   * it belongs to a writer, so in the end two calls hold the one permit there is.
   */
  lemma RefusedRejectStealsPermit() returns (s: State)
    ensures Initial(ONE_STREAM) && CanReach(ONE_STREAM, s) && ONE_STREAM.permitCount == 1
    ensures 2 in s.acts && 4 in s.acts && PermitOf(s.acts[2]) == PermitOf(s.acts[4]) == Some(0)
  {
    hide CanReach, IsRun;
    var from := ONE_STREAM;
    var s4 := SecondWriter();
    var s5 := BadFrameChecked(from, s4, 3);
    var s6 := BadPageReleased(from, s5, 3, true);
    var s7 := BadPermitReturned(from, s6, 3);
    s := PermitTaken(from, s7, 4);
  }

  // ---- And what follows whenever one is not ------------------------------------------------------------

  lemma SomeoneNew(acts: map<nat, Activity>) returns (b: nat)
    ensures b !in acts
  {
    var seen := acts.Keys;
    b := 0;
    while exists x :: x in seen && b <= x
      invariant seen <= acts.Keys && forall x :: x in acts && x !in seen ==> x < b
      decreases |seen|
    {
      var x :| x in seen && b <= x;
      b, seen := x + 1, seen - {x};
    }
  }

  lemma ReachesReceiver(from: State, s: State, a: nat, c: Choice)
    requires CanReach(from, s) && CanStep(s, a, c) && OnReceiver(s.acts[a])
    ensures CanReach(from, ReceiverStep(s, a, c))
  {
    hide CanReach, SenderStep, OutboundStep, ReceiverStep, ReleaseStep;
    ReachesNext(from, s, Moves(a, c), ReceiverStep(s, a, c));
  }

  /** A frame that is expected next, on an idle receiver, is offered and checked. */
  lemma FrameChecked(from: State, s: State, b: nat, st: nat, at: nat) returns (s': State)
    requires CanReach(from, s) && b !in s.acts && st < |s.streams| && s.streams[st].rxPhase.RxIdle?
    requires at < |s.streams[st].written| && s.streams[st].written[at].PageFrame?
             && s.streams[st].written[at].id == s.streams[st].rxNext
    ensures CanReach(from, s')
    ensures s'.acts == s.acts[b := AcceptPage(st, at)] && s'.pages == s.pages && |s'.streams| == |s.streams|
            && s'.streams[st].written == s.streams[st].written
  {
    hide CanReach, IsRun;
    var s1 := Begin(s, b, StartAccept(st, at));
    ReachesNext(from, s, Starts(b, StartAccept(st, at)), s1);
    hide Next;
    var s2 := ReceiverStep(s1, b, YES);
    ReachesReceiver(from, s1, b, YES);
    s' := ReceiverStep(s2, b, YES);
    ReachesReceiver(from, s2, b, YES);
    assert s'.acts == s.acts[b := AcceptPage(st, at)];
  }

  lemma CancelIdles(s: State, a: nat, st: nat, permit: nat)
    requires a in s.acts && s.acts[a] == AcceptRejectCancel(st, permit) && st < |s.streams|
    ensures var s' := ReceiverStep(s, a, YES);
            && s'.acts == s.acts[a := DropPermit(permit, InvalidPage)] && s'.pages == s.pages
            && s'.streams == s.streams[st := s.streams[st].(rxPhase := RxIdle, rxHolder := None)]
  {
  }

  lemma FrameGivesPermit(s: State, b: nat, st: nat, at: nat, page: nat, permit: nat)
    requires b in s.acts && s.acts[b] == AcceptPage(st, at) && st < |s.streams| && at < |s.streams[st].written|
    requires s.streams[st].written[at].PageFrame? && s.streams[st].written[at].page == page
             && s.streams[st].written[at].permit == permit && page in s.pages && s.pages[page] == InFrame(st, at)
    ensures ReceiverStep(s, b, YES).acts == s.acts[b := AcceptAdvance(st, at, page, permit)]
  {
  }

  /** The frame of a page that was refused back is taken once more, while the permit of the first time is still held. */
  lemma FrameTakenAgain(from: State, s: State, a: nat, st: nat, at: nat, page: nat, permit: nat)
      returns (s': State, b: nat)
    requires CanReach(from, s) && a in s.acts && s.acts[a] == AcceptRejectCancel(st, permit)
    requires st < |s.streams| && at < |s.streams[st].written|
             && s.streams[st].written[at] == PageFrame(s.streams[st].rxNext, page, permit)
    requires page in s.pages && s.pages[page] == InFrame(st, at)
    ensures CanReach(from, s') && a in s'.acts && b in s'.acts && a != b
    ensures PermitOf(s'.acts[a]) == PermitOf(s'.acts[b]) == Some(permit)
  {
    hide CanReach, Next, Step, ReceiverStep;
    b := SomeoneNew(s.acts);
    ReachesReceiver(from, s, a, YES);
    CancelIdles(s, a, st, permit);
    var s2 := FrameChecked(from, ReceiverStep(s, a, YES), b, st, at);
    ReachesReceiver(from, s2, b, YES);
    FrameGivesPermit(s2, b, st, at, page, permit);
    s' := ReceiverStep(s2, b, YES);
  }

  /** In any run, once the pool refuses a rejected page, turns can follow after which two activities hold its permit. */
  lemma RefusalDuplicates(states: seq<State>, turns: seq<Turn>, k: nat) returns (s: State, b: nat)
    requires IsRun(states, turns) && Initial(states[0]) && k < |turns| && !ReclaimedAt(states[k], turns[k])
    ensures CanReach(states[k + 1], s)
    ensures var a := turns[k].a;
            && a in states[k].acts && states[k].acts[a].AcceptReject? && a in s.acts && b in s.acts && a != b
            && PermitOf(s.acts[a]) == PermitOf(s.acts[b]) == Some(states[k].acts[a].permit)
  {
    hide Sound, CanReach;
    Sounds(states, turns, k);
    var (before, a, after) := (states[k], turns[k].a, states[k + 1]);
    ActFacts(before, a);
    var act := before.acts[a];
    assert after == ReceiverStep(before, a, turns[k].choice);
    ReachesItself(after);
    s, b := FrameTakenAgain(after, after, a, act.st, act.at, act.page, act.permit);
  }

  // ---- A lost page ---------------------------------------------------------------------------------------

  const NO := Choice(false, 1)

  lemma PageRefused() returns (s: State)
    ensures CanReach(ONE_STREAM, s)
    ensures s == ONE_STREAM.(streams := [FreshStream().(txPhase := Writing, txHolder := Some(0))],
                             acts := map[0 := WriterCancel(0, 0)], nextPage := 1, pages := map[0 := Lost],
                             permits := map[0 := ByActivity(0)])
  {
    hide CanReach, IsRun;
    var from := ONE_STREAM;
    var s0 := FirstWriter();
    var s1 := OutboundStep(s0, 0, NO);
    ReachesNext(from, s0, Moves(0, NO), s1);
    s := OutboundStep(s1, 0, NO);
    ReachesNext(from, s1, Moves(0, NO), s);
    assert s.acts == map[0 := WriterCancel(0, 0)] && s.pages == map[0 := Lost];
  }

  /** A writer is dropped and the pool refuses its page, but takes the permit. */
  lemma PageLost() returns (s: State)
    ensures CanReach(ONE_STREAM, s)
    ensures s == ONE_STREAM.(acts := map[0 := Over(WriterDropped)], nextPage := 1, pages := map[0 := Lost])
  {
    hide CanReach, IsRun;
    var from := ONE_STREAM;
    var s2 := PageRefused();
    var s3 := OutboundStep(s2, 0, YES);
    ReachesNext(from, s2, Moves(0, YES), s3);
    s := ReleaseStep(s3, 0, YES);
    ReachesNext(from, s3, Moves(0, YES), s);
    assert s.acts == map[0 := Over(WriterDropped)] && s.permits == map[];
    assert s.streams == [FreshStream()];
  }

  /** The next writer gets the permit, and two pages are out on the one permit there is. */
  lemma LostPageOutnumbers() returns (s: State)
    ensures Initial(ONE_STREAM) && CanReach(ONE_STREAM, s) && ONE_STREAM.permitCount == 1
    ensures |s.pages| == 2 && |s.permits| == 1 && 1 in s.acts && s.acts[1] == Writer(0, 1, 0)
  {
    hide CanReach, IsRun;
    var from := ONE_STREAM;
    var s0 := PageLost();
    var s1 := Begin(s0, 1, StartBegin(0));
    ReachesNext(from, s0, Starts(1, StartBegin(0)), s1);
    var s2 := SenderStep(s1, 1, YES);
    ReachesNext(from, s1, Moves(1, YES), s2);
    var s3 := SenderStep(s2, 1, YES);
    ReachesNext(from, s2, Moves(1, YES), s3);
    s := SenderStep(s3, 1, YES);
    ReachesNext(from, s3, Moves(1, YES), s);
    assert s.pages == map[0 := Lost, 1 := ByActivity(1)] && s.permits == map[0 := ByActivity(1)];
    assert s.pages.Keys == {0, 1} && s.permits.Keys == {0};
  }
}
