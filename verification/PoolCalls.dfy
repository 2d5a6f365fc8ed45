/** What every call on the page pool comes to, however the calls of other threads are interleaved with it. */
module PoolCalls {
  import opened Common
  import opened PagePool
  import S = TreiberStack

  // ---- The check of a release ------------------------------------------------------------------

  /** Why a descriptor cannot be released, told from the stage of its page. */
  ghost function Refusal(s: Pool, d: Desc): Option<ReleaseError>
    requires Shaped(s)
  {
    if d.pool != s.id then Some(PoolMismatch)
    else if d.page >= |s.words| then Some(BadPageId)
    else if d.generation != Generation(s.words[d.page]) then Some(StaleGeneration)
    else
      var stage := s.stages[d.page];
      match stage
      case HandedOff => None
      case Leasing(_) => Some(LeaseStillAttached)
      case WornOut => Some(PageExhausted)
      case _ => Some(NotLeased)
  }

  /** A handed-off page passes and anything else is refused for what it is; a consumed lease always passes. */
  lemma ChecksExactly(s: Pool, t: nat, free: seq<nat>)
    requires Inv(s, free) && t in s.pcs && s.pcs[t].ReleaseLoop?
    ensures var (d, expected) := (s.pcs[t].desc, s.pcs[t].expected);
            if expected.Detached? && Refusal(s, d).Some?
            then Access(s, t) == s.At(t, Done(ReleaseErr(d, Refusal(s, d).value)))
            else d.page < |s.words| && Access(s, t) == s.At(t, ReleaseLoaded(d, expected, s.words[d.page]))
  {
    hide S.Inv, HistoryOk, PackState, StateOf, Generation;
    assert PcOk(s, t);
    var d := s.pcs[t].desc;
    if d.page < |s.words| {
      assert StageOk(s, d.page);
      WordTellsStage(s, d.page);
    }
  }

  /** The exchange of a release: it fails only if somebody else moved the page on, and never under a lease. */
  lemma ExchangesExactly(s: Pool, t: nat, free: seq<nat>)
    requires Inv(s, free) && t in s.pcs && s.pcs[t].ReleaseLoaded?
    ensures var (d, expected, s') := (s.pcs[t].desc, s.pcs[t].expected, Access(s, t));
            && d.page < |s.words| == |s'.words| == |s'.stages| && t in s'.pcs
            && (s.words[d.page] != s.pcs[t].cur ==> expected.Detached? && s' == s.At(t, ReleaseLoop(d, expected)))
            && (s.words[d.page] == s.pcs[t].cur ==>
                  && s'.words == s.words[d.page := s'.words[d.page]] && Generation(s'.words[d.page]) == d.generation
                  && if d.generation == MAX_GENERATION
                     then s'.stages[d.page].WornOut? && StateOf(s'.words[d.page]).Exhausted?
                          && s'.pcs[t] == Done(ReleaseOk(d))
                     else s'.stages[d.page] == Released(t) && StateOf(s'.words[d.page]).Free?
                          && s'.pcs[t] == Freeing(d, expected))
  {
    hide S.Inv, HistoryOk;
    assert PcOk(s, t);
    var d := s.pcs[t].desc;
    assert StageOk(s, d.page);
    UnpackState(d.generation, Exhausted);
    UnpackState(d.generation, Free);
    hide PackState, Generation, StateOf, S.Step, S.Enabled;
  }

  // ---- A call in progress ----------------------------------------------------------------------------

  /** Where thread `t` can be on its way through a call, and what it can bring back. */
  ghost predicate OnCall(s: Pool, t: nat, a: Action) {
    t in s.pcs && match a
    case CallAcquire =>
      (match s.pcs[t]
       case Allocating => true
       case AcquireLoop(_) => true
       case AcquireLoaded(_, _) => true
       case Done(o) => o.Leased? || o.AcquireEmpty?
       case _ => false)
    case CallDetach(p, g) =>
      (match s.pcs[t]
       case DetachLoop(d) => d == Desc(s.id, p, g)
       case DetachLoaded(d, _) => d == Desc(s.id, p, g)
       case Done(o) => o == Handoff(p, g)
       case _ => false)
    case CallDrop(p, g) => OnRelease(s, t, Desc(s.id, p, g), Attached)
    case CallRelease(d) => OnRelease(s, t, d, Detached)
    case _ => false
  }

  ghost predicate OnRelease(s: Pool, t: nat, d: Desc, expected: LeaseState)
    requires t in s.pcs
  {
    var pc := s.pcs[t];
    match pc
    case ReleaseLoop(d', e) => (d', e) == (d, expected)
    case ReleaseLoaded(d', e, _) => (d', e) == (d, expected)
    case Freeing(d', e) => (d', e) == (d, expected)
    case RevertLoop(d', e) => (d', e) == (d, expected)
    case RevertLoaded(d', e, _) => (d', e) == (d, expected)
    case Done(o) =>
      o == ReleaseOk(d)
      || (o.ReleaseErr? && o.desc == d && (expected.Attached? ==> o.error == CorruptFreeList))
    case _ => false
  }

  predicate IsCall(a: Action) { !a.Continue? && !a.Collect? }

  lemma CallStarts(s: Pool, t: nat, a: Action)
    requires Allowed(s, t, a) && IsCall(a)
    ensures OnCall(Step(s, t, a), t, a)
  {
    hide S.Step, S.Enabled;
  }

  lemma FreelistAlone(s: Pool, t: nat, a: S.Action)
    ensures OnFreelist(s, t, a).pcs == s.pcs && OnFreelist(s, t, a).id == s.id
    ensures FreelistAccess(s, t).pcs == s.pcs && FreelistAccess(s, t).id == s.id
  {
    hide S.Step, S.Enabled, S.Effect, Generation;
  }

  lemma AccessesAlone(s: Pool, u: nat, t: nat)
    requires Allowed(s, u, Continue) && t in s.pcs && t != u
    ensures t in Access(s, u).pcs && Access(s, u).pcs[t] == s.pcs[t]
  {
    hide OnFreelist, FreelistAccess, PackState, Generation, StateOf, ReleaseCheck;
    if s.pcs[u].Allocating? || s.pcs[u].Freeing? {
      FreelistAlone(s, u, S.Collect);
    } else if s.pcs[u].ReleaseLoaded? && s.pcs[u].desc.page < |s.words| {
      var d := s.pcs[u].desc;
      FreelistAlone(s.Write(d.page, PackState(d.generation, Free), Released(u)), u, S.CallPush(d.page));
    }
  }

  lemma OthersWait(s: Pool, u: nat, b: Action, t: nat)
    requires Allowed(s, u, b) && t in s.pcs && t != u
    ensures t in Step(s, u, b).pcs && Step(s, u, b).pcs[t] == s.pcs[t] && Step(s, u, b).id == s.id
  {
    hide OnFreelist, Access;
    FreelistAlone(s, u, S.CallPop);
    if b == Continue {
      AccessesAlone(s, u, t);
      SameId(s, u);
    }
  }

  /** One access of an acquire: nothing it finds is ever corrupt. */
  lemma AcquireGoesOn(s: Pool, t: nat, free: seq<nat>)
    requires Inv(s, free) && Allowed(s, t, Continue)
    requires s.pcs[t].Allocating? || s.pcs[t].AcquireLoop? || s.pcs[t].AcquireLoaded?
    ensures t in Access(s, t).pcs
    ensures var (pc, pc') := (s.pcs[t], Access(s, t).pcs[t]);
            match pc
            case Allocating =>
              if !s.freelist.pcs[t].Returned? then pc' == Allocating
              else if s.freelist.pcs[t].outcome.Took? then pc' == AcquireLoop(s.freelist.pcs[t].outcome.idx)
              else pc' == Done(AcquireEmpty)
            case AcquireLoop(p) => p < |s.words| && pc' == AcquireLoaded(p, s.words[p])
            case AcquireLoaded(p, cur) => pc' == Done(Leased(p, Generation(cur) + 1))
            case _ => true
  {
    hide S.Inv, OnFreelist, FreelistAccess, HistoryOk, PackState, StateOf, Generation, StageOk;
    assert PcOk(s, t);
    FreelistAlone(s, t, S.Collect);
    if s.pcs[t].AcquireLoop? { Reads(s, t, s.pcs[t].page, free); }
  }

  /** One access of a detach: its lease is there. */
  lemma DetachGoesOn(s: Pool, t: nat, free: seq<nat>)
    requires Inv(s, free) && Allowed(s, t, Continue) && (s.pcs[t].DetachLoop? || s.pcs[t].DetachLoaded?)
    ensures var (d, s') := (s.pcs[t].desc, Access(s, t));
            && t in s'.pcs && d.page < |s.words| == |s'.words| == |s'.stages|
            && (s.pcs[t].DetachLoop? ==> s' == s.At(t, DetachLoaded(d, s.words[d.page])))
            && (s.pcs[t].DetachLoaded? ==>
                  && s'.pcs[t] == Done(Handoff(d.page, d.generation)) && s'.stages[d.page].HandedOff?
                  && s'.words == s.words[d.page := PackState(d.generation, Detached)])
  {
    hide S.Inv, HistoryOk, PackState, StateOf, Generation, StageOk;
    assert PcOk(s, t);
    Reads(s, t, s.pcs[t].desc.page, free);
  }

  /** One access of a release after its exchange. */
  lemma FreeingGoesOn(s: Pool, t: nat, free: seq<nat>)
    requires Inv(s, free) && Allowed(s, t, Continue)
    requires s.pcs[t].Freeing? || s.pcs[t].RevertLoop? || s.pcs[t].RevertLoaded?
    ensures t in Access(s, t).pcs
    ensures var (pc, pc') := (s.pcs[t], Access(s, t).pcs[t]);
            match pc
            case Freeing(d, expected) =>
              if !s.freelist.pcs[t].Returned? then pc' == pc
              else if s.freelist.pcs[t] == S.Returned(S.Full) then pc' == RevertLoop(d, expected)
              else pc' == Done(ReleaseOk(d))
            case RevertLoop(d, expected) => pc'.RevertLoaded? && pc'.desc == d && pc'.expected == expected
            case RevertLoaded(d, expected, _) => pc' == Done(ReleaseErr(d, CorruptFreeList))
            case _ => true
  {
    hide S.Inv, OnFreelist, FreelistAccess, HistoryOk, PackState, StateOf, Generation, StageOk;
    assert PcOk(s, t);
    FreelistAlone(s, t, S.Collect);
    if s.pcs[t].RevertLoop? { Reads(s, t, s.pcs[t].desc.page, free); }
  }

  /** What one access of a call leads to. */
  lemma CallGoesOn(s: Pool, t: nat, a: Action, free: seq<nat>)
    requires Inv(s, free) && Allowed(s, t, Continue) && OnCall(s, t, a)
    ensures OnCall(Access(s, t), t, a)
  {
    hide Inv, Access, Refusal, Generation, StateOf;
    SameId(s, t);
    match s.pcs[t]
    case ReleaseLoop(_, _) => ChecksExactly(s, t, free);
    case ReleaseLoaded(_, _, _) => ExchangesExactly(s, t, free);
    case Freeing(_, _) => FreeingGoesOn(s, t, free);
    case RevertLoop(_, _) => FreeingGoesOn(s, t, free);
    case RevertLoaded(_, _, _) => FreeingGoesOn(s, t, free);
    case DetachLoop(_) => DetachGoesOn(s, t, free);
    case DetachLoaded(_, _) => DetachGoesOn(s, t, free);
    case _ => AcquireGoesOn(s, t, free);
  }

  lemma Reads(s: Pool, t: nat, p: nat, free: seq<nat>)
    requires Inv(s, free) && t in s.pcs && p < |s.words|
    ensures s.stages[p] == Popped(t) || s.stages[p] == Released(t) ==>
              StateOf(s.words[p]).Free? && Generation(s.words[p]) + 1 < S.U64
    ensures s.stages[p] == Leasing(Used(t)) ==> StateOf(s.words[p]).Attached?
  {
    hide S.Inv, HistoryOk, PcOk;
    ReadsOwnPage(s, t, p);
  }

  /** Thread `t` makes call `a` at turn `i` and has not collected its result by turn `j`. */
  ghost predicate InCall(sched: seq<(nat, Action)>, i: nat, j: nat, t: nat, a: Action) {
    && i < j <= |sched| && sched[i] == (t, a) && IsCall(a)
    && forall k :: i < k < j && sched[k].0 == t ==> sched[k].1 == Continue
  }

  /** In every run a call stays on its way until its result is collected. */
  lemma {:induction false} CallRuns(states: seq<Pool>, sched: seq<(nat, Action)>, free: seq<nat>, i: nat, j: nat,
                                    t: nat, a: Action)
    requires IsRun(states, sched) && Inv(states[0], free) && InCall(sched, i, j, t, a)
    ensures OnCall(states[j], t, a)
    decreases j
  {
    hide Inv, Step, Allowed, OnCall, S.Timely;
    if j == i + 1 {
      CallStarts(states[i], t, a);
    } else {
      CallRuns(states, sched, free, i, j - 1, t, a);
      var (s, u, b) := (states[j - 1], sched[j - 1].0, sched[j - 1].1);
      if u == t {
        var here := Reaches(states, sched, free, j - 1);
        CallGoesOn(s, t, a, here);
        ContinueIsAccess(s, t);
      } else {
        OnCallKnown(s, t, a);
        OthersWait(s, u, b, t);
        SamePlace(s, states[j], t, a);
      }
    }
  }

  lemma ContinueIsAccess(s: Pool, t: nat)
    requires Allowed(s, t, Continue)
    ensures Step(s, t, Continue) == Access(s, t)
  {
    hide Access;
  }

  lemma OnCallKnown(s: Pool, t: nat, a: Action)
    requires OnCall(s, t, a)
    ensures t in s.pcs
  {
  }

  lemma SamePlace(s: Pool, s': Pool, t: nat, a: Action)
    requires OnCall(s, t, a) && t in s.pcs && t in s'.pcs && s'.pcs[t] == s.pcs[t] && s'.id == s.id
    ensures OnCall(s', t, a)
  {
  }

  /** Detaching a live lease always succeeds, with that page and generation. */
  lemma DetachSucceeds(states: seq<Pool>, sched: seq<(nat, Action)>, free: seq<nat>, i: nat, j: nat, t: nat, p: nat,
                       g: nat)
    requires IsRun(states, sched) && Inv(states[0], free) && InCall(sched, i, j, t, CallDetach(p, g))
    ensures t in states[j].pcs && (states[j].pcs[t].Done? ==> states[j].pcs[t] == Done(Handoff(p, g)))
  {
    hide Inv, Step, Allowed, InCall;
    CallRuns(states, sched, free, i, j, t, CallDetach(p, g));
  }

  // ---- How a release ends --------------------------------------------------------------------------------

  /** What turn `k` of thread `t` decides about the release it is making: a refusal, or a push that was refused. */
  ghost function Decides(states: seq<Pool>, sched: seq<(nat, Action)>, k: nat, t: nat, d: Desc, expected: LeaseState):
      Option<ReleaseError>
    requires |states| == |sched| + 1 && k < |sched|
  {
    if sched[k] != (t, Continue) || t !in states[k].pcs || t !in states[k].freelist.pcs || !Shaped(states[k]) then None
    else if states[k].pcs[t] == ReleaseLoop(d, expected) && expected.Detached? then Refusal(states[k], d)
    else if states[k].pcs[t] == Freeing(d, expected) && states[k].freelist.pcs[t] == S.Returned(S.Full)
    then Some(CorruptFreeList)
    else None
  }

  /** The first such decision between turns `i` and `j`. */
  ghost function Decision(states: seq<Pool>, sched: seq<(nat, Action)>, i: nat, j: nat, t: nat, d: Desc,
                          expected: LeaseState): Option<ReleaseError>
    requires |states| == |sched| + 1 && i < j <= |sched|
    decreases j
  {
    if j == i + 1 then None
    else if Decision(states, sched, i, j - 1, t, d, expected).Some? then
      Decision(states, sched, i, j - 1, t, d, expected)
    else Decides(states, sched, j - 1, t, d, expected)
  }

  /** A release follows what has been decided about it. */
  ghost predicate Follows(pc: Pc, d: Desc, decision: Option<ReleaseError>) {
    match pc
    case RevertLoop(_, _) => decision == Some(CorruptFreeList)
    case RevertLoaded(_, _, _) => decision == Some(CorruptFreeList)
    case Done(o) => o == if decision.Some? then ReleaseErr(d, decision.value) else ReleaseOk(d)
    case _ => decision.None?
  }

  lemma FollowsOn(states: seq<Pool>, sched: seq<(nat, Action)>, k: nat, t: nat, d: Desc, expected: LeaseState,
                  before: Option<ReleaseError>, free: seq<nat>)
    requires IsRun(states, sched) && k < |sched| && sched[k] == (t, Continue) && Inv(states[k], free)
    requires t in states[k].pcs && OnRelease(states[k], t, d, expected) && (expected.Attached? || expected.Detached?)
    requires Follows(states[k].pcs[t], d, before)
    ensures t in states[k + 1].pcs
            && Follows(states[k + 1].pcs[t], d,
                       if before.Some? then before else Decides(states, sched, k, t, d, expected))
  {
    var s := states[k];
    ContinueIsAccess(s, t);
    hide Inv, Access, Refusal, Generation, StateOf, IsRun;
    ShapeOf(s, free);
    match s.pcs[t]
    case ReleaseLoop(_, _) => ChecksExactly(s, t, free);
    case ReleaseLoaded(_, _, _) => ExchangesExactly(s, t, free);
    case _ => FreeingGoesOn(s, t, free);
  }

  lemma ShapeOf(s: Pool, free: seq<nat>)
    requires Inv(s, free)
    ensures Shaped(s)
  {
  }

  /** The descriptor and the expected state of a release or a drop. */
  ghost predicate ReleaseCall(s: Pool, a: Action, d: Desc, expected: LeaseState) {
    (a == CallRelease(d) && expected == Detached) || (a == CallDrop(d.page, d.generation) && d.pool == s.id
        && expected == Attached)
  }

  lemma {:induction false} ReleaseFollows(states: seq<Pool>, sched: seq<(nat, Action)>, free: seq<nat>, i: nat, j: nat,
                                          t: nat, a: Action, d: Desc, expected: LeaseState)
    requires IsRun(states, sched) && Inv(states[0], free) && InCall(sched, i, j, t, a)
             && ReleaseCall(states[i], a, d, expected)
    ensures t in states[j].pcs && states[j].id == states[i].id && OnRelease(states[j], t, d, expected)
    ensures Follows(states[j].pcs[t], d, Decision(states, sched, i, j, t, d, expected))
    decreases j
  {
    hide Inv, Step, Allowed, S.Timely, Decides, Refusal;
    if j == i + 1 {
      ReleaseStarts(states[i], t, a, d, expected);
    } else {
      ReleaseFollows(states, sched, free, i, j - 1, t, a, d, expected);
      var (s, u, b) := (states[j - 1], sched[j - 1].0, sched[j - 1].1);
      var here := Reaches(states, sched, free, j - 1);
      if u == t {
        FollowsOn(states, sched, j - 1, t, d, expected, Decision(states, sched, i, j - 1, t, d, expected), here);
        CallGoesOn(s, t, if expected.Attached? then CallDrop(d.page, d.generation) else CallRelease(d), here);
        SameId(s, t);
        ContinueIsAccess(s, t);
      } else {
        OthersWait(s, u, b, t);
        NotMine(states, sched, j - 1, t, d, expected);
      }
    }
  }

  lemma ReleaseStarts(s: Pool, t: nat, a: Action, d: Desc, expected: LeaseState)
    requires Allowed(s, t, a) && ReleaseCall(s, a, d, expected)
    ensures var s' := Step(s, t, a); t in s'.pcs && s'.id == s.id && s'.pcs[t] == ReleaseLoop(d, expected)
  {
  }

  lemma SameId(s: Pool, t: nat)
    requires Allowed(s, t, Continue)
    ensures Access(s, t).id == s.id
  {
    hide OnFreelist, FreelistAccess, PackState, Generation, StateOf, ReleaseCheck;
    FreelistAlone(s, t, S.Collect);
    if s.pcs[t].ReleaseLoaded? && s.pcs[t].desc.page < |s.words| {
      var d := s.pcs[t].desc;
      FreelistAlone(s.Write(d.page, PackState(d.generation, Free), Released(t)), t, S.CallPush(d.page));
    }
  }

  lemma NotMine(states: seq<Pool>, sched: seq<(nat, Action)>, k: nat, t: nat, d: Desc, expected: LeaseState)
    requires |states| == |sched| + 1 && k < |sched| && sched[k].0 != t
    ensures Decides(states, sched, k, t, d, expected).None?
  {
  }

  /**
   * In every run a release that has ended was refused for the reason it was first given, or because the free list
   * refused the page, and otherwise succeeded.
   */
  lemma ReleaseEnds(states: seq<Pool>, sched: seq<(nat, Action)>, free: seq<nat>, i: nat, j: nat, t: nat, d: Desc)
    requires IsRun(states, sched) && Inv(states[0], free) && InCall(sched, i, j, t, CallRelease(d))
    ensures t in states[j].pcs
    ensures states[j].pcs[t].Done? ==>
              var decision := Decision(states, sched, i, j, t, d, Detached);
              states[j].pcs[t] == Done(if decision.Some? then ReleaseErr(d, decision.value) else ReleaseOk(d))
  {
    hide Inv, Step, Allowed, InCall, Decision;
    ReleaseFollows(states, sched, free, i, j, t, CallRelease(d), d, Detached);
  }

  /** A dropped lease is always released, unless the free list refuses its page. */
  lemma DropEnds(states: seq<Pool>, sched: seq<(nat, Action)>, free: seq<nat>, i: nat, j: nat, t: nat, p: nat, g: nat)
    requires IsRun(states, sched) && Inv(states[0], free) && InCall(sched, i, j, t, CallDrop(p, g))
    ensures var d := Desc(states[i].id, p, g);
            && t in states[j].pcs
            && (states[j].pcs[t].Done? ==>
                  states[j].pcs[t]
                  == Done(if exists k :: RefusedBack(states, sched, i, j, k, t, d) then ReleaseErr(d, CorruptFreeList)
                          else ReleaseOk(d)))
  {
    hide Inv, Step, Allowed, Decides;
    var d := Desc(states[i].id, p, g);
    ReleaseFollows(states, sched, free, i, j, t, CallDrop(p, g), d, Attached);
    DecisionIsRefusal(states, sched, i, j, t, d);
  }

  /** At turn `k` thread `t` learns that the free list refused the page. */
  ghost predicate RefusedBack(states: seq<Pool>, sched: seq<(nat, Action)>, i: nat, j: nat, k: nat, t: nat, d: Desc)
    requires |states| == |sched| + 1 && i < j <= |sched|
  {
    i < k < j && Decides(states, sched, k, t, d, Attached) == Some(CorruptFreeList)
  }

  lemma {:induction false} DecisionIsRefusal(states: seq<Pool>, sched: seq<(nat, Action)>, i: nat, j: nat, t: nat,
                                             d: Desc)
    requires |states| == |sched| + 1 && i < j <= |sched|
    ensures Decision(states, sched, i, j, t, d, Attached)
            == if exists k :: RefusedBack(states, sched, i, j, k, t, d) then Some(CorruptFreeList) else None
    decreases j
  {
    if j > i + 1 {
      var last := j - 1;
      DecisionIsRefusal(states, sched, i, last, t, d);
      forall k ensures RefusedBack(states, sched, i, j, k, t, d) <==>
                         RefusedBack(states, sched, i, last, k, t, d)
                         || (k == last && Decides(states, sched, last, t, d, Attached).Some?) {}
      if Decides(states, sched, last, t, d, Attached).Some? { assert RefusedBack(states, sched, i, j, last, t, d); }
    }
  }
}
