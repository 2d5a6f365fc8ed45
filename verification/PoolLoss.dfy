/** Pages the pool loses: dropped leases whose page the free list refused. */
module PoolLoss {
  import opened Common
  import opened PagePool
  import S = TreiberStack

  // ---- How a page is lost ---------------------------------------------------------------------

  /** A drop of page `p` by thread `t` was refused by the free list and is on its way to the revert. */
  ghost predicate Refused(s: Pool, t: nat, p: nat) {
    && t in s.pcs && t in s.freelist.pcs
    && match s.pcs[t]
       case Freeing(d, expected) => d.page == p && expected.Attached? && s.freelist.pcs[t] == S.Returned(S.Full)
       case RevertLoop(d, expected) => d.page == p && expected.Attached?
       case RevertLoaded(d, expected, _) => d.page == p && expected.Attached?
       case _ => false
  }

  /** The page is attached without a lease object, or is about to be. */
  ghost predicate Doomed(s: Pool, p: nat) {
    p < |s.stages| && (s.stages[p] == Leasing(Lost) || (s.stages[p].Released? && Refused(s, s.stages[p].thread, p)))
  }

  /** The access in which a dropped lease meets the free list's room check. */
  ghost predicate OffersDropped(s: Pool, t: nat, a: Action, p: nat) {
    && a.Continue? && t in s.pcs && t in s.freelist.pcs
    && s.pcs[t].Freeing? && s.pcs[t].expected.Attached? && s.pcs[t].desc.page == p
    && s.freelist.pcs[t] == S.PushStart(p)
  }

  /** Linked pages not yet counted outnumber everything the count still covers. */
  ghost predicate CountLags(f: S.State, free: seq<nat>) {
    |free| + |S.Undecremented(f)| < |S.Unincremented(f)|
  }

  /** Own steps the refused thread still has before the page is lost. */
  ghost function ToGo(s: Pool, p: nat): nat
    requires Doomed(s, p)
  {
    if s.stages[p] == Leasing(Lost) then 0
    else match s.pcs[s.stages[p].thread]
         case RevertLoaded(_, _, _) => 1
         case RevertLoop(_, _) => 2
         case _ => 3
  }

  // ---- Steps ------------------------------------------------------------------------------------

  ghost predicate Untouchable(s: Pool, t: nat, p: nat) {
    p < |s.stages| && (s.stages[p] == Leasing(Lost) || (s.stages[p].Released? && s.stages[p].thread != t))
  }

  lemma PageFacts(s: Pool, free: seq<nat>, t: nat, p: nat)
    requires Inv(s, free) && t in s.pcs && p < |s.words|
    ensures Shaped(s) && StageOk(s, p) && PcOk(s, t) && S.Inv(s.freelist, free)
  {
  }

  /** The words of a lost or released page are attached or free. */
  lemma UntouchableWord(s: Pool, t: nat, p: nat)
    requires Shaped(s) && p < |s.words| && StageOk(s, p) && Untouchable(s, t, p)
    ensures if s.stages[p].Leasing? then StateOf(s.words[p]).Attached? else StateOf(s.words[p]).Free?
    ensures !s.freelist.place[p].Stacked? && s.freelist.place[p] != S.Pushing(t) && s.freelist.place[p] != S.Popped(t)
  {
    UnpackState(Generation(s.words[p]), Attached);
    UnpackState(Generation(s.words[p]), Free);
  }

  lemma FreelistLeaves(s: Pool, t: nat, free: seq<nat>, p: nat)
    requires InFreelist(s, t, free) && p < |s.words| && Untouchable(s, t, p)
    ensures var s' := FreelistAccess(s, t);
            |s'.stages| == |s'.words| == |s.words| && s'.stages[p] == s.stages[p] && s'.words == s.words
  {
    PageFacts(s, free, t, p);
    UntouchableWord(s, t, p);
    FreelistOk(s, t, free);
    hide PackState, Generation, StateOf, StageOk, PcOk, HistoryOk;
    if S.Effect(s.freelist, t, S.Access).Pop? { S.PopReadKnows(s.freelist, t, free); }
    if S.Effect(s.freelist, t, S.Access).Push? { assert S.PcOk(s.freelist, t); }
  }

  /** A step of `t` leaves alone a lost page and a page another thread is releasing. */
  lemma OthersLeave(s: Pool, t: nat, a: Action, free: seq<nat>, p: nat)
    requires Inv(s, free) && Allowed(s, t, a) && S.Timely(s.freelist, t) && p < |s.words| && Untouchable(s, t, p)
    ensures var s' := Step(s, t, a);
            |s'.stages| == |s'.words| == |s.words| && s'.stages[p] == s.stages[p] && s'.words[p] == s.words[p]
  {
    hide PackState, Generation, StateOf, S.Inv, StageOk, FreelistAccess;
    PageFacts(s, free, t, p);
    UntouchableWord(s, t, p);
    if a.Continue? && (s.pcs[t].Allocating? || s.pcs[t].Freeing?) && !s.freelist.pcs[t].Returned? {
      FreelistLeaves(s, t, free, p);
    }
  }

  lemma CallsLeave(s: Pool, t: nat, a: S.Action, u: nat)
    requires u in s.freelist.pcs && u != t
    ensures var s' := OnFreelist(s, t, a);
            s'.pcs == s.pcs && u in s'.freelist.pcs && s'.freelist.pcs[u] == s.freelist.pcs[u]
    ensures a.Access? ==>
              var s' := FreelistAccess(s, t);
              s'.pcs == s.pcs && u in s'.freelist.pcs && s'.freelist.pcs[u] == s.freelist.pcs[u]
  {
    hide PackState, Generation, StateOf, S.Step, S.Enabled, S.Effect;
    if S.Enabled(s.freelist, t, a) { FreelistFrame(s.freelist, t, a); }
  }

  /** No thread joins. */
  lemma NobodyJoins(s: Pool, t: nat, a: Action, u: nat)
    requires Allowed(s, t, a) && u in Step(s, t, a).pcs
    ensures u in s.pcs
  {
    hide PackState, Generation, StateOf, ReleaseCheck, S.Step, S.Enabled, S.Effect, Access;
    if a.Continue? { NobodyJoinsInside(s, t, u); }
  }

  lemma NobodyJoinsInside(s: Pool, t: nat, u: nat)
    requires t in s.pcs && t in s.freelist.pcs && |s.stages| == |s.words| && u in Access(s, t).pcs
    ensures u in s.pcs
  {
    hide PackState, Generation, StateOf, ReleaseCheck, S.Step, S.Enabled, S.Effect;
  }

  /** The other threads keep their program counters. */
  lemma OthersStand(s: Pool, t: nat, a: Action, u: nat)
    requires Allowed(s, t, a) && u in s.pcs && u in s.freelist.pcs && u != t
    ensures var s' := Step(s, t, a);
            u in s'.pcs && u in s'.freelist.pcs && s'.pcs[u] == s.pcs[u] && s'.freelist.pcs[u] == s.freelist.pcs[u]
  {
    hide PackState, Generation, StateOf, ReleaseCheck, OnFreelist, FreelistAccess;
    CallsLeave(s, t, S.CallPop, u);
    CallsLeave(s, t, S.Collect, u);
    CallsLeave(s, t, S.Access, u);
    if s.pcs[t].ReleaseLoaded? && s.pcs[t].desc.page < |s.words| {
      var d := s.pcs[t].desc;
      CallsLeave(s.Write(d.page, PackState(d.generation, Free), Released(t)), t, S.CallPush(d.page), u);
    }
  }

  /** The refused thread's own step: it brings the page one step nearer to being lost. */
  lemma RefusedMoves(s: Pool, t: nat, a: Action, free: seq<nat>, p: nat)
    requires Inv(s, free) && Allowed(s, t, a) && S.Timely(s.freelist, t) && Doomed(s, p)
    requires s.stages[p] == Released(t)
    ensures a.Continue? && Doomed(Step(s, t, a), p) && ToGo(Step(s, t, a), p) == ToGo(s, p) - 1
    ensures ToGo(Step(s, t, a), p) > 0 ==> Step(s, t, a).stages[p] == s.stages[p]
    ensures p < |s.words| && p < |Step(s, t, a).words| && Generation(Step(s, t, a).words[p]) == Generation(s.words[p])
  {
    hide S.Inv;
    PageFacts(s, free, t, p);
    UnpackState(s.pcs[t].desc.generation, Free);
    UnpackState(s.pcs[t].desc.generation, Attached);
    hide PackState, Generation, StateOf;
  }

  /** A doomed page stays doomed, in the same generation, and only its thread's steps bring it nearer to the end. */
  lemma DoomedStays(s: Pool, t: nat, a: Action, free: seq<nat>, p: nat)
    requires Inv(s, free) && Allowed(s, t, a) && S.Timely(s.freelist, t) && Doomed(s, p)
    ensures Doomed(Step(s, t, a), p)
    ensures ToGo(Step(s, t, a), p) == if s.stages[p] == Released(t) then ToGo(s, p) - 1 else ToGo(s, p)
    ensures ToGo(Step(s, t, a), p) > 0 ==> Step(s, t, a).stages[p] == s.stages[p]
    ensures p < |s.words| && p < |Step(s, t, a).words| && Generation(Step(s, t, a).words[p]) == Generation(s.words[p])
  {
    hide Inv, Step, Allowed, Generation, StageOk, PcOk;
    HasShape(s, free);
    if s.stages[p] == Released(t) {
      RefusedMoves(s, t, a, free, p);
    } else {
      OthersLeave(s, t, a, free, p);
      if s.stages[p].Released? { OthersStand(s, t, a, s.stages[p].thread); }
    }
  }

  lemma HasShape(s: Pool, free: seq<nat>)
    requires Inv(s, free)
    ensures Shaped(s)
  {
  }

  // ---- Exactly when ---------------------------------------------------------------------------------

  /** Only the revert of a dropped lease loses a page. */
  lemma BecomesLost(s: Pool, t: nat, a: Action, p: nat)
    requires Allowed(s, t, a) && p < |s.stages| && s.stages[p] != Leasing(Lost)
    requires p < |Step(s, t, a).stages| && Step(s, t, a).stages[p] == Leasing(Lost)
    ensures Refused(s, t, p)
  {
    hide PackState, Generation, StateOf, ReleaseCheck, S.Step, S.Enabled, S.Effect;
  }

  lemma BecomesRefused(s: Pool, t: nat, a: Action, free: seq<nat>, p: nat)
    requires Inv(s, free) && Allowed(s, t, a) && Refused(Step(s, t, a), t, p)
    ensures Refused(s, t, p) || OffersDropped(s, t, a, p)
  {
    hide PackState, Generation, StateOf, ReleaseCheck, S.Inv, StageOk, HistoryOk;
    assert PcOk(s, t);
  }

  lemma RefusedDooms(s: Pool, t: nat, free: seq<nat>, p: nat)
    requires Inv(s, free) && Refused(s, t, p)
    ensures Doomed(s, p)
  {
    hide PackState, Generation, StateOf, S.Inv, StageOk, HistoryOk;
    assert PcOk(s, t);
  }

  /** A step that is not the free list's room check dooms no page. */
  lemma OnlyOffersDoom(s: Pool, t: nat, a: Action, free: seq<nat>, p: nat)
    requires Inv(s, free) && Allowed(s, t, a) && S.Timely(s.freelist, t) && p < |s.words|
    requires Doomed(Step(s, t, a), p) && !OffersDropped(s, t, a, p)
    ensures Doomed(s, p)
  {
    HasShape(s, free);
    var free' := StepKeeps(s, t, a, free);
    hide Inv, Step, Allowed, OffersDropped;
    var s' := Step(s, t, a);
    if s'.stages[p] == Leasing(Lost) {
      if s.stages[p] != Leasing(Lost) {
        BecomesLost(s, t, a, p);
        RefusedDooms(s, t, free, p);
      }
    } else {
      var u := s'.stages[p].thread;
      if u == t {
        BecomesRefused(s, t, a, free, p);
        RefusedDooms(s, t, free, p);
      } else {
        NobodyJoins(s, t, a, u);
        OthersStand(s, t, a, u);
        RefusedDooms(s, u, free, p);
      }
    }
  }

  lemma OfferDecides(s: Pool, t: nat, free: seq<nat>, p: nat)
    requires Inv(s, free) && Allowed(s, t, Continue) && S.Timely(s.freelist, t) && OffersDropped(s, t, Continue, p)
    requires |s.pcs| <= S.U64 - S.U32
    ensures Doomed(Step(s, t, Continue), p) <==> CountLags(s.freelist, free)
  {
    hide PackState, Generation, StateOf, HistoryOk;
    assert PcOk(s, t);
    FreelistOk(s, t, free);
    assert |s.freelist.pcs| == |s.pcs| by { assert s.freelist.pcs.Keys == s.pcs.Keys; }
    S.RefusedExactly(s.freelist, free, t);
    hide S.Inv, CountLags;
  }

  /** A page is doomed exactly by the room check of a dropped lease while the count lags. */
  lemma DoomedExactly(s: Pool, t: nat, a: Action, free: seq<nat>, p: nat)
    requires Inv(s, free) && Allowed(s, t, a) && S.Timely(s.freelist, t) && |s.pcs| <= S.U64 - S.U32
    requires p < |s.words| && !Doomed(s, p)
    ensures Doomed(Step(s, t, a), p) <==> OffersDropped(s, t, a, p) && CountLags(s.freelist, free)
  {
    hide Inv, Step, Allowed, Doomed, CountLags;
    if OffersDropped(s, t, a, p) {
      OfferDecides(s, t, free, p);
    } else if Doomed(Step(s, t, a), p) {
      OnlyOffersDoom(s, t, a, free, p);
      assert false;
    }
  }

  // ---- Whole runs ---------------------------------------------------------------------------------------

  /** Steps of thread `t` among the first `j` from step `i` on. */
  function OwnSteps(sched: seq<(nat, Action)>, i: nat, j: nat, t: nat): nat
    requires i <= j <= |sched|
    decreases j
  {
    if i == j then 0 else OwnSteps(sched, i, j - 1, t) + (if sched[j - 1].0 == t then 1 else 0)
  }

  /**
   * A doomed page is doomed for the rest of the run, and after at most three more steps of its thread it is attached
   * with no lease object, whatever the other threads do meanwhile.
   */
  lemma {:induction false} DoomedForever(states: seq<Pool>, sched: seq<(nat, Action)>, free: seq<nat>, i: nat, j: nat,
                                         p: nat)
    requires IsRun(states, sched) && Inv(states[0], free) && i <= j <= |sched| && Doomed(states[i], p)
    ensures Doomed(states[j], p)
    ensures p < |states[i].words| && p < |states[j].words|
            && Generation(states[j].words[p]) == Generation(states[i].words[p])
    ensures ToGo(states[j], p) > 0 ==> states[i].stages[p].Released? && states[j].stages[p] == states[i].stages[p]
    ensures states[i].stages[p].Released? ==>
              var own := OwnSteps(sched, i, j, states[i].stages[p].thread);
              ToGo(states[j], p) == if own < ToGo(states[i], p) then ToGo(states[i], p) - own else 0
    decreases j
  {
    hide Inv, Step, Allowed, Generation;
    var here := Reaches(states, sched, free, i);
    HasShape(states[i], here);
    if i < j {
      DoomedForever(states, sched, free, i, j - 1, p);
      var before := Reaches(states, sched, free, j - 1);
      DoomedStays(states[j - 1], sched[j - 1].0, sched[j - 1].1, before, p);
      HasShape(states[j - 1], before);
    }
  }

  /** The lease a step creates is of a page nobody held. */
  lemma LeasesPopped(states: seq<Pool>, sched: seq<(nat, Action)>, free: seq<nat>, k: nat, p: nat, g: nat)
    requires IsRun(states, sched) && Leases(states, sched, k, p, g) && Inv(states[k], free)
    ensures p < |states[k].stages| && states[k].stages[p] == Popped(sched[k].0)
  {
    hide PackState, Generation, StateOf, S.Inv, StageOk, HistoryOk;
    assert PcOk(states[k], sched[k].0);
  }

  lemma ReportedIsOver(s: Pool, free: seq<nat>, t: nat, d: Desc)
    requires Inv(s, free) && t in s.pcs && s.pcs[t] == Done(ReleaseOk(d))
    ensures Over(s, d.page, d.generation)
  {
    hide PackState, Generation, StateOf, S.Inv, StageOk;
    assert PcOk(s, t);
  }

  /** A doomed page is never leased again, never back on the free list, and its lease is never reported released. */
  lemma NeverBack(states: seq<Pool>, sched: seq<(nat, Action)>, free: seq<nat>, i: nat, k: nat, p: nat)
    requires IsRun(states, sched) && Inv(states[0], free) && i <= k <= |sched| && Doomed(states[i], p)
    ensures forall g :: !Leases(states, sched, k, p, g)
    ensures p < |states[k].stages| && !states[k].stages[p].OnFreeList? && p < |states[i].words|
    ensures forall d :: ReleasesOk(states, sched, k, d) && d.page == p ==>
              d.generation != Generation(states[i].words[p])
  {
    hide Inv, Step, Allowed, Generation, Leases;
    DoomedForever(states, sched, free, i, k, p);
    var there := Reaches(states, sched, free, k);
    forall g ensures !Leases(states, sched, k, p, g) {
      if Leases(states, sched, k, p, g) { LeasesPopped(states, sched, there, k, p, g); }
    }
    forall d | ReleasesOk(states, sched, k, d) && d.page == p ensures d.generation != Generation(states[i].words[p]) {
      DoomedForever(states, sched, free, i, k + 1, p);
      var after := Reaches(states, sched, free, k + 1);
      ReportedIsOver(states[k + 1], after, sched[k].0, d);
    }
  }

  /** Anybody who later asks to release the lost lease is told that it is still attached. */
  lemma LostIsRefused(s: Pool, t: nat, free: seq<nat>, p: nat, d: Desc)
    requires Inv(s, free) && t in s.pcs && p < |s.words| && s.stages[p] == Leasing(Lost)
    requires d == Desc(s.id, p, Generation(s.words[p])) && s.pcs[t] == ReleaseLoop(d, Detached)
    ensures Allowed(s, t, Continue) && Step(s, t, Continue).pcs[t] == Done(ReleaseErr(d, LeaseStillAttached))
  {
    hide S.Inv, HistoryOk;
    assert StageOk(s, p);
    UnpackState(Generation(s.words[p]), Attached);
    hide PackState, Generation, StateOf;
  }

  /** Step `k` of the run is the room check of a dropped lease of page `p`, made while the count lags. */
  ghost predicate LosesAt(states: seq<Pool>, sched: seq<(nat, Action)>, k: nat, p: nat) {
    && k < |sched| && k < |states| && OffersDropped(states[k], sched[k].0, sched[k].1, p)
    && exists free :: Inv(states[k], free) && CountLags(states[k].freelist, free)
  }

  lemma {:induction false} NobodyJoined(states: seq<Pool>, sched: seq<(nat, Action)>, k: nat)
    requires IsRun(states, sched) && k <= |sched|
    ensures states[k].pcs.Keys <= states[0].pcs.Keys && |states[k].pcs| <= |states[0].pcs|
  {
    hide Step, Allowed;
    if k > 0 {
      NobodyJoined(states, sched, k - 1);
      forall u | u in states[k].pcs ensures u in states[k - 1].pcs {
        NobodyJoins(states[k - 1], sched[k - 1].0, sched[k - 1].1, u);
      }
    }
    SubsetSize(states[k].pcs.Keys, states[0].pcs.Keys);
    assert |states[k].pcs| == |states[k].pcs.Keys| && |states[0].pcs| == |states[0].pcs.Keys|;
  }

  /** Over any run a page is lost exactly if some dropped lease of it met the room check while the count lagged. */
  lemma {:induction false} LostExactly(states: seq<Pool>, sched: seq<(nat, Action)>, free: seq<nat>, j: nat, p: nat)
    requires IsRun(states, sched) && Inv(states[0], free) && |states[0].pcs| <= S.U64 - S.U32
    requires j <= |sched| && p < |states[0].words| && !Doomed(states[0], p)
    ensures p < |states[j].words|
    ensures Doomed(states[j], p) <==> exists k: nat :: k < j && LosesAt(states, sched, k, p)
  {
    hide Inv, Step, Allowed, Doomed, OffersDropped, CountLags;
    if j > 0 {
      LostExactly(states, sched, free, j - 1, p);
      var before := Reaches(states, sched, free, j - 1);
      NobodyJoined(states, sched, j - 1);
      LostOneMore(states, sched, before, j - 1, p);
    }
  }

  lemma LostOneMore(states: seq<Pool>, sched: seq<(nat, Action)>, free: seq<nat>, k: nat, p: nat)
    requires IsRun(states, sched) && k < |sched| && Inv(states[k], free) && |states[k].pcs| <= S.U64 - S.U32
             && p < |states[k].words|
    ensures p < |states[k + 1].words|
    ensures Doomed(states[k + 1], p) <==> Doomed(states[k], p) || LosesAt(states, sched, k, p)
  {
    hide Inv, Step, Allowed, Doomed, OffersDropped, CountLags;
    var s, t, a := states[k], sched[k].0, sched[k].1;
    var after := StepKeeps(s, t, a, free);
    KeepsPages(s, t, a);
    if Doomed(s, p) {
      DoomedStays(s, t, a, free, p);
    } else {
      DoomedExactly(s, t, a, free, p);
      if LosesAt(states, sched, k, p) {
        var seen :| Inv(states[k], seen) && CountLags(states[k].freelist, seen);
        DoomedExactly(s, t, a, seen, p);
      }
    }
  }

  lemma KeepsPages(s: Pool, t: nat, a: Action)
    requires Allowed(s, t, a)
    ensures |Step(s, t, a).words| == |s.words|
  {
    hide PackState, Generation, StateOf, ReleaseCheck, S.Step, S.Enabled, S.Effect;
  }

  // ---- A run that loses a page ----------------------------------------------------------------------------

  /** One page, two threads. */
  function Pair(f: S.State, word: nat, a: Pc, b: Pc, leases: set<(nat, nat)>, stage: Stage, leased: set<(nat, nat)>,
                released: map<(nat, nat), nat>): Pool
  {
    Pool(0, f, [word], map[0 := a, 1 := b], leases, [stage], leased, released, {}, false)
  }

  /** The pool of one page that `init_in_place` leaves, before any call. */
  function Fresh(): Pool {
    Pair(S.Two(S.PackHead(0, 0), S.NONE, 1, S.Idle, S.Idle, 0, S.Stacked),
         PackState(0, Free), Ready, Ready, {}, OnFreeList, {}, map[])
  }

  lemma FreshInv()
    ensures Inv(Fresh(), [0]) && !Doomed(Fresh(), 0)
  {
    S.InitialInv();
    UnpackState(0, Free);
    hide PackState, StateOf, Generation, S.Inv;
    assert StageOk(Fresh(), 0);
  }

  lemma Extend(states: seq<Pool>, sched: seq<(nat, Action)>, t: nat, a: Action, reached: Pool)
    returns (states': seq<Pool>, sched': seq<(nat, Action)>)
    requires |states| == |sched| + 1 && IsRun(states, sched)
    requires Allowed(states[|sched|], t, a) && S.Timely(states[|sched|].freelist, t)
             && Step(states[|sched|], t, a) == reached
    ensures |states'| == |sched'| + 1 && IsRun(states', sched') && states'[0] == states[0]
            && states'[|sched'|] == reached
  {
    hide Step, Allowed;
    states', sched' := states + [reached], sched + [(t, a)];
  }

  function AfterFirstLoads(): Pool {
    Pair(S.Two(S.PackHead(0, 0), S.NONE, 1, S.PopLoaded(S.PackHead(0, 0), 0), S.Idle, 0, S.Stacked),
         PackState(0, Free), Allocating, Ready, {}, OnFreeList, {}, map[])
  }

  function AfterFirstPops(): Pool {
    Pair(S.Two(S.PackHead(S.NONE, 1), S.NONE, 1, S.PopWon(0), S.Idle, 1, S.Popped(0)),
         PackState(0, Free), Allocating, Ready, {}, Popped(0), {}, map[])
  }

  function AfterFirstTakes(): Pool {
    Pair(S.Two(S.PackHead(S.NONE, 1), S.NONE, 0, S.Idle, S.Idle, 1, S.Out),
         PackState(0, Free), AcquireLoop(0), Ready, {}, Popped(0), {}, map[])
  }

  function AfterFirstLeases(): Pool {
    Pair(S.Two(S.PackHead(S.NONE, 1), S.NONE, 0, S.Idle, S.Idle, 1, S.Out),
         PackState(1, Attached), Ready, Ready, {(0, 1)}, Leasing(Held), {(0, 1)}, map[])
  }

  function AfterFirstDrops(): Pool {
    Pair(S.Two(S.PackHead(S.NONE, 1), S.NONE, 0, S.PushStart(0), S.Idle, 1, S.Pushing(0)),
         PackState(1, Free), Freeing(Desc(0, 0, 1), Attached), Ready, {}, Released(0), {(0, 1)}, map[])
  }

  function AfterFirstPushes(): Pool {
    Pair(S.Two(S.PackHead(S.NONE, 1), S.NONE, 0, S.PushLoaded(0, S.PackHead(S.NONE, 1), 1), S.Idle, 1, S.Pushing(0)),
         PackState(1, Free), Freeing(Desc(0, 0, 1), Attached), Ready, {}, Released(0), {(0, 1)}, map[])
  }

  function AfterFirstLinks(): Pool {
    Pair(S.Two(S.PackHead(0, 2), S.NONE, 0, S.PushWon, S.Idle, 2, S.Stacked),
         PackState(1, Free), Freeing(Desc(0, 0, 1), Attached), Ready, {}, OnFreeList, {(0, 1)}, map[(0, 1) := 0])
  }

  function AfterSecondLoads(): Pool {
    Pair(S.Two(S.PackHead(0, 2), S.NONE, 0, S.PushWon, S.PopLoaded(S.PackHead(0, 2), 2), 2, S.Stacked),
         PackState(1, Free), Freeing(Desc(0, 0, 1), Attached), Allocating, {}, OnFreeList, {(0, 1)}, map[(0, 1) := 0])
  }

  function AfterSecondPops(): Pool {
    Pair(S.Two(S.PackHead(S.NONE, 3), S.NONE, 0, S.PushWon, S.PopWon(0), 3, S.Popped(1)),
         PackState(1, Free), Freeing(Desc(0, 0, 1), Attached), Allocating, {}, Popped(1), {(0, 1)}, map[(0, 1) := 0])
  }

  function AfterSecondTakes(): Pool {
    Pair(S.Two(S.PackHead(S.NONE, 3), S.NONE, S.U64 - 1, S.PushWon, S.Idle, 3, S.Out),
         PackState(1, Free), Freeing(Desc(0, 0, 1), Attached), AcquireLoop(0), {}, Popped(1), {(0, 1)},
             map[(0, 1) := 0])
  }

  function AfterSecondLeases(): Pool {
    Pair(S.Two(S.PackHead(S.NONE, 3), S.NONE, S.U64 - 1, S.PushWon, S.Idle, 3, S.Out),
         PackState(2, Attached), Freeing(Desc(0, 0, 1), Attached), Ready, {(0, 2)}, Leasing(Held), {(0, 1), (0, 2)},
             map[(0, 1) := 0])
  }

  function AfterSecondDrops(): Pool {
    Pair(S.Two(S.PackHead(S.NONE, 3), S.NONE, S.U64 - 1, S.PushWon, S.PushStart(0), 3, S.Pushing(1)),
         PackState(2, Free), Freeing(Desc(0, 0, 1), Attached), Freeing(Desc(0, 0, 2), Attached), {}, Released(1),
             {(0, 1), (0, 2)}, map[(0, 1) := 0])
  }

  function AfterSecondFails(): Pool {
    Pair(S.Two(S.PackHead(S.NONE, 3), S.NONE, S.U64 - 1, S.PushWon, S.Idle, 3, S.Out),
         PackState(2, Free), Freeing(Desc(0, 0, 1), Attached), RevertLoop(Desc(0, 0, 2), Attached), {}, Released(1),
             {(0, 1), (0, 2)}, map[(0, 1) := 0])
  }

  function AfterSecondRefused(): Pool {
    Pair(S.Two(S.PackHead(S.NONE, 3), S.NONE, S.U64 - 1, S.PushWon, S.Idle, 3, S.Out),
         PackState(2, Attached), Freeing(Desc(0, 0, 1), Attached), Done(ReleaseErr(Desc(0, 0, 2), CorruptFreeList)),
             {}, Leasing(Lost), {(0, 1), (0, 2)}, map[(0, 1) := 0])
  }

  /** Thread 0 looks for a page. */
  lemma FirstLoads(from: seq<Pool>, turns: seq<(nat, Action)>) returns (states: seq<Pool>, sched: seq<(nat, Action)>)
    requires |from| == |turns| + 1 && IsRun(from, turns) && from[|turns|] == Fresh()
    ensures |states| == |sched| + 1 && IsRun(states, sched) && states[0] == from[0]
            && states[|sched|] == AfterFirstLoads()
  {
    hide IsRun;
    S.UnpackHead(0, 0);
    hide PackState, StateOf, Generation, S.PackHead, S.HeadIdx, S.HeadTag;
    states, sched := from, turns;
    states, sched := Extend(states, sched, 0, CallAcquire,
      Pair(S.Two(S.PackHead(0, 0), S.NONE, 1, S.PopLoop, S.Idle, 0, S.Stacked),
           PackState(0, Free), Allocating, Ready, {}, OnFreeList, {}, map[]));
    states, sched := Extend(states, sched, 0, Continue,
      Pair(S.Two(S.PackHead(0, 0), S.NONE, 1, S.PopLoaded(S.PackHead(0, 0), 0), S.Idle, 0, S.Stacked),
           PackState(0, Free), Allocating, Ready, {}, OnFreeList, {}, map[]));
  }

  /** Thread 0 takes the page off the free list. */
  lemma FirstPops(from: seq<Pool>, turns: seq<(nat, Action)>) returns (states: seq<Pool>, sched: seq<(nat, Action)>)
    requires |from| == |turns| + 1 && IsRun(from, turns) && from[|turns|] == AfterFirstLoads()
    ensures |states| == |sched| + 1 && IsRun(states, sched) && states[0] == from[0]
            && states[|sched|] == AfterFirstPops()
  {
    hide IsRun;
    S.UnpackHead(0, 0);
    hide PackState, StateOf, Generation, S.PackHead, S.HeadIdx, S.HeadTag;
    states, sched := from, turns;
    states, sched := Extend(states, sched, 0, Continue,
      Pair(S.Two(S.PackHead(0, 0), S.NONE, 1, S.PopRead(S.PackHead(0, 0), S.NONE, 0), S.Idle, 0, S.Stacked),
           PackState(0, Free), Allocating, Ready, {}, OnFreeList, {}, map[]));
    states, sched := Extend(states, sched, 0, Continue,
      Pair(S.Two(S.PackHead(S.NONE, 1), S.NONE, 1, S.PopWon(0), S.Idle, 1, S.Popped(0)),
           PackState(0, Free), Allocating, Ready, {}, Popped(0), {}, map[]));
  }

  /** Thread 0 counts the pop and has the page. */
  lemma FirstTakes(from: seq<Pool>, turns: seq<(nat, Action)>) returns (states: seq<Pool>, sched: seq<(nat, Action)>)
    requires |from| == |turns| + 1 && IsRun(from, turns) && from[|turns|] == AfterFirstPops()
    ensures |states| == |sched| + 1 && IsRun(states, sched) && states[0] == from[0]
            && states[|sched|] == AfterFirstTakes()
  {
    hide IsRun;
    hide PackState, StateOf, Generation;
    states, sched := from, turns;
    states, sched := Extend(states, sched, 0, Continue,
      Pair(S.Two(S.PackHead(S.NONE, 1), S.NONE, 0, S.Returned(S.Took(0)), S.Idle, 1, S.Out),
           PackState(0, Free), Allocating, Ready, {}, Popped(0), {}, map[]));
    states, sched := Extend(states, sched, 0, Continue,
      Pair(S.Two(S.PackHead(S.NONE, 1), S.NONE, 0, S.Idle, S.Idle, 1, S.Out),
           PackState(0, Free), AcquireLoop(0), Ready, {}, Popped(0), {}, map[]));
  }

  /** Thread 0 leases the page as generation 1. */
  lemma FirstLeases(from: seq<Pool>, turns: seq<(nat, Action)>) returns (states: seq<Pool>, sched: seq<(nat, Action)>)
    requires |from| == |turns| + 1 && IsRun(from, turns) && from[|turns|] == AfterFirstTakes()
    ensures |states| == |sched| + 1 && IsRun(states, sched) && states[0] == from[0]
            && states[|sched|] == AfterFirstLeases()
  {
    hide IsRun;
    UnpackState(0, Free);
    hide PackState, StateOf, Generation;
    states, sched := from, turns;
    states, sched := Extend(states, sched, 0, Continue,
      Pair(S.Two(S.PackHead(S.NONE, 1), S.NONE, 0, S.Idle, S.Idle, 1, S.Out),
           PackState(0, Free), AcquireLoaded(0, PackState(0, Free)), Ready, {}, Popped(0), {}, map[]));
    states, sched := Extend(states, sched, 0, Continue,
      Pair(S.Two(S.PackHead(S.NONE, 1), S.NONE, 0, S.Idle, S.Idle, 1, S.Out),
           PackState(1, Attached), Done(Leased(0, 1)), Ready, {(0, 1)}, Leasing(Held), {(0, 1)}, map[]));
    states, sched := Extend(states, sched, 0, Collect,
      Pair(S.Two(S.PackHead(S.NONE, 1), S.NONE, 0, S.Idle, S.Idle, 1, S.Out),
           PackState(1, Attached), Ready, Ready, {(0, 1)}, Leasing(Held), {(0, 1)}, map[]));
  }

  /** Thread 0 drops its lease up to the push. */
  lemma FirstDrops(from: seq<Pool>, turns: seq<(nat, Action)>) returns (states: seq<Pool>, sched: seq<(nat, Action)>)
    requires |from| == |turns| + 1 && IsRun(from, turns) && from[|turns|] == AfterFirstLeases()
    ensures |states| == |sched| + 1 && IsRun(states, sched) && states[0] == from[0]
            && states[|sched|] == AfterFirstDrops()
  {
    hide IsRun;
    UnpackState(1, Attached);
    hide PackState, StateOf, Generation;
    states, sched := from, turns;
    states, sched := Extend(states, sched, 0, CallDrop(0, 1),
      Pair(S.Two(S.PackHead(S.NONE, 1), S.NONE, 0, S.Idle, S.Idle, 1, S.Out),
           PackState(1, Attached), ReleaseLoop(Desc(0, 0, 1), Attached), Ready, {}, Leasing(Used(0)), {(0, 1)}, map[]));
    states, sched := Extend(states, sched, 0, Continue,
      Pair(S.Two(S.PackHead(S.NONE, 1), S.NONE, 0, S.Idle, S.Idle, 1, S.Out),
           PackState(1, Attached), ReleaseLoaded(Desc(0, 0, 1), Attached, PackState(1, Attached)), Ready, {},
               Leasing(Used(0)), {(0, 1)}, map[]));
    states, sched := Extend(states, sched, 0, Continue,
      Pair(S.Two(S.PackHead(S.NONE, 1), S.NONE, 0, S.PushStart(0), S.Idle, 1, S.Pushing(0)),
           PackState(1, Free), Freeing(Desc(0, 0, 1), Attached), Ready, {}, Released(0), {(0, 1)}, map[]));
  }

  /** Thread 0 passes the room check and loads the head. */
  lemma FirstPushes(from: seq<Pool>, turns: seq<(nat, Action)>) returns (states: seq<Pool>, sched: seq<(nat, Action)>)
    requires |from| == |turns| + 1 && IsRun(from, turns) && from[|turns|] == AfterFirstDrops()
    ensures |states| == |sched| + 1 && IsRun(states, sched) && states[0] == from[0]
            && states[|sched|] == AfterFirstPushes()
  {
    hide IsRun;
    S.UnpackHead(S.NONE, 1);
    hide PackState, StateOf, Generation, S.PackHead, S.HeadIdx, S.HeadTag;
    states, sched := from, turns;
    states, sched := Extend(states, sched, 0, Continue,
      Pair(S.Two(S.PackHead(S.NONE, 1), S.NONE, 0, S.PushLoop(0), S.Idle, 1, S.Pushing(0)),
           PackState(1, Free), Freeing(Desc(0, 0, 1), Attached), Ready, {}, Released(0), {(0, 1)}, map[]));
    states, sched := Extend(states, sched, 0, Continue,
      Pair(S.Two(S.PackHead(S.NONE, 1), S.NONE, 0, S.PushLoaded(0, S.PackHead(S.NONE, 1), 1), S.Idle, 1, S.Pushing(0)),
           PackState(1, Free), Freeing(Desc(0, 0, 1), Attached), Ready, {}, Released(0), {(0, 1)}, map[]));
  }

  /** Thread 0 links the page and does not yet count it. */
  lemma FirstLinks(from: seq<Pool>, turns: seq<(nat, Action)>) returns (states: seq<Pool>, sched: seq<(nat, Action)>)
    requires |from| == |turns| + 1 && IsRun(from, turns) && from[|turns|] == AfterFirstPushes()
    ensures |states| == |sched| + 1 && IsRun(states, sched) && states[0] == from[0]
            && states[|sched|] == AfterFirstLinks()
  {
    hide IsRun;
    S.UnpackHead(S.NONE, 1);
    UnpackState(1, Free);
    hide PackState, StateOf, Generation, S.PackHead, S.HeadIdx, S.HeadTag;
    states, sched := from, turns;
    states, sched := Extend(states, sched, 0, Continue,
      Pair(S.Two(S.PackHead(S.NONE, 1), S.NONE, 0, S.PushStored(0, S.PackHead(S.NONE, 1), 1), S.Idle, 1, S.Pushing(0)),
           PackState(1, Free), Freeing(Desc(0, 0, 1), Attached), Ready, {}, Released(0), {(0, 1)}, map[]));
    states, sched := Extend(states, sched, 0, Continue,
      Pair(S.Two(S.PackHead(0, 2), S.NONE, 0, S.PushWon, S.Idle, 2, S.Stacked),
           PackState(1, Free), Freeing(Desc(0, 0, 1), Attached), Ready, {}, OnFreeList, {(0, 1)}, map[(0, 1) := 0]));
  }

  /** Thread 1 looks for a page. */
  lemma SecondLoads(from: seq<Pool>, turns: seq<(nat, Action)>) returns (states: seq<Pool>, sched: seq<(nat, Action)>)
    requires |from| == |turns| + 1 && IsRun(from, turns) && from[|turns|] == AfterFirstLinks()
    ensures |states| == |sched| + 1 && IsRun(states, sched) && states[0] == from[0]
            && states[|sched|] == AfterSecondLoads()
  {
    hide IsRun;
    S.UnpackHead(0, 2);
    hide PackState, StateOf, Generation, S.PackHead, S.HeadIdx, S.HeadTag;
    states, sched := from, turns;
    states, sched := Extend(states, sched, 1, CallAcquire,
      Pair(S.Two(S.PackHead(0, 2), S.NONE, 0, S.PushWon, S.PopLoop, 2, S.Stacked),
           PackState(1, Free), Freeing(Desc(0, 0, 1), Attached), Allocating, {}, OnFreeList, {(0, 1)},
               map[(0, 1) := 0]));
    states, sched := Extend(states, sched, 1, Continue,
      Pair(S.Two(S.PackHead(0, 2), S.NONE, 0, S.PushWon, S.PopLoaded(S.PackHead(0, 2), 2), 2, S.Stacked),
           PackState(1, Free), Freeing(Desc(0, 0, 1), Attached), Allocating, {}, OnFreeList, {(0, 1)},
               map[(0, 1) := 0]));
  }

  /** Thread 1 takes the page off the free list. */
  lemma SecondPops(from: seq<Pool>, turns: seq<(nat, Action)>) returns (states: seq<Pool>, sched: seq<(nat, Action)>)
    requires |from| == |turns| + 1 && IsRun(from, turns) && from[|turns|] == AfterSecondLoads()
    ensures |states| == |sched| + 1 && IsRun(states, sched) && states[0] == from[0]
            && states[|sched|] == AfterSecondPops()
  {
    hide IsRun;
    S.UnpackHead(0, 2);
    hide PackState, StateOf, Generation, S.PackHead, S.HeadIdx, S.HeadTag;
    states, sched := from, turns;
    states, sched := Extend(states, sched, 1, Continue,
      Pair(S.Two(S.PackHead(0, 2), S.NONE, 0, S.PushWon, S.PopRead(S.PackHead(0, 2), S.NONE, 2), 2, S.Stacked),
           PackState(1, Free), Freeing(Desc(0, 0, 1), Attached), Allocating, {}, OnFreeList, {(0, 1)},
               map[(0, 1) := 0]));
    states, sched := Extend(states, sched, 1, Continue,
      Pair(S.Two(S.PackHead(S.NONE, 3), S.NONE, 0, S.PushWon, S.PopWon(0), 3, S.Popped(1)),
           PackState(1, Free), Freeing(Desc(0, 0, 1), Attached), Allocating, {}, Popped(1), {(0, 1)},
               map[(0, 1) := 0]));
  }

  /** Thread 1 uncounts the page before it was counted. */
  lemma SecondTakes(from: seq<Pool>, turns: seq<(nat, Action)>) returns (states: seq<Pool>, sched: seq<(nat, Action)>)
    requires |from| == |turns| + 1 && IsRun(from, turns) && from[|turns|] == AfterSecondPops()
    ensures |states| == |sched| + 1 && IsRun(states, sched) && states[0] == from[0]
            && states[|sched|] == AfterSecondTakes()
  {
    hide IsRun;
    hide PackState, StateOf, Generation;
    states, sched := from, turns;
    states, sched := Extend(states, sched, 1, Continue,
      Pair(S.Two(S.PackHead(S.NONE, 3), S.NONE, S.U64 - 1, S.PushWon, S.Returned(S.Took(0)), 3, S.Out),
           PackState(1, Free), Freeing(Desc(0, 0, 1), Attached), Allocating, {}, Popped(1), {(0, 1)},
               map[(0, 1) := 0]));
    states, sched := Extend(states, sched, 1, Continue,
      Pair(S.Two(S.PackHead(S.NONE, 3), S.NONE, S.U64 - 1, S.PushWon, S.Idle, 3, S.Out),
           PackState(1, Free), Freeing(Desc(0, 0, 1), Attached), AcquireLoop(0), {}, Popped(1), {(0, 1)},
               map[(0, 1) := 0]));
  }

  /** Thread 1 leases the page as generation 2. */
  lemma SecondLeases(from: seq<Pool>, turns: seq<(nat, Action)>) returns (states: seq<Pool>, sched: seq<(nat, Action)>)
    requires |from| == |turns| + 1 && IsRun(from, turns) && from[|turns|] == AfterSecondTakes()
    ensures |states| == |sched| + 1 && IsRun(states, sched) && states[0] == from[0]
            && states[|sched|] == AfterSecondLeases()
  {
    hide IsRun;
    UnpackState(1, Free);
    hide PackState, StateOf, Generation;
    states, sched := from, turns;
    states, sched := Extend(states, sched, 1, Continue,
      Pair(S.Two(S.PackHead(S.NONE, 3), S.NONE, S.U64 - 1, S.PushWon, S.Idle, 3, S.Out),
           PackState(1, Free), Freeing(Desc(0, 0, 1), Attached), AcquireLoaded(0, PackState(1, Free)), {}, Popped(1),
               {(0, 1)}, map[(0, 1) := 0]));
    states, sched := Extend(states, sched, 1, Continue,
      Pair(S.Two(S.PackHead(S.NONE, 3), S.NONE, S.U64 - 1, S.PushWon, S.Idle, 3, S.Out),
           PackState(2, Attached), Freeing(Desc(0, 0, 1), Attached), Done(Leased(0, 2)), {(0, 2)}, Leasing(Held),
               {(0, 1), (0, 2)}, map[(0, 1) := 0]));
    states, sched := Extend(states, sched, 1, Collect,
      Pair(S.Two(S.PackHead(S.NONE, 3), S.NONE, S.U64 - 1, S.PushWon, S.Idle, 3, S.Out),
           PackState(2, Attached), Freeing(Desc(0, 0, 1), Attached), Ready, {(0, 2)}, Leasing(Held), {(0, 1), (0, 2)},
               map[(0, 1) := 0]));
  }

  /** Thread 1 drops its lease up to the push. */
  lemma SecondDrops(from: seq<Pool>, turns: seq<(nat, Action)>) returns (states: seq<Pool>, sched: seq<(nat, Action)>)
    requires |from| == |turns| + 1 && IsRun(from, turns) && from[|turns|] == AfterSecondLeases()
    ensures |states| == |sched| + 1 && IsRun(states, sched) && states[0] == from[0]
            && states[|sched|] == AfterSecondDrops()
  {
    hide IsRun;
    UnpackState(2, Attached);
    hide PackState, StateOf, Generation;
    states, sched := from, turns;
    states, sched := Extend(states, sched, 1, CallDrop(0, 2),
      Pair(S.Two(S.PackHead(S.NONE, 3), S.NONE, S.U64 - 1, S.PushWon, S.Idle, 3, S.Out),
           PackState(2, Attached), Freeing(Desc(0, 0, 1), Attached), ReleaseLoop(Desc(0, 0, 2), Attached), {},
               Leasing(Used(1)), {(0, 1), (0, 2)}, map[(0, 1) := 0]));
    states, sched := Extend(states, sched, 1, Continue,
      Pair(S.Two(S.PackHead(S.NONE, 3), S.NONE, S.U64 - 1, S.PushWon, S.Idle, 3, S.Out),
           PackState(2, Attached), Freeing(Desc(0, 0, 1), Attached),
               ReleaseLoaded(Desc(0, 0, 2), Attached, PackState(2, Attached)), {}, Leasing(Used(1)), {(0, 1), (0, 2)},
                   map[(0, 1) := 0]));
    states, sched := Extend(states, sched, 1, Continue,
      Pair(S.Two(S.PackHead(S.NONE, 3), S.NONE, S.U64 - 1, S.PushWon, S.PushStart(0), 3, S.Pushing(1)),
           PackState(2, Free), Freeing(Desc(0, 0, 1), Attached), Freeing(Desc(0, 0, 2), Attached), {}, Released(1),
               {(0, 1), (0, 2)}, map[(0, 1) := 0]));
  }

  /** The room check refuses the page. */
  lemma SecondFails(from: seq<Pool>, turns: seq<(nat, Action)>) returns (states: seq<Pool>, sched: seq<(nat, Action)>)
    requires |from| == |turns| + 1 && IsRun(from, turns) && from[|turns|] == AfterSecondDrops()
    ensures |states| == |sched| + 1 && IsRun(states, sched) && states[0] == from[0]
            && states[|sched|] == AfterSecondFails()
  {
    hide IsRun;
    UnpackState(2, Free);
    hide PackState, StateOf, Generation;
    states, sched := from, turns;
    states, sched := Extend(states, sched, 1, Continue,
      Pair(S.Two(S.PackHead(S.NONE, 3), S.NONE, S.U64 - 1, S.PushWon, S.Returned(S.Full), 3, S.Out),
           PackState(2, Free), Freeing(Desc(0, 0, 1), Attached), Freeing(Desc(0, 0, 2), Attached), {}, Released(1),
               {(0, 1), (0, 2)}, map[(0, 1) := 0]));
    states, sched := Extend(states, sched, 1, Continue,
      Pair(S.Two(S.PackHead(S.NONE, 3), S.NONE, S.U64 - 1, S.PushWon, S.Idle, 3, S.Out),
           PackState(2, Free), Freeing(Desc(0, 0, 1), Attached), RevertLoop(Desc(0, 0, 2), Attached), {}, Released(1),
               {(0, 1), (0, 2)}, map[(0, 1) := 0]));
  }

  /** The revert leaves the page attached. */
  lemma SecondRefused(from: seq<Pool>, turns: seq<(nat, Action)>) returns (states: seq<Pool>, sched: seq<(nat, Action)>)
    requires |from| == |turns| + 1 && IsRun(from, turns) && from[|turns|] == AfterSecondFails()
    ensures |states| == |sched| + 1 && IsRun(states, sched) && states[0] == from[0]
            && states[|sched|] == AfterSecondRefused()
  {
    hide IsRun;
    UnpackState(2, Free);
    hide PackState, StateOf, Generation;
    states, sched := from, turns;
    states, sched := Extend(states, sched, 1, Continue,
      Pair(S.Two(S.PackHead(S.NONE, 3), S.NONE, S.U64 - 1, S.PushWon, S.Idle, 3, S.Out),
           PackState(2, Free), Freeing(Desc(0, 0, 1), Attached),
               RevertLoaded(Desc(0, 0, 2), Attached, PackState(2, Free)), {}, Released(1), {(0, 1), (0, 2)},
                   map[(0, 1) := 0]));
    states, sched := Extend(states, sched, 1, Continue,
      Pair(S.Two(S.PackHead(S.NONE, 3), S.NONE, S.U64 - 1, S.PushWon, S.Idle, 3, S.Out),
           PackState(2, Attached), Freeing(Desc(0, 0, 1), Attached), Done(ReleaseErr(Desc(0, 0, 2), CorruptFreeList)),
               {}, Leasing(Lost), {(0, 1), (0, 2)}, map[(0, 1) := 0]));
  }

  /** A run of the pool in which a dropped lease leaves its page attached with nobody holding it. */
  lemma PageLost() returns (states: seq<Pool>, sched: seq<(nat, Action)>)
    ensures IsRun(states, sched) && Inv(states[0], [0]) && !Doomed(states[0], 0)
    ensures states[|sched|].stages == [Leasing(Lost)] && states[|sched|].leases == {}
  {
    hide IsRun, Inv;
    FreshInv();
    states, sched := StartsAt(Fresh());
    states, sched := FirstLoads(states, sched);
    states, sched := FirstPops(states, sched);
    states, sched := FirstTakes(states, sched);
    states, sched := FirstLeases(states, sched);
    states, sched := FirstDrops(states, sched);
    states, sched := FirstPushes(states, sched);
    states, sched := FirstLinks(states, sched);
    states, sched := SecondLoads(states, sched);
    states, sched := SecondPops(states, sched);
    states, sched := SecondTakes(states, sched);
    states, sched := SecondLeases(states, sched);
    states, sched := SecondDrops(states, sched);
    states, sched := SecondFails(states, sched);
    states, sched := SecondRefused(states, sched);
  }

  lemma StartsAt(s: Pool) returns (states: seq<Pool>, sched: seq<(nat, Action)>)
    ensures |states| == |sched| + 1 && IsRun(states, sched) && states[0] == states[|sched|] == s
  {
    states, sched := [s], [];
  }
}
