/** The tagged lock-free stack of page indices, as atomic steps of any number of threads. */
module TreiberStack {
  import opened Common
  import opened Bits

  const U32: nat := 0x1_0000_0000
  const U64: nat := 0x1_0000_0000_0000_0000
  const NONE: nat := 0xFFFF_FFFF

  // ---- The packed head word --------------------------------------------------

  function PackHead(idx: nat, tag: nat): nat { tag * U32 + idx }

  function HeadIdx(word: nat): (idx: nat) ensures idx < U32 { word % U32 }

  function HeadTag(word: nat): nat { word / U32 }

  lemma UnpackHead(idx: nat, tag: nat)
    requires idx < U32
    ensures HeadIdx(PackHead(idx, tag)) == idx && HeadTag(PackHead(idx, tag)) == tag
  {
  }

  /** The arithmetic above is the shift-and-or and the mask-and-shift of 64-bit words. */
  lemma PackHeadIsBitwise(idx: nat, tag: nat)
    requires idx < U32 && tag < U32
    ensures PackHead(idx, tag) == Or(tag * Pow2(32), idx) < U64
    ensures And(PackHead(idx, tag), U32 - 1) == idx
  {
    Pow2Of32();
    OrShift(tag, idx, 32);
    AndLowMask(PackHead(idx, tag), 32);
    UnpackHead(idx, tag);
  }

  // ---- State -------------------------------------------------------------------

  /** Who is responsible for an index. */
  datatype Place =
    | Stacked            // reachable from the head
    | Popped(thread: nat)    // won by a thread whose `allocate` has not returned
    | Out                // handed to the caller
    | Pushing(thread: nat)   // given to a `release` that has not linked it

  datatype Outcome = Took(idx: nat) | Empty | Full | Pushed

  /** Program counters. `seen` records how often the head had changed at the load. */
  datatype Pc =
    | Idle
    | PopLoop
    | PopLoaded(cur: nat, seen: nat)
    | PopRead(cur: nat, following: nat, seen: nat)
    | PopWon(idx: nat)
    | PushStart(val: nat)
    | PushLoop(val: nat)
    | PushLoaded(val: nat, cur: nat, seen: nat)
    | PushStored(val: nat, cur: nat, seen: nat)
    | PushWon
    | Returned(outcome: Outcome)

  /** `head`, `next` and `len` are the shared words; `changes` and `place` only record history. */
  datatype State = State(head: nat, next: seq<nat>, len: nat, pcs: map<nat, Pc>, changes: nat, place: seq<Place>) {
    function Capacity(): nat { |next| }

    function At(t: nat, pc: Pc): State { this.(pcs := pcs[t := pc]) }
  }

  function WrapDec(len: nat): nat { if len == 0 then U64 - 1 else len - 1 }

  function WrapInc(len: nat): nat { (len + 1) % U64 }

  /** The memory accesses below stay inside the `next` array. */
  predicate InBounds(s: State, t: nat) {
    t in s.pcs && |s.place| == |s.next| &&
    var pc := s.pcs[t];
    match pc
    case PopLoaded(cur, _) => HeadIdx(cur) < |s.next|
    case PopRead(cur, _, _) => HeadIdx(cur) < |s.next|
    case PopWon(idx) => idx < |s.next|
    case PushLoop(val) => val < |s.next|
    case PushLoaded(val, _, _) => val < |s.next|
    case PushStored(val, _, _) => val < |s.next|
    case _ => true
  }

  /** One atomic access of thread `t` inside `allocate` or `release`. */
  function Advance(s: State, t: nat): State
    requires InBounds(s, t)
  {
    var pc := s.pcs[t];
    match pc
    case PopLoop =>
      s.At(t, if HeadIdx(s.head) == NONE then Returned(Empty) else PopLoaded(s.head, s.changes))
    case PopLoaded(cur, seen) => s.At(t, PopRead(cur, s.next[HeadIdx(cur)], seen))
    case PopRead(cur, following, seen) =>
      if s.head == cur then
        var idx := HeadIdx(cur);
        s.(head := PackHead(following, (HeadTag(cur) + 1) % U32), changes := s.changes + 1,
           place := s.place[idx := Popped(t)]).At(t, PopWon(idx))
      else s.At(t, PopLoop)
    case PopWon(idx) => s.(len := WrapDec(s.len), place := s.place[idx := Out]).At(t, Returned(Took(idx)))
    case PushStart(val) =>
      if val >= s.Capacity() then s.At(t, Returned(Full))
      else if s.len >= s.Capacity() then s.(place := s.place[val := Out]).At(t, Returned(Full))
      else s.At(t, PushLoop(val))
    case PushLoop(val) => s.At(t, PushLoaded(val, s.head, s.changes))
    case PushLoaded(val, cur, seen) => s.(next := s.next[val := HeadIdx(cur)]).At(t, PushStored(val, cur, seen))
    case PushStored(val, cur, seen) =>
      if s.head == cur then
        s.(head := PackHead(val, (HeadTag(cur) + 1) % U32), changes := s.changes + 1,
           place := s.place[val := Stacked]).At(t, PushWon)
      else s.At(t, PushLoop(val))
    case PushWon => s.(len := WrapInc(s.len)).At(t, Returned(Pushed))
    case Idle => s
    case Returned(_) => s
  }

  datatype Action = CallPop | CallPush(val: nat) | Access | Collect

  /** Callers only release an index that was handed out and that nobody else is releasing. */
  predicate Enabled(s: State, t: nat, a: Action) {
    && t in s.pcs && |s.place| == |s.next|
    && match a
       case CallPop => s.pcs[t].Idle?
       case CallPush(val) => s.pcs[t].Idle? && (val < |s.next| ==> s.place[val].Out?)
       case Access => !s.pcs[t].Idle? && !s.pcs[t].Returned? && InBounds(s, t)
       case Collect => s.pcs[t].Returned?
  }

  function Step(s: State, t: nat, a: Action): State
    requires Enabled(s, t, a)
  {
    match a
    case CallPop => s.At(t, PopLoop)
    case CallPush(val) =>
      (if val < |s.next| then s.(place := s.place[val := Pushing(t)]) else s).At(t, PushStart(val))
    case Access => Advance(s, t)
    case Collect => s.At(t, Idle)
  }

  // ---- Invariant -----------------------------------------------------------------

  function Top(stack: seq<nat>): nat { if stack == [] then NONE else stack[0] }

  /** Following `next` from `top` spells out `stack` and ends. */
  ghost predicate Chain(top: nat, next: seq<nat>, stack: seq<nat>)
    decreases |stack|
  {
    top == Top(stack) && (stack != [] ==> top < |next| && Chain(next[top], next, stack[1..]))
  }

  ghost predicate Distinct(stack: seq<nat>) {
    forall i, j :: 0 <= i < j < |stack| ==> stack[i] != stack[j]
  }

  ghost predicate LoadOk(s: State, cur: nat, seen: nat) {
    && seen <= s.changes && HeadTag(cur) == seen % U32
    && (seen == s.changes ==> cur == s.head)
  }

  ghost predicate PcOk(s: State, t: nat)
    requires t in s.pcs && |s.place| == |s.next|
  {
    var pc := s.pcs[t];
    match pc
    case PopLoaded(cur, seen) => LoadOk(s, cur, seen) && HeadIdx(cur) < |s.next|
    case PopRead(cur, following, seen) =>
      LoadOk(s, cur, seen) && HeadIdx(cur) < |s.next| && (seen == s.changes ==> following == s.next[HeadIdx(cur)])
    case PopWon(idx) => idx < |s.next| && s.place[idx] == Popped(t)
    case PushStart(val) => val < |s.next| ==> s.place[val] == Pushing(t)
    case PushLoop(val) => val < |s.next| && s.place[val] == Pushing(t)
    case PushLoaded(val, cur, seen) => val < |s.next| && s.place[val] == Pushing(t) && LoadOk(s, cur, seen)
    case PushStored(val, cur, seen) =>
      val < |s.next| && s.place[val] == Pushing(t) && LoadOk(s, cur, seen) && s.next[val] == HeadIdx(cur)
    case _ => true
  }

  predicate Releasing(pc: Pc, i: nat) {
    match pc
    case PushStart(val) => val == i
    case PushLoop(val) => val == i
    case PushLoaded(val, _, _) => val == i
    case PushStored(val, _, _) => val == i
    case _ => false
  }

  /** The thread named in an index's place is inside the matching call, on that index. */
  ghost predicate PlaceOk(s: State, i: nat)
    requires i < |s.place|
  {
    var place := s.place[i];
    match place
    case Popped(t) => t in s.pcs && s.pcs[t] == PopWon(i)
    case Pushing(t) =>
      t in s.pcs && Releasing(s.pcs[t], i)
    case _ => true
  }

  /** Indices popped whose decrement of `len` is outstanding. */
  ghost function Undecremented(s: State): set<nat> {
    set i | 0 <= i < |s.place| && s.place[i].Popped?
  }

  /** Threads that linked an index and have not yet incremented `len`. */
  ghost function Unincremented(s: State): set<nat> {
    set t | t in s.pcs && s.pcs[t].PushWon?
  }

  ghost predicate Inv(s: State, stack: seq<nat>) {
    && |s.place| == |s.next| <= NONE
    && s.head == PackHead(Top(stack), s.changes % U32)
    && Chain(Top(stack), s.next, stack) && Distinct(stack)
    && (forall i :: 0 <= i < |s.place| ==> (s.place[i].Stacked? <==> i in stack))
    && (forall i :: 0 <= i < |s.place| ==> PlaceOk(s, i))
    && (forall t :: t in s.pcs ==> PcOk(s, t))
    && s.len < U64
    && s.len == (|stack| + |Undecremented(s)| - |Unincremented(s)|) % U64
  }

  // ---- The abstract stack ----------------------------------------------------------

  datatype Op = Nothing | Push(idx: nat) | Pop(idx: nat) | SeeEmpty

  predicate Legal(stack: seq<nat>, op: Op) {
    match op
    case Nothing => true
    case Push(i) => i !in stack
    case Pop(i) => stack != [] && stack[0] == i
    case SeeEmpty => stack == []
  }

  function Apply(stack: seq<nat>, op: Op): seq<nat>
    requires Legal(stack, op)
  {
    match op
    case Push(i) => [i] + stack
    case Pop(_) => stack[1..]
    case _ => stack
  }

  /** What a step does to the abstract stack: the successful exchanges and the load of an empty head. */
  function Effect(s: State, t: nat, a: Action): Op
    requires Enabled(s, t, a)
  {
    if !a.Access? then Nothing
    else
      var pc := s.pcs[t];
      match pc
      case PopLoop => if HeadIdx(s.head) == NONE then SeeEmpty else Nothing
      case PopRead(cur, _, _) => if s.head == cur then Pop(HeadIdx(cur)) else Nothing
      case PushStored(val, cur, _) => if s.head == cur then Push(val) else Nothing
      case _ => Nothing
  }

  /** Fewer than 2^32 head changes happened since the load the thread is about to act on. */
  predicate Timely(s: State, t: nat) {
    t in s.pcs ==>
      var pc := s.pcs[t];
      match pc
      case PopRead(_, _, seen) => s.changes - seen < U32
      case PushStored(_, _, seen) => s.changes - seen < U32
      case _ => true
  }

  // ---- Preservation ------------------------------------------------------------------

  /** A step that only moves the thread's own program counter. */
  lemma LocalStep(s: State, t: nat, pc: Pc, stack: seq<nat>)
    requires Inv(s, stack) && t in s.pcs
    requires !s.pcs[t].PushWon? && !pc.PushWon? && !s.pcs[t].PopWon?
    requires PcOk(s.At(t, pc), t)
    requires forall i: nat :: i < |s.place| && Releasing(s.pcs[t], i) ==> Releasing(pc, i)
    ensures Inv(s.At(t, pc), stack)
  {
    var s' := s.At(t, pc);
    assert Unincremented(s') == Unincremented(s);
    assert Undecremented(s') == Undecremented(s);
    forall u | u in s'.pcs ensures PcOk(s', u) {
      assert u != t ==> PcOk(s, u);
    }
    forall i | 0 <= i < |s'.place| ensures PlaceOk(s', i) {
      assert PlaceOk(s, i);
    }
  }

  /** Equal words mean equal histories: the tag rules out every shorter cycle of changes. */
  lemma TagTells(s: State, cur: nat, seen: nat, stack: seq<nat>)
    requires Inv(s, stack) && LoadOk(s, cur, seen) && s.head == cur && s.changes - seen < U32
    ensures seen == s.changes
  {
    UnpackHead(Top(stack), s.changes % U32);
  }

  lemma {:induction false} ChainFrame(top: nat, next: seq<nat>, stack: seq<nat>, val: nat, x: nat)
    requires Chain(top, next, stack) && val < |next| && val !in stack
    ensures Chain(top, next[val := x], stack)
    decreases |stack|
  {
    if stack != [] { ChainFrame(next[top], next, stack[1..], val, x); }
  }

  lemma {:induction false} ChainInBounds(top: nat, next: seq<nat>, stack: seq<nat>)
    requires Chain(top, next, stack)
    ensures forall i :: i in stack ==> i < |next|
    decreases |stack|
  {
    if stack != [] {
      ChainInBounds(next[top], next, stack[1..]);
      assert stack == [stack[0]] + stack[1..];
    }
  }

  lemma OthersKeep(s: State, s': State, t: nat, i: nat)
    requires |s.place| == |s.next| == |s'.next| == |s'.place|
    requires t in s.pcs && t in s'.pcs && s'.pcs == s.pcs[t := s'.pcs[t]]
    requires i < |s.place| && s'.place == s.place[i := s'.place[i]]
    requires forall u :: u in s.pcs && u != t ==> PcOk(s, u)
    requires forall u :: s.place[i] == Pushing(u) || s.place[i] == Popped(u) ==> u == t
    requires (s'.next == s.next && s'.changes == s.changes && s'.head == s.head)
             || (s'.next == s.next && s'.changes > s.changes)
    ensures forall u :: u in s.pcs && u != t ==> PcOk(s', u)
  {
  }

  /** A read that is still current knows the top of the stack and what is under it. */
  lemma PopReadKnows(s: State, t: nat, stack: seq<nat>)
    requires Inv(s, stack) && InBounds(s, t) && s.pcs[t].PopRead? && s.head == s.pcs[t].cur && Timely(s, t)
    ensures stack != [] && HeadIdx(s.head) == stack[0] && Chain(s.pcs[t].following, s.next, stack[1..])
    ensures s.place[stack[0]].Stacked? && s.pcs[t].following == s.next[stack[0]] == Top(stack[1..])
            && HeadTag(s.head) == s.changes % U32
  {
    hide PlaceOk, Undecremented, Unincremented, PackHead;
    assert PcOk(s, t);
    TagTells(s, s.pcs[t].cur, s.pcs[t].seen, stack);
    UnpackHead(Top(stack), s.changes % U32);
    assert stack == [stack[0]] + stack[1..];
  }

  /** The other threads and places after the pop's exchange. */
  lemma PopKeepsOthers(s: State, t: nat, stack: seq<nat>)
    requires Inv(s, stack) && InBounds(s, t) && s.pcs[t].PopRead? && s.head == s.pcs[t].cur && Timely(s, t)
    ensures var s' := Advance(s, t);
            && (forall u :: u in s'.pcs ==> PcOk(s', u)) && (forall i :: 0 <= i < |s'.place| ==> PlaceOk(s', i))
  {
    hide PackHead, Undecremented, Unincremented, Chain, Distinct;
    PopReadKnows(s, t, stack);
    var s' := Advance(s, t);
    OthersKeep(s, s', t, stack[0]);
    forall i | 0 <= i < |s'.place| ensures PlaceOk(s', i) {
      assert PlaceOk(s, i);
    }
  }

  lemma PopTakes(s: State, t: nat, stack: seq<nat>)
    requires Inv(s, stack) && InBounds(s, t) && s.pcs[t].PopRead? && s.head == s.pcs[t].cur && Timely(s, t)
    ensures stack != [] && HeadIdx(s.head) == stack[0]
    ensures Inv(Advance(s, t), stack[1..])
  {
    hide PcOk, PlaceOk, Chain, PackHead;
    PopReadKnows(s, t, stack);
    PopKeepsOthers(s, t, stack);
    var s' := Advance(s, t);
    assert stack == [stack[0]] + stack[1..];
    assert (s.changes % U32 + 1) % U32 == (s.changes + 1) % U32;
    assert Undecremented(s') == Undecremented(s) + {stack[0]};
    assert Unincremented(s') == Unincremented(s);
  }

  lemma PopDecrements(s: State, t: nat, stack: seq<nat>)
    requires Inv(s, stack) && InBounds(s, t) && s.pcs[t].PopWon?
    ensures Inv(Advance(s, t), stack)
  {
    var idx := s.pcs[t].idx;
    assert PcOk(s, t);
    var s' := Advance(s, t);
    assert Undecremented(s') == Undecremented(s) - {idx};
    assert Unincremented(s') == Unincremented(s);
    OthersKeep(s, s', t, idx);
    forall i | 0 <= i < |s'.place| ensures PlaceOk(s', i) {
      assert PlaceOk(s, i);
    }
  }

  /** The other threads and places after the push's exchange. */
  lemma PushKeepsOthers(s: State, t: nat, stack: seq<nat>)
    requires Inv(s, stack) && InBounds(s, t) && s.pcs[t].PushStored? && s.head == s.pcs[t].cur && Timely(s, t)
    ensures var s' := Advance(s, t);
            && (forall u :: u in s'.pcs ==> PcOk(s', u)) && (forall i :: 0 <= i < |s'.place| ==> PlaceOk(s', i))
  {
    hide PackHead, Undecremented, Unincremented, Chain, Distinct;
    assert PcOk(s, t);
    var s' := Advance(s, t);
    OthersKeep(s, s', t, s.pcs[t].val);
    forall i | 0 <= i < |s'.place| ensures PlaceOk(s', i) {
      assert PlaceOk(s, i);
    }
  }

  lemma PushStoredKnows(s: State, t: nat, stack: seq<nat>)
    requires Inv(s, stack) && InBounds(s, t) && s.pcs[t].PushStored? && s.head == s.pcs[t].cur && Timely(s, t)
    ensures var val := s.pcs[t].val;
            val < |s.next| && s.place[val] == Pushing(t) && val !in stack && s.next[val] == Top(stack)
                && HeadTag(s.head) == s.changes % U32
  {
    hide PlaceOk, Undecremented, Unincremented, PackHead;
    assert PcOk(s, t);
    TagTells(s, s.pcs[t].cur, s.pcs[t].seen, stack);
    UnpackHead(Top(stack), s.changes % U32);
  }

  lemma PushLinks(s: State, t: nat, stack: seq<nat>)
    requires Inv(s, stack) && InBounds(s, t) && s.pcs[t].PushStored? && s.head == s.pcs[t].cur && Timely(s, t)
    ensures s.pcs[t].val !in stack && Inv(Advance(s, t), [s.pcs[t].val] + stack)
  {
    hide PcOk, PlaceOk, PackHead, HeadIdx, HeadTag;
    var val := s.pcs[t].val;
    PushStoredKnows(s, t, stack);
    PushKeepsOthers(s, t, stack);
    var s' := Advance(s, t);
    assert Chain(val, s'.next, [val] + stack);
    assert ([val] + stack)[1..] == stack;
    assert (s.changes % U32 + 1) % U32 == (s.changes + 1) % U32;
    assert Undecremented(s') == Undecremented(s);
    assert Unincremented(s') == Unincremented(s) + {t};
  }

  lemma PushIncrements(s: State, t: nat, stack: seq<nat>)
    requires Inv(s, stack) && InBounds(s, t) && s.pcs[t].PushWon?
    ensures Inv(Advance(s, t), stack)
  {
    var s' := Advance(s, t);
    assert Undecremented(s') == Undecremented(s);
    assert Unincremented(s') == Unincremented(s) - {t};
    forall u | u in s'.pcs ensures PcOk(s', u) {
      assert u != t ==> PcOk(s, u);
    }
    forall i | 0 <= i < |s'.place| ensures PlaceOk(s', i) {
      assert PlaceOk(s, i);
    }
  }

  lemma PushStores(s: State, t: nat, stack: seq<nat>)
    requires Inv(s, stack) && InBounds(s, t) && s.pcs[t].PushLoaded?
    ensures Inv(Advance(s, t), stack)
  {
    var PushLoaded(val, cur, seen) := s.pcs[t];
    assert PcOk(s, t);
    UnpackHead(Top(stack), s.changes % U32);
    var s' := Advance(s, t);
    ChainFrame(Top(stack), s.next, stack, val, HeadIdx(cur));
    assert Undecremented(s') == Undecremented(s);
    assert Unincremented(s') == Unincremented(s);
    forall u | u in s'.pcs ensures PcOk(s', u) {
      assert PcOk(s, u);
    }
    forall i | 0 <= i < |s'.place| ensures PlaceOk(s', i) {
      assert PlaceOk(s, i);
    }
  }

  /** A step that hands one index between its caller and thread `t`. */
  lemma HandStep(s: State, t: nat, i: nat, place: Place, pc: Pc, stack: seq<nat>)
    requires Inv(s, stack) && t in s.pcs && i < |s.place|
    requires (s.place[i].Out? && place == Pushing(t) && s.pcs[t].Idle? && pc == PushStart(i))
          || (s.place[i] == Pushing(t) && place == Out && s.pcs[t] == PushStart(i) && pc == Returned(Full))
    ensures Inv(s.(place := s.place[i := place]).At(t, pc), stack)
  {
    var s' := s.(place := s.place[i := place]).At(t, pc);
    assert Undecremented(s') == Undecremented(s);
    assert Unincremented(s') == Unincremented(s);
    OthersKeep(s, s', t, i);
    forall j | 0 <= j < |s'.place| ensures PlaceOk(s', j) {
      assert PlaceOk(s, j);
    }
  }

  /** Every step is a legal operation of the abstract stack, or none, and keeps the invariant. */
  lemma StepRefines(s: State, t: nat, a: Action, stack: seq<nat>)
    requires Inv(s, stack) && Enabled(s, t, a) && Timely(s, t)
    ensures Legal(stack, Effect(s, t, a))
    ensures Inv(Step(s, t, a), Apply(stack, Effect(s, t, a)))
  {
    hide Chain, Distinct;
    assert PcOk(s, t);
    TopInBounds(s, stack);
    match a
    case CallPop => LocalStep(s, t, PopLoop, stack);
    case CallPush(val) =>
      if val < |s.next| { HandStep(s, t, val, Pushing(t), PushStart(val), stack); }
      else { LocalStep(s, t, PushStart(val), stack); }
    case Collect => LocalStep(s, t, Idle, stack);
    case Access =>
      match s.pcs[t]
      case PopLoop =>
        LocalStep(s, t, if HeadIdx(s.head) == NONE then Returned(Empty) else PopLoaded(s.head, s.changes), stack);
      case PopLoaded(cur, seen) => LocalStep(s, t, PopRead(cur, s.next[HeadIdx(cur)], seen), stack);
      case PopRead(cur, _, _) =>
        if s.head == cur { PopTakes(s, t, stack); } else { LocalStep(s, t, PopLoop, stack); }
      case PopWon(_) => PopDecrements(s, t, stack);
      case PushStart(val) =>
        if val >= s.Capacity() { LocalStep(s, t, Returned(Full), stack); }
        else if s.len >= s.Capacity() { HandStep(s, t, val, Out, Returned(Full), stack); }
        else { LocalStep(s, t, PushLoop(val), stack); }
      case PushLoop(val) => LocalStep(s, t, PushLoaded(val, s.head, s.changes), stack);
      case PushLoaded(_, _, _) => PushStores(s, t, stack);
      case PushStored(val, cur, _) =>
        if s.head == cur { PushLinks(s, t, stack); } else { LocalStep(s, t, PushLoop(val), stack); }
      case PushWon => PushIncrements(s, t, stack);
  }

  lemma TopInBounds(s: State, stack: seq<nat>)
    requires Inv(s, stack)
    ensures HeadTag(s.head) == s.changes % U32
    ensures stack == [] <==> HeadIdx(s.head) == NONE
    ensures stack != [] ==> HeadIdx(s.head) == stack[0] < |s.next|
  {
    UnpackHead(Top(stack), s.changes % U32);
  }

  /** No access leaves the `next` array. */
  lemma AccessInBounds(s: State, t: nat, stack: seq<nat>)
    requires Inv(s, stack) && t in s.pcs
    ensures InBounds(s, t)
  {
    assert PcOk(s, t);
  }

  predicate Holds(pc: Pc, i: nat) {
    pc == PopWon(i) || Releasing(pc, i)
  }

  /** An index inside a call belongs to one thread only, is not handed out and is not on the stack. */
  lemma OneOwner(s: State, stack: seq<nat>, t: nat, u: nat, i: nat)
    requires Inv(s, stack) && t in s.pcs && u in s.pcs && i < s.Capacity()
    requires Holds(s.pcs[t], i)
    ensures Holds(s.pcs[u], i) ==> u == t
    ensures !s.place[i].Out? && i !in stack
  {
    assert PcOk(s, t) && PcOk(s, u);
  }

  // ---- Runs ------------------------------------------------------------------------------

  /** Threads take turns in any order; `sched` names who moves and how. */
  ghost predicate IsRun(states: seq<State>, sched: seq<(nat, Action)>) {
    && |states| == |sched| + 1
    && forall k :: 0 <= k < |sched| ==>
         && Enabled(states[k], sched[k].0, sched[k].1) && Timely(states[k], sched[k].0)
         && states[k + 1] == Step(states[k], sched[k].0, sched[k].1)
  }

  ghost function History(states: seq<State>, sched: seq<(nat, Action)>): (ops: seq<Op>)
    requires IsRun(states, sched)
    ensures |ops| == |sched|
  {
    seq(|sched|, k requires 0 <= k < |sched| => Effect(states[k], sched[k].0, sched[k].1))
  }

  ghost predicate LegalHistory(stack: seq<nat>, ops: seq<Op>)
    decreases |ops|
  {
    ops == [] || (Legal(stack, ops[0]) && LegalHistory(Apply(stack, ops[0]), ops[1..]))
  }

  ghost function Replay(stack: seq<nat>, ops: seq<Op>): seq<nat>
    requires LegalHistory(stack, ops)
    decreases |ops|
  {
    if ops == [] then stack else Replay(Apply(stack, ops[0]), ops[1..])
  }

  /** Every interleaving is a legal history of one sequential stack, which the final chain spells out. */
  lemma {:induction false} Linearizes(states: seq<State>, sched: seq<(nat, Action)>, stack: seq<nat>)
    requires IsRun(states, sched) && Inv(states[0], stack)
    ensures LegalHistory(stack, History(states, sched))
    ensures Inv(states[|sched|], Replay(stack, History(states, sched)))
    decreases |sched|
  {
    if sched != [] {
      hide Inv, Effect, Apply, Legal, Step, Enabled, Timely;
      var (t, a) := sched[0];
      StepRefines(states[0], t, a, stack);
      var rest, turns := states[1..], sched[1..];
      forall k | 0 <= k < |turns|
        ensures Enabled(rest[k], turns[k].0, turns[k].1) && Timely(rest[k], turns[k].0)
                && rest[k + 1] == Step(rest[k], turns[k].0, turns[k].1)
      {
        assert rest[k] == states[k + 1] && rest[k + 1] == states[k + 2] && turns[k] == sched[k + 1];
      }
      Linearizes(rest, turns, Apply(stack, Effect(states[0], t, a)));
      assert History(states, sched)[1..] == History(rest, turns);
    }
  }

  // ---- Calls -------------------------------------------------------------------------------------

  /**
   * Steps `i` to `j` of a run are one call of thread `t`: it is made at `i`, collected at `j`, and `t` only continues
   * in between.
   */
  ghost predicate IsCall(states: seq<State>, sched: seq<(nat, Action)>, t: nat, i: nat, j: nat)
    requires IsRun(states, sched)
  {
    && i < j < |sched| && sched[i].0 == t && (sched[i].1.CallPop? || sched[i].1.CallPush?) && sched[j] == (t, Collect)
    && forall k :: i < k < j && sched[k].0 == t ==> sched[k].1.Access?
  }

  /** What the steps of `t` from `i` to `j` do to the abstract stack. */
  ghost function OpsOf(states: seq<State>, sched: seq<(nat, Action)>, t: nat, i: nat, j: nat): seq<Op>
    requires IsRun(states, sched) && i <= j <= |sched|
    decreases j
  {
    if i == j then []
    else
      var ops, op := OpsOf(states, sched, t, i, j - 1), History(states, sched)[j - 1];
      if sched[j - 1].0 == t && !op.Nothing? then ops + [op] else ops
  }

  /** The operations a call has carried out by the time it is here, and where it can be. */
  function CarriedOut(call: Action, pc: Pc): Option<seq<Op>> {
    match pc
    case PopLoop => if call.CallPop? then Some([]) else None
    case PopLoaded(_, _) => if call.CallPop? then Some([]) else None
    case PopRead(_, _, _) => if call.CallPop? then Some([]) else None
    case PopWon(x) => if call.CallPop? then Some([Pop(x)]) else None
    case PushStart(val) => if call == CallPush(val) then Some([]) else None
    case PushLoop(val) => if call == CallPush(val) then Some([]) else None
    case PushLoaded(val, _, _) => if call == CallPush(val) then Some([]) else None
    case PushStored(val, _, _) => if call == CallPush(val) then Some([]) else None
    case PushWon => if call.CallPush? then Some([Push(call.val)]) else None
    case Returned(outcome) =>
      if (outcome.Took? || outcome.Empty?) == call.CallPop?
          && (call.CallPop? || call.CallPush?) then Some(Answered(call, outcome)) else None
    case Idle => None
  }

  /** The operation an outcome reports. */
  function Answered(call: Action, outcome: Outcome): seq<Op> {
    match outcome
    case Took(x) => [Pop(x)]
    case Empty => [SeeEmpty]
    case Pushed => if call.CallPush? then [Push(call.val)] else []
    case Full => []
  }

  lemma CallAdvances(s: State, t: nat, call: Action)
    requires Enabled(s, t, Access) && CarriedOut(call, s.pcs[t]).Some?
    ensures t in Advance(s, t).pcs
            && Adds(CarriedOut(call, s.pcs[t]), Effect(s, t, Access), CarriedOut(call, Advance(s, t).pcs[t]))
  {
    hide HeadIdx, PackHead, HeadTag;
  }

  ghost predicate Adds(before: Option<seq<Op>>, op: Op, after: Option<seq<Op>>) {
    before.Some? && after.Some? && after.value == if op.Nothing? then before.value else before.value + [op]
  }

  lemma OthersWait(s: State, t: nat, a: Action, u: nat)
    requires Enabled(s, t, a) && u != t && u in s.pcs
    ensures u in Step(s, t, a).pcs && Step(s, t, a).pcs[u] == s.pcs[u]
  {
  }

  lemma {:induction false} CallProgress(states: seq<State>, sched: seq<(nat, Action)>, t: nat, i: nat, j: nat, k: nat)
    requires IsRun(states, sched) && IsCall(states, sched, t, i, j) && i < k <= j
    ensures t in states[k].pcs && CarriedOut(sched[i].1, states[k].pcs[t]).Some?
    ensures CarriedOut(sched[i].1, states[k].pcs[t]).value == OpsOf(states, sched, t, i, k)
    decreases k
  {
    hide Step, Enabled, Effect, CarriedOut, Timely;
    if k == i + 1 {
      CallStarts(states[i], t, sched[i].1);
      assert OpsOf(states, sched, t, i, i) == [] && History(states, sched)[i].Nothing?;
    } else {
      CallProgress(states, sched, t, i, j, k - 1);
      if sched[k - 1].0 == t {
        ContinuesAs(states[k - 1], t, sched[i].1);
      } else {
        OthersWait(states[k - 1], sched[k - 1].0, sched[k - 1].1, t);
      }
    }
  }

  lemma CallStarts(s: State, t: nat, call: Action)
    requires Enabled(s, t, call) && (call.CallPop? || call.CallPush?)
    ensures t in Step(s, t, call).pcs && CarriedOut(call, Step(s, t, call).pcs[t]) == Some([])
            && Effect(s, t, call).Nothing?
  {
  }

  lemma ContinuesAs(s: State, t: nat, call: Action)
    requires Enabled(s, t, Access) && CarriedOut(call, s.pcs[t]).Some?
    ensures t in Step(s, t, Access).pcs
            && Adds(CarriedOut(call, s.pcs[t]), Effect(s, t, Access), CarriedOut(call, Step(s, t, Access).pcs[t]))
  {
    CallAdvances(s, t, call);
  }

  /**
   * Between call and return a thread carries out exactly the one operation its return value reports, and none if
   * refused.
   */
  lemma CallLinearizes(states: seq<State>, sched: seq<(nat, Action)>, t: nat, i: nat, j: nat)
    requires IsRun(states, sched) && IsCall(states, sched, t, i, j)
    ensures t in states[j].pcs && states[j].pcs[t].Returned?
    ensures OpsOf(states, sched, t, i, j) == Answered(sched[i].1, states[j].pcs[t].outcome)
    ensures |OpsOf(states, sched, t, i, j)| == 1 <==> !states[j].pcs[t].outcome.Full?
  {
    hide Step, Timely, OpsOf, Effect;
    CallProgress(states, sched, t, i, j, j);
    assert Enabled(states[j], t, Collect);
  }

  // ---- Initial states -----------------------------------------------------------------------

  function Idlers(threads: set<nat>): map<nat, Pc> {
    map t | t in threads :: Idle
  }

  function Descending(n: nat): (stack: seq<nat>)
    ensures |stack| == n && forall k :: 0 <= k < n ==> stack[k] == n - 1 - k
  {
    if n == 0 then [] else [n - 1] + Descending(n - 1)
  }

  lemma {:induction false} DescendingChain(next: seq<nat>, n: nat)
    requires n <= |next| && forall i :: 0 <= i < |next| ==> next[i] == if i == 0 then NONE else i - 1
    ensures Chain(if n == 0 then NONE else n - 1, next, Descending(n))
  {
    if n > 0 {
      DescendingChain(next, n - 1);
      assert Descending(n)[1..] == Descending(n - 1);
    }
  }

  /** Every index free, the highest on top. */
  method InitInPlace(capacity: nat, threads: set<nat>) returns (s: State)
    requires capacity <= NONE
    ensures Inv(s, Descending(capacity)) && s.Capacity() == capacity
    ensures s.pcs == Idlers(threads) && forall i :: 0 <= i < capacity ==> s.place[i].Stacked?
  {
    hide PackHead, Inv;
    var next: seq<nat> := [];
    for i := 0 to capacity
      invariant |next| == i
      invariant forall j :: 0 <= j < i ==> next[j] == if j == 0 then NONE else j - 1
    {
      next := next + [if i == 0 then NONE else i - 1];
    }
    var headIdx := if capacity == 0 then NONE else capacity - 1;
    s := State(PackHead(headIdx, 0), next, capacity, Idlers(threads), 0, seq(capacity, _ => Stacked));
    AllFree(s, capacity, threads);
  }

  lemma AllFree(s: State, capacity: nat, threads: set<nat>)
    requires capacity <= NONE && |s.next| == capacity
             && forall j :: 0 <= j < capacity ==> s.next[j] == if j == 0 then NONE else j - 1
    requires s
             == State(PackHead(if capacity == 0 then NONE else capacity - 1, 0), s.next, capacity, Idlers(threads), 0,
                      seq(capacity, _ => Stacked))
    ensures Inv(s, Descending(capacity))
  {
    hide PackHead, Chain;
    DescendingChain(s.next, capacity);
    assert Undecremented(s) == {} && Unincremented(s) == {};
    forall i | 0 <= i < capacity ensures i in Descending(capacity) {
      assert Descending(capacity)[capacity - 1 - i] == i;
    }
  }

  /** No index free: all of them start with the caller. */
  method InitEmptyInPlace(capacity: nat, threads: set<nat>) returns (s: State)
    requires capacity <= NONE
    ensures Inv(s, []) && s.Capacity() == capacity
    ensures s.pcs == Idlers(threads) && forall i :: 0 <= i < capacity ==> s.place[i].Out?
  {
    var next: seq<nat> := [];
    for i := 0 to capacity
      invariant |next| == i
    {
      next := next + [NONE];
    }
    s := State(PackHead(NONE, 0), next, 0, Idlers(threads), 0, seq(capacity, _ => Out));
    assert Undecremented(s) == {} && Unincremented(s) == {};
  }

  // ---- The Full guard ---------------------------------------------------------------------------

  ghost function Elements(stack: seq<nat>): set<nat> { set i | i in stack }

  lemma {:induction false} ElementsCount(stack: seq<nat>)
    requires Distinct(stack)
    ensures |Elements(stack)| == |stack|
    decreases |stack|
  {
    if stack != [] {
      var rest := stack[1..];
      assert stack == [stack[0]] + rest;
      ElementsCount(rest);
      assert Elements(stack) == Elements(rest) + {stack[0]};
    }
  }

  /** An index its owner is about to push leaves room: stack and pending pops stay below capacity. */
  lemma OwnerLeavesRoom(s: State, stack: seq<nat>, val: nat)
    requires Inv(s, stack) && val < s.Capacity() && !s.place[val].Stacked? && !s.place[val].Popped?
    ensures |stack| + |Undecremented(s)| < s.Capacity()
  {
    ElementsCount(stack);
    var onStack, all := Elements(stack), Below(s.Capacity());
    ChainInBounds(Top(stack), s.next, stack);
    assert onStack !! Undecremented(s);
    assert |onStack + Undecremented(s)| == |onStack| + |Undecremented(s)|;
    var used := onStack + Undecremented(s);
    assert used < all by { assert val in all && val !in used; }
    SubsetSize(used, all);
  }

  /** The guard refuses an owner exactly when increments lag behind everything `len` already counts. */
  lemma RefusedExactly(s: State, stack: seq<nat>, t: nat)
    requires Inv(s, stack) && t in s.pcs && s.pcs[t].PushStart? && s.pcs[t].val < s.Capacity()
    requires |s.pcs| <= U64 - U32
    ensures InBounds(s, t)
    ensures Advance(s, t).pcs[t] == Returned(Full) <==> |stack| + |Undecremented(s)| < |Unincremented(s)|
  {
    assert PcOk(s, t);
    OwnerLeavesRoom(s, stack, s.pcs[t].val);
    assert Unincremented(s) < s.pcs.Keys by { assert t in s.pcs.Keys && t !in Unincremented(s); }
    SubsetSize(Unincremented(s), s.pcs.Keys);
    assert |s.pcs.Keys| == |s.pcs|;
  }

  function Two(head: nat, following: nat, len: nat, a: Pc, b: Pc, changes: nat, place: Place): State {
    State(head, [following], len, map[0 := a, 1 := b], changes, [place])
  }

  lemma Extend(states: seq<State>, sched: seq<(nat, Action)>, t: nat, a: Action, reached: State)
    returns (states': seq<State>, sched': seq<(nat, Action)>)
    requires |states| == |sched| + 1 && IsRun(states, sched)
    requires Enabled(states[|sched|], t, a) && Timely(states[|sched|], t) && Step(states[|sched|], t, a) == reached
    ensures |states'| == |sched'| + 1 && IsRun(states', sched') && states'[0] == states[0]
            && states'[|sched'|] == reached
    ensures sched' == sched + [(t, a)]
  {
    states', sched' := states + [reached], sched + [(t, a)];
  }

  lemma FirstPop(from: seq<State>, turns: seq<(nat, Action)>) returns (states: seq<State>, sched: seq<(nat, Action)>)
    requires |from| == |turns| + 1 && IsRun(from, turns)
    requires from[|turns|] == Two(PackHead(0, 0), NONE, 1, Idle, Idle, 0, Stacked)
    ensures |states| == |sched| + 1 && IsRun(states, sched) && states[0] == from[0]
    ensures states[|sched|] == Two(PackHead(NONE, 1), NONE, 0, Idle, Idle, 1, Out)
  {
    hide IsRun;
    states, sched := from, turns;
    states, sched := Extend(states, sched, 0, CallPop, Two(PackHead(0, 0), NONE, 1, PopLoop, Idle, 0, Stacked));
    states, sched := Extend(states, sched, 0, Access,
                            Two(PackHead(0, 0), NONE, 1, PopLoaded(PackHead(0, 0), 0), Idle, 0, Stacked));
    states, sched := Extend(states, sched, 0, Access,
                            Two(PackHead(0, 0), NONE, 1, PopRead(PackHead(0, 0), NONE, 0), Idle, 0, Stacked));
    states, sched := Extend(states, sched, 0, Access, Two(PackHead(NONE, 1), NONE, 1, PopWon(0), Idle, 1, Popped(0)));
    states, sched := Extend(states, sched, 0, Access, Two(PackHead(NONE, 1), NONE, 0, Returned(Took(0)), Idle, 1, Out));
    states, sched := Extend(states, sched, 0, Collect, Two(PackHead(NONE, 1), NONE, 0, Idle, Idle, 1, Out));
  }

  lemma FirstPush(from: seq<State>, turns: seq<(nat, Action)>) returns (states: seq<State>, sched: seq<(nat, Action)>)
    requires |from| == |turns| + 1 && IsRun(from, turns)
    requires from[|turns|] == Two(PackHead(NONE, 1), NONE, 0, Idle, Idle, 1, Out)
    ensures |states| == |sched| + 1 && IsRun(states, sched) && states[0] == from[0]
    ensures states[|sched|] == Two(PackHead(0, 2), NONE, 0, PushWon, Idle, 2, Stacked)
  {
    hide IsRun;
    states, sched := from, turns;
    states, sched := Extend(states, sched, 0, CallPush(0),
                            Two(PackHead(NONE, 1), NONE, 0, PushStart(0), Idle, 1, Pushing(0)));
    states, sched := Extend(states, sched, 0, Access,
                            Two(PackHead(NONE, 1), NONE, 0, PushLoop(0), Idle, 1, Pushing(0)));
    states, sched := Extend(states, sched, 0, Access,
                            Two(PackHead(NONE, 1), NONE, 0, PushLoaded(0, PackHead(NONE, 1), 1), Idle, 1, Pushing(0)));
    states, sched := Extend(states, sched, 0, Access,
                            Two(PackHead(NONE, 1), NONE, 0, PushStored(0, PackHead(NONE, 1), 1), Idle, 1, Pushing(0)));
    states, sched := Extend(states, sched, 0, Access, Two(PackHead(0, 2), NONE, 0, PushWon, Idle, 2, Stacked));
  }

  lemma SecondPop(from: seq<State>, turns: seq<(nat, Action)>) returns (states: seq<State>, sched: seq<(nat, Action)>)
    requires |from| == |turns| + 1 && IsRun(from, turns)
    requires from[|turns|] == Two(PackHead(0, 2), NONE, 0, PushWon, Idle, 2, Stacked)
    ensures |states| == |sched| + 1 && IsRun(states, sched) && states[0] == from[0]
    ensures states[|sched|] == Two(PackHead(NONE, 3), NONE, U64 - 1, PushWon, Idle, 3, Out)
  {
    hide IsRun;
    states, sched := from, turns;
    states, sched := Extend(states, sched, 1, CallPop, Two(PackHead(0, 2), NONE, 0, PushWon, PopLoop, 2, Stacked));
    states, sched := Extend(states, sched, 1, Access,
                            Two(PackHead(0, 2), NONE, 0, PushWon, PopLoaded(PackHead(0, 2), 2), 2, Stacked));
    states, sched := Extend(states, sched, 1, Access,
                            Two(PackHead(0, 2), NONE, 0, PushWon, PopRead(PackHead(0, 2), NONE, 2), 2, Stacked));
    states, sched := Extend(states, sched, 1, Access,
                            Two(PackHead(NONE, 3), NONE, 0, PushWon, PopWon(0), 3, Popped(1)));
    states, sched := Extend(states, sched, 1, Access,
                            Two(PackHead(NONE, 3), NONE, U64 - 1, PushWon, Returned(Took(0)), 3, Out));
    states, sched := Extend(states, sched, 1, Collect, Two(PackHead(NONE, 3), NONE, U64 - 1, PushWon, Idle, 3, Out));
  }

  /** A pop's decrement can overtake the push's increment, and then the only owner is refused. */
  lemma OwnerRefused() returns (states: seq<State>, sched: seq<(nat, Action)>)
    ensures IsRun(states, sched) && Inv(states[0], [0])
    ensures |sched| >= 2 && sched[|sched| - 2] == (1, CallPush(0))
    ensures 1 in states[|sched|].pcs && states[|sched|].pcs[1] == Returned(Full)
  {
    states, sched := [Two(PackHead(0, 0), NONE, 1, Idle, Idle, 0, Stacked)], [];
    InitialInv();
    states, sched := FirstPop(states, sched);
    states, sched := FirstPush(states, sched);
    states, sched := SecondPop(states, sched);
    states, sched := Extend(states, sched, 1, CallPush(0),
                            Two(PackHead(NONE, 3), NONE, U64 - 1, PushWon, PushStart(0), 3, Pushing(1)));
    states, sched := Extend(states, sched, 1, Access,
                            Two(PackHead(NONE, 3), NONE, U64 - 1, PushWon, Returned(Full), 3, Out));
  }

  lemma InitialInv()
    ensures Inv(Two(PackHead(0, 0), NONE, 1, Idle, Idle, 0, Stacked), [0])
  {
    var s := Two(PackHead(0, 0), NONE, 1, Idle, Idle, 0, Stacked);
    assert [0][1..] == [];
    assert Undecremented(s) == {} && Unincremented(s) == {};
  }
}
