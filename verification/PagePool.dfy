/** The shared page pool: generation/state words over the tagged stack, as atomic steps of any number of threads. */
module PagePool {
  import opened Common
  import opened Bits
  import S = TreiberStack

  // ---- The packed state word ---------------------------------------------------

  const GENERATIONS: nat := 0x4000_0000_0000_0000
  const MAX_GENERATION: nat := 0x3FFF_FFFF_FFFF_FFFF

  datatype LeaseState = Free | Attached | Detached | Exhausted

  function Raw(state: LeaseState): nat {
    match state case Free => 0 case Attached => 1 case Detached => 2 case Exhausted => 3
  }

  /** `LeaseState::from_raw` on the two state bits. */
  function FromRaw(raw: nat): LeaseState {
    if raw == 0 then Free else if raw == 1 then Attached else if raw == 2 then Detached else Exhausted
  }

  /** The generation is cut to 62 bits; the state sits above it. */
  function PackState(generation: nat, state: LeaseState): nat {
    generation % GENERATIONS + Raw(state) * GENERATIONS
  }

  function Generation(word: nat): nat { word % GENERATIONS }

  function StateOf(word: nat): LeaseState { FromRaw(word / GENERATIONS) }

  lemma UnpackState(generation: nat, state: LeaseState)
    ensures StateOf(PackState(generation, state)) == state
    ensures Generation(PackState(generation, state)) == generation <==> generation <= MAX_GENERATION
    ensures PackState(generation, state) < S.U64
    ensures generation <= MAX_GENERATION ==>
              PackState(generation, state)
              == match state
                 case Free => generation
                 case Attached => 0x4000_0000_0000_0000 + generation
                 case Detached => 0x8000_0000_0000_0000 + generation
                 case Exhausted => 0xC000_0000_0000_0000 + generation
  {
  }

  /** The arithmetic is the mask, shift and or of 64-bit words. */
  lemma PackStateIsBitwise(generation: nat, state: LeaseState)
    ensures PackState(generation, state) == Or(Raw(state) * Pow2(62), And(generation, MAX_GENERATION))
    ensures Generation(PackState(generation, state)) == And(PackState(generation, state), MAX_GENERATION)
  {
    Pow2Of62();
    AndLowMask(generation, 62);
    AndLowMask(PackState(generation, state), 62);
    OrShift(Raw(state), generation % GENERATIONS, 62);
  }

  lemma Pow2Of62()
    ensures Pow2(62) == GENERATIONS
  {
    Pow2Of32();
    Pow2Sum(32, 16);
    assert Pow2(8) == 256;
    Pow2Sum(8, 8);
    assert Pow2(7) == 128;
    Pow2Sum(7, 7);
    Pow2Sum(48, 14);
  }

  // ---- State -----------------------------------------------------------------------

  datatype Desc = Desc(pool: nat, page: nat, generation: nat)

  datatype ReleaseError =
    | PoolMismatch | BadPageId | StaleGeneration | LeaseStillAttached | NotLeased | PageExhausted | CorruptState
    | CorruptFreeList

  datatype Outcome =
    | Leased(page: nat, generation: nat)
    | AcquireEmpty
    | AcquireCorrupt(page: nat)
    | Handoff(page: nat, generation: nat)
    | ReleaseOk(desc: Desc)
    | ReleaseErr(desc: Desc, error: ReleaseError)

  /** `expected` is the state a release insists on: attached for a dropped lease, detached otherwise. */
  datatype Pc =
    | Ready
    | Allocating
    | AcquireLoop(page: nat)
    | AcquireLoaded(page: nat, cur: nat)
    | DetachLoop(desc: Desc)
    | DetachLoaded(desc: Desc, cur: nat)
    | ReleaseLoop(desc: Desc, expected: LeaseState)
    | ReleaseLoaded(desc: Desc, expected: LeaseState, cur: nat)
    | Freeing(desc: Desc, expected: LeaseState)
    | RevertLoop(desc: Desc, expected: LeaseState)
    | RevertLoaded(desc: Desc, expected: LeaseState, cur: nat)
    | Done(outcome: Outcome)

  /** Where a page is in its life. */
  datatype Stage =
    | OnFreeList
    | Popped(thread: nat)            // popped, not yet leased
    | Leasing(lease: Lease)          // attached
    | HandedOff                      // detached
    | Released(thread: nat)          // word already free, not yet pushed or reverted
    | WornOut                        // exhausted

  /** The lease object of an attached page: alive, consumed by a call in progress, or gone. */
  datatype Lease = Held | Used(thread: nat) | Lost

  /**
   * `freelist` and `words` are shared memory and `leases` the live lease objects. The rest is history:
   * stages, the (page, generation) pairs ever leased, the thread that released each pair, the pairs
   * whose release was reported Ok, and whether the pool ever called the free list outside its contract.
   */
  datatype Pool = Pool(
    id: nat, freelist: S.State, words: seq<nat>, pcs: map<nat, Pc>, leases: set<(nat, nat)>,
    stages: seq<Stage>, leased: set<(nat, nat)>, released: map<(nat, nat), nat>,
    reported: set<(nat, nat)>, misused: bool)
  {
    function At(t: nat, pc: Pc): Pool { this.(pcs := pcs[t := pc]) }

    function Write(page: nat, word: nat, stage: Stage): Pool
      requires page < |words| && page < |stages|
    {
      this.(words := words[page := word], stages := stages[page := stage])
    }
  }

  // ---- Steps --------------------------------------------------------------------------

  /** Call or continue the free list; calling it outside its contract is recorded. */
  function OnFreelist(s: Pool, t: nat, a: S.Action): Pool {
    if S.Enabled(s.freelist, t, a) then s.(freelist := S.Step(s.freelist, t, a)) else s.(misused := true)
  }

  /** One access inside the free list, moving the page it takes or links to its next stage. */
  function FreelistAccess(s: Pool, t: nat): Pool {
    if !S.Enabled(s.freelist, t, S.Access) then s.(misused := true)
    else
      var moved := s.(freelist := S.Step(s.freelist, t, S.Access));
      var op := S.Effect(s.freelist, t, S.Access);
      match op
      case Pop(i) => if i < |s.stages| then moved.(stages := s.stages[i := Popped(t)]) else moved
      case Push(i) =>
        if i < |s.stages| && i < |s.words|
        then moved.(stages := s.stages[i := OnFreeList], released := s.released[(i, Generation(s.words[i])) := t])
        else moved
      case _ => moved
  }

  /** The check a release makes on the word it loaded. */
  function ReleaseCheck(desc: Desc, expected: LeaseState, word: nat): Option<ReleaseError> {
    if Generation(word) != desc.generation then Some(StaleGeneration)
    else
      var state := StateOf(word);
      if state == expected then None
      else if expected.Detached? && state.Attached? then Some(LeaseStillAttached)
      else if state.Exhausted? then Some(PageExhausted)
      else if state.Free? then Some(NotLeased)
      else Some(CorruptState)
  }

  function Access(s: Pool, t: nat): Pool
    requires t in s.pcs && t in s.freelist.pcs && |s.stages| == |s.words|
  {
    var pc := s.pcs[t];
    match pc
    case Allocating =>
      if s.freelist.pcs[t].Returned? then
        var s' := OnFreelist(s, t, S.Collect);
        if s.freelist.pcs[t].outcome.Took? then s'.At(t, AcquireLoop(s.freelist.pcs[t].outcome.idx))
        else s'.At(t, Done(AcquireEmpty))
      else FreelistAccess(s, t)
    case AcquireLoop(p) =>
      if p >= |s.words| || !StateOf(s.words[p]).Free? || Generation(s.words[p]) + 1 >= S.U64
      then s.At(t, Done(AcquireCorrupt(p)))
      else s.At(t, AcquireLoaded(p, s.words[p]))
    case AcquireLoaded(p, cur) =>
      var g := Generation(cur) + 1;
      if p < |s.words| && s.words[p] == cur
      then s.Write(p, PackState(g, Attached), Leasing(Held))
            .(leases := s.leases + {(p, g)}, leased := s.leased + {(p, g)}).At(t, Done(Leased(p, g)))
      else s.At(t, AcquireLoop(p))
    case DetachLoop(d) =>
      if d.page < |s.words| && Generation(s.words[d.page]) == d.generation && StateOf(s.words[d.page]).Attached?
      then s.At(t, DetachLoaded(d, s.words[d.page]))
      else s.At(t, ReleaseLoop(d, Attached))   // the failed call drops its lease
    case DetachLoaded(d, cur) =>
      if d.page < |s.words| && s.words[d.page] == cur
      then s.Write(d.page, PackState(d.generation, Detached), HandedOff).At(t, Done(Handoff(d.page, d.generation)))
      else s.At(t, DetachLoop(d))
    case ReleaseLoop(d, expected) =>
      if d.pool != s.id then s.At(t, Done(ReleaseErr(d, PoolMismatch)))
      else if d.page >= |s.words| then s.At(t, Done(ReleaseErr(d, BadPageId)))
      else
        var refused := ReleaseCheck(d, expected, s.words[d.page]);
        if refused.Some? then s.At(t, Done(ReleaseErr(d, refused.value)))
        else s.At(t, ReleaseLoaded(d, expected, s.words[d.page]))
    case ReleaseLoaded(d, expected, cur) =>
      if d.page >= |s.words| || s.words[d.page] != cur then s.At(t, ReleaseLoop(d, expected))
      else if d.generation == MAX_GENERATION
      then s.Write(d.page, PackState(d.generation, Exhausted), WornOut)
            .(released := s.released[(d.page, d.generation) := t], reported := s.reported + {(d.page, d.generation)})
            .At(t, Done(ReleaseOk(d)))
      else OnFreelist(s.Write(d.page, PackState(d.generation, Free), Released(t)), t, S.CallPush(d.page))
            .At(t, Freeing(d, expected))
    case Freeing(d, expected) =>
      if s.freelist.pcs[t].Returned? then
        var s' := OnFreelist(s, t, S.Collect);
        if s.freelist.pcs[t].outcome.Full? then s'.At(t, RevertLoop(d, expected))
        else s'.(reported := s.reported + {(d.page, d.generation)}).At(t, Done(ReleaseOk(d)))
      else FreelistAccess(s, t)
    case RevertLoop(d, expected) =>
      if d.page < |s.words| && Generation(s.words[d.page]) == d.generation && StateOf(s.words[d.page]).Free?
      then s.At(t, RevertLoaded(d, expected, s.words[d.page]))
      else s.At(t, Done(ReleaseErr(d, CorruptFreeList)))
    case RevertLoaded(d, expected, cur) =>
      if d.page < |s.words| && s.words[d.page] == cur
      then s.Write(d.page, PackState(d.generation, expected), if expected.Attached? then Leasing(Lost) else HandedOff)
            .At(t, Done(ReleaseErr(d, CorruptFreeList)))
      else s.At(t, RevertLoop(d, expected))
    case Ready => s
    case Done(_) => s
  }

  /** Drop and detach consume a live lease; anybody may try to release any descriptor, stale ones included. */
  datatype Action = CallAcquire | CallDetach(page: nat, generation: nat) | CallDrop(page: nat, generation: nat)
                  | CallRelease(desc: Desc) | Continue | Collect

  predicate Allowed(s: Pool, t: nat, a: Action) {
    && t in s.pcs && t in s.freelist.pcs && |s.stages| == |s.words|
    && match a
       case CallAcquire => s.pcs[t].Ready?
       case CallDetach(p, g) => s.pcs[t].Ready? && (p, g) in s.leases
       case CallDrop(p, g) => s.pcs[t].Ready? && (p, g) in s.leases
       case CallRelease(_) => s.pcs[t].Ready?
       case Continue => !s.pcs[t].Ready? && !s.pcs[t].Done?
       case Collect => s.pcs[t].Done?
  }

  function Step(s: Pool, t: nat, a: Action): Pool
    requires Allowed(s, t, a)
  {
    match a
    case CallAcquire => OnFreelist(s, t, S.CallPop).At(t, Allocating)
    case CallDetach(p, g) => UseLease(s, t, p, g).At(t, DetachLoop(Desc(s.id, p, g)))
    case CallDrop(p, g) => UseLease(s, t, p, g).At(t, ReleaseLoop(Desc(s.id, p, g), Attached))
    case CallRelease(d) => s.At(t, ReleaseLoop(d, Detached))
    case Continue => Access(s, t)
    case Collect => s.At(t, Ready)
  }

  function UseLease(s: Pool, t: nat, p: nat, g: nat): Pool {
    s.(leases := s.leases - {(p, g)}, stages := if p < |s.stages| then s.stages[p := Leasing(Used(t))] else s.stages)
  }

  // ---- Invariant ---------------------------------------------------------------------------

  ghost predicate FreeWord(word: nat) {
    word == PackState(Generation(word), Free) && Generation(word) < MAX_GENERATION
  }

  /** Thread `t` is bringing page `p` from the free list to a lease. */
  ghost predicate Acquiring(s: Pool, t: nat, p: nat)
    requires t in s.pcs && t in s.freelist.pcs && p < |s.freelist.place|
  {
    var pc := s.pcs[t];
    match pc
    case Allocating =>
      (s.freelist.pcs[t] == S.PopWon(p) && s.freelist.place[p] == S.Popped(t))
      || (s.freelist.pcs[t] == S.Returned(S.Took(p)) && s.freelist.place[p].Out?)
    case AcquireLoop(q) => q == p && s.freelist.place[p].Out?
    case AcquireLoaded(q, _) => q == p && s.freelist.place[p].Out?
    case _ => false
  }

  /** Thread `t` is bringing page `p` of this generation back, or undoing that. */
  ghost predicate Returning(s: Pool, t: nat, p: nat, generation: nat)
    requires t in s.pcs && t in s.freelist.pcs && p < |s.freelist.place|
  {
    var pc := s.pcs[t];
    match pc
    case Freeing(d, _) =>
      d.page == p && d.generation == generation
      && ((S.Releasing(s.freelist.pcs[t], p) && s.freelist.place[p] == S.Pushing(t))
          || (s.freelist.pcs[t] == S.Returned(S.Full) && s.freelist.place[p].Out?))
    case RevertLoop(d, _) => d.page == p && d.generation == generation && s.freelist.place[p].Out?
    case RevertLoaded(d, _, _) => d.page == p && d.generation == generation && s.freelist.place[p].Out?
    case _ => false
  }

  ghost predicate UsesLease(pc: Pc, p: nat, generation: nat) {
    match pc
    case DetachLoop(d) => d.page == p && d.generation == generation
    case DetachLoaded(d, _) => d.page == p && d.generation == generation
    case ReleaseLoop(d, expected) => d.page == p && d.generation == generation && expected.Attached?
    case ReleaseLoaded(d, expected, _) => d.page == p && d.generation == generation && expected.Attached?
    case _ => false
  }

  ghost predicate Shaped(s: Pool) {
    && |s.words| == |s.stages| == |s.freelist.place| == |s.freelist.next|
    && s.pcs.Keys == s.freelist.pcs.Keys
  }

  /** The six stages, each tied to the word, the free list and the thread in charge. */
  ghost predicate StageOk(s: Pool, p: nat)
    requires Shaped(s) && p < |s.words|
  {
    var word, place := s.words[p], s.freelist.place[p];
    var stage := s.stages[p];
    match stage
    case OnFreeList => place.Stacked? && FreeWord(word)
    case Popped(t) => FreeWord(word) && t in s.pcs && Acquiring(s, t, p)
    case Leasing(lease) =>
      && word == PackState(Generation(word), Attached) && place.Out?
      && (lease.Held? ==> (p, Generation(word)) in s.leases)
      && (lease.Used? ==> lease.thread in s.pcs && UsesLease(s.pcs[lease.thread], p, Generation(word)))
    case HandedOff => word == PackState(Generation(word), Detached) && place.Out?
    case Released(t) => FreeWord(word) && t in s.pcs && Returning(s, t, p, Generation(word))
    case WornOut => word == PackState(MAX_GENERATION, Exhausted) && place.Out?
  }

  /** Thread `t` has consumed the lease of this descriptor. */
  ghost predicate HasLease(s: Pool, t: nat, d: Desc)
    requires Shaped(s)
  {
    d.pool == s.id && d.page < |s.words| && s.stages[d.page] == Leasing(Used(t))
        && Generation(s.words[d.page]) == d.generation
  }

  ghost predicate HasReleased(s: Pool, t: nat, d: Desc, expected: LeaseState)
    requires Shaped(s)
  {
    && (expected.Attached? || expected.Detached?)
    && d.page < |s.words| && s.stages[d.page] == Released(t) && Generation(s.words[d.page]) == d.generation
  }

  /** Thread `t` released this pair and has not reported it yet. */
  ghost predicate HasLinked(s: Pool, t: nat, d: Desc) {
    (d.page, d.generation) in s.released && s.released[(d.page, d.generation)] == t
        && (d.page, d.generation) !in s.reported
  }

  ghost predicate PcOk(s: Pool, t: nat)
    requires Shaped(s) && t in s.pcs
  {
    var inner := s.freelist.pcs[t];
    var pc := s.pcs[t];
    match pc
    case Allocating =>
      (match inner
       case PopLoop => true
       case PopLoaded(_, _) => true
       case PopRead(_, _, _) => true
       case PopWon(i) => i < |s.words| && s.stages[i] == Popped(t)
       case Returned(o) => o.Empty? || (o.Took? && o.idx < |s.words| && s.stages[o.idx] == Popped(t))
       case _ => false)
    case AcquireLoop(p) => inner.Idle? && p < |s.words| && s.stages[p] == Popped(t)
    case AcquireLoaded(p, cur) => inner.Idle? && p < |s.words| && s.stages[p] == Popped(t) && s.words[p] == cur
    case DetachLoop(d) => inner.Idle? && HasLease(s, t, d)
    case DetachLoaded(d, cur) => inner.Idle? && HasLease(s, t, d) && s.words[d.page] == cur
    case ReleaseLoop(d, expected) => inner.Idle? && (expected.Detached? || (expected.Attached? && HasLease(s, t, d)))
    case ReleaseLoaded(d, expected, cur) =>
      && inner.Idle? && (expected.Detached? || (expected.Attached? && HasLease(s, t, d) && s.words[d.page] == cur))
      && d.page < |s.words| && Generation(cur) == d.generation && StateOf(cur) == expected
    case Freeing(d, expected) =>
      && (expected.Attached? || expected.Detached?) && d.page < |s.words|
      && (match inner
          case PushStart(val) => val == d.page && HasReleased(s, t, d, expected)
          case PushLoop(val) => val == d.page && HasReleased(s, t, d, expected)
          case PushLoaded(val, _, _) => val == d.page && HasReleased(s, t, d, expected)
          case PushStored(val, _, _) => val == d.page && HasReleased(s, t, d, expected)
          case PushWon => HasLinked(s, t, d)
          case Returned(o) =>
            (o.Pushed? && HasLinked(s, t, d)) || (o.Full? && HasReleased(s, t, d, expected))
          case _ => false)
    case RevertLoop(d, expected) => inner.Idle? && HasReleased(s, t, d, expected)
    case RevertLoaded(d, expected, cur) => inner.Idle? && HasReleased(s, t, d, expected) && s.words[d.page] == cur
    case Ready => inner.Idle?
    case Done(outcome) => inner.Idle? && OutcomeOk(s, outcome)
  }

  /** What the results promise: no corruption is ever reported, and Ok means the pair is over. */
  ghost predicate OutcomeOk(s: Pool, outcome: Outcome) {
    match outcome
    case Leased(p, g) => (p, g) in s.leased
    case AcquireCorrupt(_) => false
    case ReleaseOk(d) => (d.page, d.generation) in s.reported
    case ReleaseErr(_, error) => !error.CorruptState?
    case _ => true
  }

  /** A released pair never comes back: the page is free, retired or already in a later generation. */
  ghost predicate Over(s: Pool, p: nat, g: nat) {
    && p < |s.words| && p < |s.stages| && g <= Generation(s.words[p])
    && (g == Generation(s.words[p]) ==> s.stages[p].OnFreeList? || s.stages[p].Popped? || s.stages[p].WornOut?)
  }

  ghost predicate HistoryOk(s: Pool)
    requires Shaped(s)
  {
    && (forall p, g :: (p, g) in s.leases ==>
          0 <= p < |s.words| && s.stages[p] == Leasing(Held) && g == Generation(s.words[p]))
    && (forall p, g :: (p, g) in s.leased ==> 0 <= p < |s.words| && g <= Generation(s.words[p]))
    && (forall p, g :: (p, g) in s.released ==> (p, g) in s.leased && Over(s, p, g))
    && (forall p, g :: (p, g) in s.reported ==> (p, g) in s.released)
    && (forall p: nat :: p < |s.words| && (s.stages[p].Leasing? || s.stages[p].HandedOff? || s.stages[p].Released?)
          ==> (p, Generation(s.words[p])) in s.leased)
  }

  ghost predicate Inv(s: Pool, free: seq<nat>) {
    && Shaped(s) && !s.misused
    && S.Inv(s.freelist, free)
    && (forall p: nat :: p < |s.words| ==> StageOk(s, p))
    && (forall t :: t in s.pcs ==> PcOk(s, t))
    && HistoryOk(s)
  }

  // ---- Preservation --------------------------------------------------------------------------

  predicate OwnedBy(stage: Stage, t: nat) {
    stage == Popped(t) || stage == Released(t) || stage == Leasing(Used(t))
  }

  /** Pairs are only added to the history, and `t` only reports what it released itself. */
  ghost predicate HistoryGrows(s: Pool, s': Pool, t: nat) {
    && s.leased <= s'.leased && s.reported <= s'.reported
    && (forall k :: k in s.released ==> k in s'.released && s'.released[k] == s.released[k])
    && (forall k :: k in s'.reported && k !in s.reported ==> k in s'.released && s'.released[k] == t)
  }

  /** A step of `t` that leaves the pages of the other threads alone leaves their promises intact. */
  lemma OthersKeep(s: Pool, s': Pool, t: nat)
    requires Shaped(s) && Shaped(s') && |s'.words| == |s.words| && s'.id == s.id && s'.pcs.Keys == s.pcs.Keys
    requires forall u :: u in s.pcs && u != t ==>
              s'.pcs[u] == s.pcs[u] && s'.freelist.pcs[u] == s.freelist.pcs[u] && PcOk(s, u)
    requires HistoryGrows(s, s', t)
    requires forall p: nat, u: nat :: p < |s.words| && u != t && OwnedBy(s.stages[p], u) ==>
               s'.stages[p] == s.stages[p] && s'.words[p] == s.words[p]
    ensures forall u :: u in s.pcs && u != t ==> PcOk(s', u)
  {
    hide PackState, Generation, StateOf, PcOk, HistoryGrows, OwnedBy;
    forall u | u in s.pcs && u != t ensures PcOk(s', u) {
      assert forall p: nat :: p < |s.words| && OwnedBy(s.stages[p], u) ==>
                s'.stages[p] == s.stages[p] && s'.words[p] == s.words[p];
      OtherKeeps(s, s', t, u);
    }
  }

  lemma OtherKeeps(s: Pool, s': Pool, t: nat, u: nat)
    requires Shaped(s) && Shaped(s') && |s'.words| == |s.words| && s'.id == s.id && u in s.pcs && u in s'.pcs && u != t
    requires s'.pcs[u] == s.pcs[u] && s'.freelist.pcs[u] == s.freelist.pcs[u] && PcOk(s, u) && HistoryGrows(s, s', t)
    requires forall p: nat :: p < |s.words| && OwnedBy(s.stages[p], u) ==>
              s'.stages[p] == s.stages[p] && s'.words[p] == s.words[p]
    ensures PcOk(s', u)
  {
    hide PackState, Generation, StateOf;
  }

  /** Pages whose word, stage and place stay, and whose thread is not `t`, stay in order. */
  lemma PageKeeps(s: Pool, s': Pool, t: nat, p: nat)
    requires Shaped(s) && Shaped(s') && |s'.words| == |s.words| && s'.pcs.Keys == s.pcs.Keys && p < |s.words|
    requires forall u :: u in s.pcs && u != t ==> s'.pcs[u] == s.pcs[u] && s'.freelist.pcs[u] == s.freelist.pcs[u]
    requires s'.stages[p] == s.stages[p] && s'.words[p] == s.words[p] && s'.freelist.place[p] == s.freelist.place[p]
    requires StageOk(s, p) && !OwnedBy(s.stages[p], t)
    requires (p, Generation(s.words[p])) in s.leases ==> (p, Generation(s.words[p])) in s'.leases
    ensures StageOk(s', p)
  {
    hide PackState, Generation, StateOf;
  }

  /** `s'` differs from `s` only in thread `t`, page `q` (none if negative) and growing history. */
  ghost predicate TouchesOnly(s: Pool, s': Pool, t: nat, q: int)
    requires Shaped(s)
  {
    && Shaped(s') && |s'.words| == |s.words| && s'.id == s.id && s'.pcs.Keys == s.pcs.Keys && s'.misused == s.misused
    && (forall u :: u in s.pcs && u != t ==> s'.pcs[u] == s.pcs[u] && s'.freelist.pcs[u] == s.freelist.pcs[u])
    && (forall p: nat :: p < |s.words| && p != q ==>
          && s'.stages[p] == s.stages[p] && s'.words[p] == s.words[p] && s'.freelist.place[p] == s.freelist.place[p]
          && ((p, Generation(s.words[p])) in s.leases ==> (p, Generation(s.words[p])) in s'.leases))
    && HistoryGrows(s, s', t)
  }

  /** Thread `t` is in charge of no page but `q`, and nobody else is in charge of `q`. */
  ghost predicate InCharge(s: Pool, t: nat, q: int) {
    && (forall p: nat :: p < |s.stages| && p != q ==> !OwnedBy(s.stages[p], t))
    && (0 <= q < |s.stages| ==> forall u: nat :: OwnedBy(s.stages[q], u) ==> u == t)
  }

  /** A step of `t` that touches no page but `q` keeps the invariant if it keeps it for `t` and `q`. */
  lemma Move(s: Pool, s': Pool, t: nat, q: int, free: seq<nat>, free': seq<nat>)
    requires Inv(s, free) && t in s.pcs && TouchesOnly(s, s', t, q) && InCharge(s, t, q)
    requires S.Inv(s'.freelist, free')
    requires 0 <= q < |s.words| ==> StageOk(s', q)
    requires PcOk(s', t) && HistoryOk(s')
    ensures Inv(s', free')
  {
    hide PackState, Generation, StateOf, S.Inv, HistoryOk, PcOk;
    OthersKeep(s, s', t);
    forall p: nat | p < |s'.words| ensures StageOk(s', p) {
      if p != q { PageKeeps(s, s', t, p); }
    }
  }

  /** A thread is in charge of at most one page. */
  lemma OwnsOne(s: Pool, t: nat, p: nat, q: nat)
    requires Shaped(s) && p < |s.words| && q < |s.words| && StageOk(s, p) && StageOk(s, q)
    requires OwnedBy(s.stages[p], t) && OwnedBy(s.stages[q], t)
    ensures p == q
  {
    hide PackState, Generation, StateOf;
  }

  lemma OwnsNothing(s: Pool, t: nat, free: seq<nat>)
    requires Inv(s, free) && t in s.pcs
    requires match s.pcs[t]
             case Ready => true
             case Done(_) => true
             case Allocating => !s.freelist.pcs[t].PopWon?
                 && !(s.freelist.pcs[t].Returned? && s.freelist.pcs[t].outcome.Took?)
             case ReleaseLoop(_, expected) => !expected.Attached?
             case ReleaseLoaded(_, expected, _) => !expected.Attached?
             case Freeing(_, _) => s.freelist.pcs[t].PushWon? || s.freelist.pcs[t] == S.Returned(S.Pushed)
             case _ => false
    ensures InCharge(s, t, -1)
  {
    hide PackState, Generation, StateOf, S.Inv, HistoryOk;
    forall p: nat | p < |s.words| ensures !OwnedBy(s.stages[p], t) {
      assert StageOk(s, p);
    }
  }

  lemma OwnsOnly(s: Pool, t: nat, q: nat, free: seq<nat>)
    requires Inv(s, free) && q < |s.words| && OwnedBy(s.stages[q], t)
    ensures InCharge(s, t, q)
  {
    hide PackState, Generation, StateOf, S.Inv, HistoryOk;
    forall p: nat | p < |s.words| && p != q ensures !OwnedBy(s.stages[p], t) {
      assert StageOk(s, p) && StageOk(s, q);
      if OwnedBy(s.stages[p], t) { OwnsOne(s, t, p, q); }
    }
  }

  lemma FreelistFrame(f: S.State, t: nat, a: S.Action)
    requires S.Enabled(f, t, a)
    ensures var f' := S.Step(f, t, a);
            && |f'.place| == |f.place| && |f'.next| == |f.next| && f'.pcs.Keys == f.pcs.Keys
            && (forall u :: u in f.pcs && u != t ==> f'.pcs[u] == f.pcs[u])
  {
  }

  /** A step that moves only the program counter of a thread in charge of no page. */
  lemma IdleMove(s: Pool, t: nat, pc: Pc, free: seq<nat>)
    requires Inv(s, free) && t in s.pcs
    requires InCharge(s, t, -1)
    requires PcOk(s.At(t, pc), t)
    ensures Inv(s.At(t, pc), free)
  {
    hide PackState, Generation, StateOf, S.Inv, PcOk, StageOk, InCharge;
    var s' := s.At(t, pc);
    assert TouchesOnly(s, s', t, -1);
    hide TouchesOnly;
    Move(s, s', t, -1, free, free);
  }

  /** A step that moves only the program counter of the thread in charge of page `q`. */
  lemma BusyMove(s: Pool, t: nat, pc: Pc, q: nat, free: seq<nat>)
    requires Inv(s, free) && t in s.pcs && q < |s.words| && OwnedBy(s.stages[q], t)
    requires PcOk(s.At(t, pc), t) && StageOk(s.At(t, pc), q)
    ensures Inv(s.At(t, pc), free)
  {
    hide PackState, Generation, StateOf, S.Inv, PcOk, StageOk, InCharge;
    OwnsOnly(s, t, q, free);
    var s' := s.At(t, pc);
    assert TouchesOnly(s, s', t, q);
    hide TouchesOnly;
    Move(s, s', t, q, free, free);
  }

  // ---- The steps one by one ------------------------------------------------------------------------

  /** Entering `allocate` or collecting a result changes nothing but the thread. */
  lemma CallTouches(s: Pool, t: nat, a: S.Action, s': Pool, free: seq<nat>)
    requires Inv(s, free) && t in s.pcs && (a.CallPop? || a.Collect?) && S.Enabled(s.freelist, t, a)
    requires s' == OnFreelist(s, t, a).(pcs := s'.pcs, reported := s'.reported) && t in s'.pcs
             && s'.pcs == s.pcs[t := s'.pcs[t]]
    requires HistoryGrows(s, s', t)
    ensures TouchesOnly(s, s', t, -1) && S.Inv(s'.freelist, free)
    ensures s'.words == s.words && s'.stages == s.stages && s'.freelist.place == s.freelist.place
  {
    hide PackState, Generation, StateOf;
    S.StepRefines(s.freelist, t, a, free);
    FreelistFrame(s.freelist, t, a);
    hide S.Inv, HistoryOk, StageOk, PcOk;
  }

  lemma SameHistory(s: Pool, s': Pool)
    requires Shaped(s) && Shaped(s') && HistoryOk(s) && s'.words == s.words && s'.stages == s.stages
    requires s'.leases == s.leases && s'.leased == s.leased && s'.released == s.released
    requires forall p: nat, g: nat :: (p, g) in s'.reported ==> (p, g) in s.released
    ensures HistoryOk(s')
  {
    hide PackState, Generation, StateOf;
  }

  lemma CallsFreelist(s: Pool, t: nat, a: S.Action, pc: Pc, free: seq<nat>)
    requires Inv(s, free) && t in s.pcs && (a.CallPop? || a.Collect?) && S.Enabled(s.freelist, t, a)
    requires InCharge(s, t, -1)
    requires Shaped(OnFreelist(s, t, a).At(t, pc)) ==> PcOk(OnFreelist(s, t, a).At(t, pc), t)
    ensures Inv(OnFreelist(s, t, a).At(t, pc), free)
  {
    hide PackState, Generation, StateOf, S.Inv, S.Step, S.Enabled, PcOk, StageOk;
    var s' := OnFreelist(s, t, a).At(t, pc);
    CallTouches(s, t, a, s', free);
    SameHistory(s, s');
    hide HistoryOk;
    Move(s, s', t, -1, free, free);
  }

  /** The thread in charge of `q` comes back from the free list with it. */
  lemma ReturnsWith(s: Pool, t: nat, pc: Pc, q: nat, free: seq<nat>)
    requires Inv(s, free) && t in s.pcs && S.Enabled(s.freelist, t, S.Collect) && q < |s.words|
             && OwnedBy(s.stages[q], t)
    requires Shaped(OnFreelist(s, t, S.Collect).At(t, pc)) ==>
               PcOk(OnFreelist(s, t, S.Collect).At(t, pc), t) && StageOk(OnFreelist(s, t, S.Collect).At(t, pc), q)
    ensures Inv(OnFreelist(s, t, S.Collect).At(t, pc), free)
  {
    hide PackState, Generation, StateOf, S.Inv, S.Step, S.Enabled, PcOk, StageOk, InCharge;
    var s' := OnFreelist(s, t, S.Collect).At(t, pc);
    CallTouches(s, t, S.Collect, s', free);
    SameHistory(s, s');
    OwnsOnly(s, t, q, free);
    hide HistoryOk;
    Move(s, s', t, q, free, free);
  }

  lemma ConsumesLease(s: Pool, t: nat, p: nat, g: nat, pc: Pc, free: seq<nat>)
    requires Inv(s, free) && t in s.pcs && s.pcs[t].Ready? && (p, g) in s.leases
    requires pc == DetachLoop(Desc(s.id, p, g)) || pc == ReleaseLoop(Desc(s.id, p, g), Attached)
    ensures Inv(UseLease(s, t, p, g).At(t, pc), free)
  {
    hide PackState, Generation, StateOf, S.Inv, TouchesOnly, InCharge, HistoryOk, Inv;
    LeaseIsHeld(s, p, g, free);
    LeaseTaken(s, t, p, g, pc, free);
    LeaseLeaves(s, t, p, g, pc, free);
    var s' := UseLease(s, t, p, g).At(t, pc);
    assert InCharge(s, t, p) by { FreeToTake(s, t, p, free); }
    Move(s, s', t, p, free, free);
  }

  lemma LeaseIsHeld(s: Pool, p: nat, g: nat, free: seq<nat>)
    requires Inv(s, free) && (p, g) in s.leases
    ensures Shaped(s) && p < |s.words| && s.stages[p] == Leasing(Held) && g == Generation(s.words[p])
            && S.Inv(s.freelist, free)
  {
    hide PackState, Generation, StateOf, S.Inv, PcOk, StageOk;
  }

  lemma FreeToTake(s: Pool, t: nat, p: nat, free: seq<nat>)
    requires Inv(s, free) && t in s.pcs && s.pcs[t].Ready? && p < |s.stages| && s.stages[p] == Leasing(Held)
    ensures InCharge(s, t, p)
  {
    hide PackState, Generation, StateOf, S.Inv, HistoryOk;
    OwnsNothing(s, t, free);
  }

  /** The page under the lease and the thread that took it. */
  lemma LeaseTaken(s: Pool, t: nat, p: nat, g: nat, pc: Pc, free: seq<nat>)
    requires Inv(s, free) && t in s.pcs && s.pcs[t].Ready? && (p, g) in s.leases && p < |s.words|
    requires pc == DetachLoop(Desc(s.id, p, g)) || pc == ReleaseLoop(Desc(s.id, p, g), Attached)
    ensures var s' := UseLease(s, t, p, g).At(t, pc); Shaped(s') && StageOk(s', p) && PcOk(s', t)
  {
    hide PackState, Generation, StateOf, S.Inv;
    assert PcOk(s, t) && StageOk(s, p);
  }

  lemma LeaseLeaves(s: Pool, t: nat, p: nat, g: nat, pc: Pc, free: seq<nat>)
    requires Inv(s, free) && t in s.pcs && s.pcs[t].Ready? && (p, g) in s.leases && p < |s.words|
    requires pc == DetachLoop(Desc(s.id, p, g)) || pc == ReleaseLoop(Desc(s.id, p, g), Attached)
    ensures var s' := UseLease(s, t, p, g).At(t, pc); Shaped(s') && TouchesOnly(s, s', t, p) && HistoryOk(s')
  {
    hide PackState, Generation, StateOf, S.Inv, PcOk, StageOk;
  }

  /** A step that writes one word touches one page. */
  lemma WriteTouches(s: Pool, s': Pool, t: nat, p: nat)
    requires Shaped(s) && t in s.pcs && t in s'.pcs && p < |s.words|
    requires s'.id == s.id && s'.freelist == s.freelist && s'.misused == s.misused && s'.pcs == s.pcs[t := s'.pcs[t]]
    requires |s'.words| == |s.words| == |s'.stages|
    requires s'.words == s.words[p := s'.words[p]] && s'.stages == s.stages[p := s'.stages[p]]
    requires HistoryGrows(s, s', t) && s.leases <= s'.leases
    ensures TouchesOnly(s, s', t, p)
  {
    hide PackState, Generation, StateOf;
  }

  /** The history still fits when a page moves on within its generation, or to a later one, without a lease. */
  lemma WriteHistory(s: Pool, s': Pool, p: nat)
    requires Shaped(s) && Shaped(s') && HistoryOk(s) && p < |s.words| == |s'.words|
    requires s'.words == s.words[p := s'.words[p]] && s'.stages == s.stages[p := s'.stages[p]]
    requires (p, Generation(s.words[p])) !in s.leases && Generation(s'.words[p]) >= Generation(s.words[p])
    requires s'.leases == s.leases + (if s'.stages[p] == Leasing(Held) then {(p, Generation(s'.words[p]))} else {})
    requires s.leased <= s'.leased <= s.leased + {(p, Generation(s'.words[p]))}
    requires s'.stages[p].Leasing? || s'.stages[p].HandedOff? || s'.stages[p].Released? || s'.stages[p].WornOut?
    requires (p, Generation(s'.words[p])) in s'.leased
    requires s.released.Keys <= s'.released.Keys <= s.released.Keys + {(p, Generation(s'.words[p]))}
    requires (p, Generation(s'.words[p])) in s'.released ==> s'.stages[p].WornOut?
    requires s'.reported <= s.reported + (s'.released.Keys - s.released.Keys)
    ensures HistoryOk(s')
  {
    hide PackState, StateOf, Generation;
    forall q: nat, g: nat | (q, g) in s'.released ensures (q, g) in s'.leased && Over(s', q, g) {
      assert q != p || g != Generation(s'.words[p]) ==> (q, g) in s.released;
    }
    forall q: nat, g: nat | (q, g) in s'.leases
      ensures q < |s'.words| && s'.stages[q] == Leasing(Held) && g == Generation(s'.words[q])
    {
      assert (q, g) in s.leases || q == p;
    }
  }

  /** The exchange in `try_acquire`: the page gets a generation it never had before. */
  lemma LeasesPage(s: Pool, t: nat, free: seq<nat>)
    requires Inv(s, free) && t in s.pcs && s.pcs[t].AcquireLoaded?
    ensures s.pcs[t].page < |s.words| && s.words[s.pcs[t].page] == s.pcs[t].cur
    ensures (s.pcs[t].page, Generation(s.pcs[t].cur) + 1) !in s.leased && Generation(s.pcs[t].cur) + 1 <= MAX_GENERATION
    ensures Inv(Access(s, t), free)
  {
    hide S.Inv, InCharge, TouchesOnly;
    var AcquireLoaded(p, cur) := s.pcs[t];
    assert PcOk(s, t) && StageOk(s, p);
    OwnsOnly(s, t, p, free);
    UnpackState(Generation(cur) + 1, Attached);
    hide PackState, Generation, StateOf;
    var s' := Access(s, t);
    WriteTouches(s, s', t, p);
    WriteHistory(s, s', p);
    hide HistoryOk;
    Move(s, s', t, p, free, free);
  }

  lemma HandsOff(s: Pool, t: nat, free: seq<nat>)
    requires Inv(s, free) && t in s.pcs && s.pcs[t].DetachLoaded?
    ensures Inv(Access(s, t), free)
  {
    hide S.Inv, InCharge, TouchesOnly;
    var DetachLoaded(d, cur) := s.pcs[t];
    assert PcOk(s, t) && StageOk(s, d.page);
    OwnsOnly(s, t, d.page, free);
    UnpackState(d.generation, Detached);
    hide PackState, Generation, StateOf;
    var s' := Access(s, t);
    WriteTouches(s, s', t, d.page);
    WriteHistory(s, s', d.page);
    hide HistoryOk;
    Move(s, s', t, d.page, free, free);
  }

  /** The state bits of a word and the stage of its page determine each other up to who is in charge. */
  lemma WordTellsStage(s: Pool, p: nat)
    requires Shaped(s) && p < |s.words| && StageOk(s, p)
    ensures StateOf(s.words[p]).Attached? <==> s.stages[p].Leasing?
    ensures StateOf(s.words[p]).Detached? <==> s.stages[p].HandedOff?
    ensures StateOf(s.words[p]).Exhausted? <==> s.stages[p].WornOut?
    ensures StateOf(s.words[p]).Free? <==> s.stages[p].OnFreeList? || s.stages[p].Popped? || s.stages[p].Released?
  {
    var g := Generation(s.words[p]);
    UnpackState(g, Free);
    UnpackState(g, Attached);
    UnpackState(g, Detached);
    UnpackState(MAX_GENERATION, Exhausted);
    hide PackState, StateOf;
  }

  lemma ReleaserOwns(s: Pool, t: nat, free: seq<nat>)
    requires Inv(s, free) && t in s.pcs && s.pcs[t].ReleaseLoaded?
    ensures var p := s.pcs[t].desc.page;
            && p < |s.words|
            && (s.words[p] == s.pcs[t].cur ==>
                  && (s.stages[p].Leasing? || s.stages[p].HandedOff?) && InCharge(s, t, p)
                  && s.freelist.place[p].Out? && Generation(s.words[p]) == s.pcs[t].desc.generation
                  && (p, s.pcs[t].desc.generation) !in s.leases && (p, s.pcs[t].desc.generation) in s.leased)
  {
    hide S.Inv, PackState, StateOf, Generation;
    var ReleaseLoaded(d, expected, cur) := s.pcs[t];
    assert PcOk(s, t) && StageOk(s, d.page);
    forall q: nat | q < |s.words| && q != d.page ensures !OwnedBy(s.stages[q], t) {
      assert StageOk(s, q);
    }
    if s.words[d.page] == cur {
      WordTellsStage(s, d.page);
    }
  }

  /** Releasing the last generation retires the page. */
  lemma Retires(s: Pool, t: nat, free: seq<nat>)
    requires Inv(s, free) && t in s.pcs && s.pcs[t].ReleaseLoaded?
    requires s.pcs[t].desc.page < |s.words| && s.words[s.pcs[t].desc.page] == s.pcs[t].cur
    requires s.pcs[t].desc.generation == MAX_GENERATION
    ensures (s.pcs[t].desc.page, s.pcs[t].desc.generation) !in s.released
    ensures Inv(Access(s, t), free)
  {
    hide S.Inv, InCharge, TouchesOnly;
    var ReleaseLoaded(d, expected, cur) := s.pcs[t];
    assert PcOk(s, t) && StageOk(s, d.page);
    ReleaserOwns(s, t, free);
    UnpackState(d.generation, Exhausted);
    hide PackState, Generation, StateOf;
    var s' := Access(s, t);
    WriteTouches(s, s', t, d.page);
    WriteHistory(s, s', d.page);
    hide HistoryOk;
    Move(s, s', t, d.page, free, free);
  }

  lemma GivesToFreelist(f: S.State, t: nat, p: nat, free: seq<nat>)
    requires S.Inv(f, free) && t in f.pcs && f.pcs[t].Idle? && p < |f.place| && f.place[p].Out?
    ensures S.Enabled(f, t, S.CallPush(p))
    ensures var f' := S.Step(f, t, S.CallPush(p));
            && S.Inv(f', free) && f'.next == f.next && f'.place == f.place[p := S.Pushing(t)]
            && f'.pcs == f.pcs[t := S.PushStart(p)]
  {
    S.StepRefines(f, t, S.CallPush(p), free);
  }

  /** The state after the exchange of `release_with_state` and the call into the free list. */
  lemma FreesShape(s: Pool, t: nat, free: seq<nat>)
    requires Inv(s, free) && t in s.pcs && s.pcs[t].ReleaseLoaded?
    requires s.pcs[t].desc.page < |s.words| && s.words[s.pcs[t].desc.page] == s.pcs[t].cur
    requires s.pcs[t].desc.generation != MAX_GENERATION
    ensures var (s', d) := (Access(s, t), s.pcs[t].desc);
            && s' == s.Write(d.page, PackState(d.generation, Free), Released(t))
                      .(freelist := s'.freelist, pcs := s.pcs[t := Freeing(d, s.pcs[t].expected)])
            && S.Inv(s'.freelist, free) && s'.freelist.next == s.freelist.next
            && s'.freelist.place == s.freelist.place[d.page := S.Pushing(t)]
            && s'.freelist.pcs == s.freelist.pcs[t := S.PushStart(d.page)]
  {
    hide PackState, Generation, StateOf;
    assert PcOk(s, t);
    ReleaserOwns(s, t, free);
    GivesToFreelist(s.freelist, t, s.pcs[t].desc.page, free);
    hide S.Inv, S.Step, S.Enabled;
  }

  lemma FreesHistory(s: Pool, s': Pool, p: nat, g: nat, t: nat)
    requires Shaped(s) && Shaped(s') && HistoryOk(s) && p < |s.words| && Generation(s.words[p]) == g <= MAX_GENERATION
    requires s.stages[p].Leasing? || s.stages[p].HandedOff?
    requires (p, g) !in s.leases
    requires s'.words == s.words[p := PackState(g, Free)] && s'.stages == s.stages[p := Released(t)]
    requires s'.leases == s.leases && s'.leased == s.leased && s'.released == s.released && s'.reported == s.reported
    ensures HistoryOk(s')
  {
    UnpackState(g, Free);
    hide PackState, Generation, StateOf;
  }

  lemma FreesInOrder(s: Pool, t: nat, d: Desc, expected: LeaseState)
    requires Shaped(s) && t in s.pcs && s.pcs[t] == Freeing(d, expected) && (expected.Attached? || expected.Detached?)
    requires d.page < |s.words| && d.generation < MAX_GENERATION
    requires s.words[d.page] == PackState(d.generation, Free) && s.stages[d.page] == Released(t)
    requires s.freelist.pcs[t] == S.PushStart(d.page) && s.freelist.place[d.page] == S.Pushing(t)
    ensures PcOk(s, t) && StageOk(s, d.page)
  {
    UnpackState(d.generation, Free);
  }

  /** Any earlier release frees the word, and only then gives the page to the free list. */
  lemma Frees(s: Pool, t: nat, free: seq<nat>)
    requires Inv(s, free) && t in s.pcs && s.pcs[t].ReleaseLoaded?
    requires s.pcs[t].desc.page < |s.words| && s.words[s.pcs[t].desc.page] == s.pcs[t].cur
    requires s.pcs[t].desc.generation != MAX_GENERATION
    ensures Inv(Access(s, t), free)
  {
    hide S.Inv, HistoryOk, InCharge, StageOk, TouchesOnly, PcOk, Access;
    FreesTouches(s, t, free);
    FreesKeeps(s, t, free);
    Move(s, Access(s, t), t, s.pcs[t].desc.page, free, free);
  }

  lemma FreesTouches(s: Pool, t: nat, free: seq<nat>)
    requires Inv(s, free) && t in s.pcs && s.pcs[t].ReleaseLoaded?
    requires s.pcs[t].desc.page < |s.words| && s.words[s.pcs[t].desc.page] == s.pcs[t].cur
    requires s.pcs[t].desc.generation != MAX_GENERATION
    ensures TouchesOnly(s, Access(s, t), t, s.pcs[t].desc.page) && InCharge(s, t, s.pcs[t].desc.page)
    ensures S.Inv(Access(s, t).freelist, free)
  {
    hide PackState, Generation, StateOf, S.Inv, S.Step, S.Enabled, HistoryOk, InCharge, StageOk, PcOk;
    ReleaserOwns(s, t, free);
    FreesShape(s, t, free);
    hide Access;
  }

  lemma FreesKeeps(s: Pool, t: nat, free: seq<nat>)
    requires Inv(s, free) && t in s.pcs && s.pcs[t].ReleaseLoaded?
    requires s.pcs[t].desc.page < |s.words| && s.words[s.pcs[t].desc.page] == s.pcs[t].cur
    requires s.pcs[t].desc.generation != MAX_GENERATION
    ensures var s' := Access(s, t);
            Shaped(s') && t in s'.pcs && |s'.words| == |s.words|
            && StageOk(s', s.pcs[t].desc.page) && PcOk(s', t) && HistoryOk(s')
  {
    hide PackState, Generation, StateOf, S.Inv, S.Step, S.Enabled, HistoryOk, InCharge, StageOk;
    var ReleaseLoaded(d, expected, cur) := s.pcs[t];
    assert PcOk(s, t);
    GenerationFits(cur);
    hide PcOk;
    ReleaserOwns(s, t, free);
    FreesShape(s, t, free);
    hide Access;
    FreesHistory(s, Access(s, t), d.page, d.generation, t);
    FreesInOrder(Access(s, t), t, d, expected);
  }

  lemma GenerationFits(word: nat)
    ensures Generation(word) <= MAX_GENERATION
  {
  }

  /** A refused push puts the word back as it was, exactly. */
  lemma Reverts(s: Pool, t: nat, free: seq<nat>)
    requires Inv(s, free) && t in s.pcs && s.pcs[t].RevertLoaded?
    ensures Inv(Access(s, t), free)
    ensures var d := s.pcs[t].desc;
            d.page < |s.words| && Access(s, t).words == s.words[d.page := PackState(d.generation, s.pcs[t].expected)]
  {
    hide S.Inv, InCharge, TouchesOnly;
    var RevertLoaded(d, expected, cur) := s.pcs[t];
    assert PcOk(s, t) && StageOk(s, d.page);
    OwnsOnly(s, t, d.page, free);
    UnpackState(d.generation, Attached);
    UnpackState(d.generation, Detached);
    hide PackState, Generation, StateOf;
    var s' := Access(s, t);
    WriteTouches(s, s', t, d.page);
    WriteHistory(s, s', d.page);
    hide HistoryOk;
    Move(s, s', t, d.page, free, free);
  }

  // ---- Accesses inside the free list ------------------------------------------------------------------

  ghost predicate InFreelist(s: Pool, t: nat, free: seq<nat>) {
    && Inv(s, free) && t in s.pcs && (s.pcs[t].Allocating? || s.pcs[t].Freeing?)
    && !s.freelist.pcs[t].Returned? && S.Timely(s.freelist, t)
  }

  /** The free list is always used within its contract, and stays a legal stack. */
  lemma FreelistOk(s: Pool, t: nat, free: seq<nat>)
    requires InFreelist(s, t, free)
    ensures S.Enabled(s.freelist, t, S.Access)
    ensures S.Legal(free, S.Effect(s.freelist, t, S.Access))
    ensures S.Inv(S.Step(s.freelist, t, S.Access), S.Apply(free, S.Effect(s.freelist, t, S.Access)))
  {
    hide PackState, Generation, StateOf;
    assert PcOk(s, t);
    S.AccessInBounds(s.freelist, t, free);
    S.StepRefines(s.freelist, t, S.Access, free);
  }

  ghost function FreeAfter(s: Pool, t: nat, free: seq<nat>): seq<nat>
    requires InFreelist(s, t, free)
  {
    FreelistOk(s, t, free);
    S.Apply(free, S.Effect(s.freelist, t, S.Access))
  }

  /** The page an access inside the free list is about, if any. */
  function Concerned(f: S.State, t: nat): int
    requires t in f.pcs
  {
    var pc := f.pcs[t];
    match pc
    case PopRead(cur, _, _) => if f.head == cur then S.HeadIdx(cur) else -1
    case PopWon(i) => i
    case PushStart(val) => val
    case PushLoop(val) => val
    case PushLoaded(val, _, _) => val
    case PushStored(val, _, _) => val
    case _ => -1
  }

  lemma PlaceFrame(f: S.State, t: nat)
    requires S.Enabled(f, t, S.Access)
    ensures forall p: nat :: p < |f.place| == |S.Step(f, t, S.Access).place| && p != Concerned(f, t) ==>
              S.Step(f, t, S.Access).place[p] == f.place[p]
    ensures var op := S.Effect(f, t, S.Access); op.Pop? || op.Push? ==> op.idx == Concerned(f, t)
  {
  }

  lemma AccessTouches(s: Pool, t: nat)
    requires Shaped(s) && S.Enabled(s.freelist, t, S.Access)
    requires S.Effect(s.freelist, t, S.Access).Push? ==>
               var i := S.Effect(s.freelist, t, S.Access).idx; i < |s.words| ==>
                   (i, Generation(s.words[i])) !in s.released
    ensures TouchesOnly(s, FreelistAccess(s, t), t, Concerned(s.freelist, t))
  {
    FreelistFrame(s.freelist, t, S.Access);
    PlaceFrame(s.freelist, t);
    hide PackState, Generation, StateOf, S.Step, S.Effect, S.Enabled, Concerned;
  }

  /** Outside the linking step the words and the released pairs stay, and a page can only become popped. */
  lemma AccessHistory(s: Pool, t: nat)
    requires Shaped(s) && HistoryOk(s) && S.Enabled(s.freelist, t, S.Access)
    requires !S.Effect(s.freelist, t, S.Access).Push?
    requires S.Effect(s.freelist, t, S.Access).Pop? ==>
               var i := S.Effect(s.freelist, t, S.Access).idx; i < |s.stages| ==> s.stages[i].OnFreeList?
    ensures Shaped(FreelistAccess(s, t)) && HistoryOk(FreelistAccess(s, t))
  {
    hide PackState, Generation, StateOf;
    AccessTouches(s, t);
  }

  lemma SearchesFreelist(s: Pool, t: nat, free: seq<nat>)
    requires InFreelist(s, t, free) && s.pcs[t].Allocating? && !s.freelist.pcs[t].PopWon?
    requires !S.Effect(s.freelist, t, S.Access).Pop?
    ensures Inv(FreelistAccess(s, t), FreeAfter(s, t, free))
  {
    hide PackState, Generation, StateOf, S.Inv, HistoryOk, InCharge, TouchesOnly;
    FreelistOk(s, t, free);
    assert PcOk(s, t);
    OwnsNothing(s, t, free);
    AccessTouches(s, t);
    AccessHistory(s, t);
    Move(s, FreelistAccess(s, t), t, -1, free, FreeAfter(s, t, free));
  }

  /** The page won by the exchange is on the free list, and nobody is in charge of it. */
  lemma PopTarget(s: Pool, t: nat, free: seq<nat>) returns (i: nat)
    requires InFreelist(s, t, free) && s.pcs[t].Allocating? && S.Enabled(s.freelist, t, S.Access)
    requires S.Effect(s.freelist, t, S.Access).Pop?
    ensures i == S.HeadIdx(s.freelist.pcs[t].cur) < |s.words| && s.stages[i].OnFreeList? && FreeWord(s.words[i])
    ensures InCharge(s, t, i)
  {
    hide PackState, Generation, StateOf, HistoryOk;
    i := S.HeadIdx(s.freelist.pcs[t].cur);
    FreelistOk(s, t, free);
    assert s.freelist.place[i].Stacked?;
    assert StageOk(s, i) && s.stages[i].OnFreeList?;
    hide S.Inv;
    OwnsNothing(s, t, free);
  }

  lemma PopsFromFreelist(s: Pool, t: nat, free: seq<nat>)
    requires InFreelist(s, t, free) && s.pcs[t].Allocating? && S.Enabled(s.freelist, t, S.Access)
    requires S.Effect(s.freelist, t, S.Access).Pop?
    ensures Inv(FreelistAccess(s, t), FreeAfter(s, t, free))
  {
    hide PackState, Generation, StateOf, HistoryOk, TouchesOnly, InCharge, S.Inv;
    FreelistOk(s, t, free);
    assert PcOk(s, t);
    var i := PopTarget(s, t, free);
    AccessTouches(s, t);
    AccessHistory(s, t);
    Move(s, FreelistAccess(s, t), t, i, free, FreeAfter(s, t, free));
  }

  lemma TakesFromFreelist(s: Pool, t: nat, free: seq<nat>)
    requires InFreelist(s, t, free) && s.pcs[t].Allocating? && s.freelist.pcs[t].PopWon?
    ensures Inv(FreelistAccess(s, t), FreeAfter(s, t, free))
  {
    hide PackState, Generation, StateOf, S.Inv, HistoryOk, TouchesOnly, InCharge;
    FreelistOk(s, t, free);
    assert PcOk(s, t);
    var i := s.freelist.pcs[t].idx;
    assert StageOk(s, i);
    OwnsOnly(s, t, i, free);
    AccessTouches(s, t);
    AccessHistory(s, t);
    Move(s, FreelistAccess(s, t), t, i, free, FreeAfter(s, t, free));
  }

  lemma WorksOnPush(s: Pool, t: nat, free: seq<nat>)
    requires InFreelist(s, t, free) && s.pcs[t].Freeing? && S.Releasing(s.freelist.pcs[t], s.pcs[t].desc.page)
    requires S.Effect(s.freelist, t, S.Access).Nothing?
    ensures Inv(FreelistAccess(s, t), FreeAfter(s, t, free))
  {
    hide PackState, Generation, StateOf, S.Inv, HistoryOk, TouchesOnly, InCharge;
    FreelistOk(s, t, free);
    assert PcOk(s, t);
    var p := s.pcs[t].desc.page;
    assert StageOk(s, p);
    OwnsOnly(s, t, p, free);
    AccessTouches(s, t);
    AccessHistory(s, t);
    Move(s, FreelistAccess(s, t), t, p, free, FreeAfter(s, t, free));
  }

  lemma LinkTarget(s: Pool, t: nat, free: seq<nat>)
    requires InFreelist(s, t, free) && s.pcs[t].Freeing? && S.Enabled(s.freelist, t, S.Access)
    requires S.Effect(s.freelist, t, S.Access).Push?
    ensures var d := s.pcs[t].desc;
            && d.page < |s.words| && s.stages[d.page] == Released(t) && Generation(s.words[d.page]) == d.generation
            && s.freelist.pcs[t].PushStored? && s.freelist.pcs[t].val == d.page
            && s.freelist.place[d.page] == S.Pushing(t)
            && (d.page, d.generation) !in s.released && FreeWord(s.words[d.page])
            && InCharge(s, t, d.page)
  {
    hide PackState, Generation, StateOf, InCharge, S.Inv;
    assert PcOk(s, t);
    var p := s.pcs[t].desc.page;
    assert StageOk(s, p);
    assert (p, s.pcs[t].desc.generation) in s.released ==> Over(s, p, s.pcs[t].desc.generation);
    OwnsOnly(s, t, p, free);
  }

  /** Linking the page makes it free; its generation is released here, once. */
  lemma LinksPage(s: Pool, t: nat, free: seq<nat>)
    requires InFreelist(s, t, free) && s.pcs[t].Freeing? && S.Enabled(s.freelist, t, S.Access)
    requires S.Effect(s.freelist, t, S.Access).Push?
    ensures (s.pcs[t].desc.page, s.pcs[t].desc.generation) !in s.released
    ensures FreelistAccess(s, t).released == s.released[(s.pcs[t].desc.page, s.pcs[t].desc.generation) := t]
    ensures Inv(FreelistAccess(s, t), FreeAfter(s, t, free))
  {
    hide PackState, Generation, StateOf, TouchesOnly, InCharge, S.Inv;
    LinkTarget(s, t, free);
    FreelistOk(s, t, free);
    assert PcOk(s, t);
    var p := s.pcs[t].desc.page;
    assert (p, s.pcs[t].desc.generation) !in s.reported;
    AccessTouches(s, t);
    LinkHistory(s, FreelistAccess(s, t), p, t);
    hide HistoryOk;
    Move(s, FreelistAccess(s, t), t, p, free, FreeAfter(s, t, free));
  }

  lemma LinkHistory(s: Pool, s': Pool, p: nat, t: nat)
    requires Shaped(s) && Shaped(s') && HistoryOk(s) && p < |s.words| && s.stages[p] == Released(t)
    requires s'.words == s.words && s'.stages == s.stages[p := OnFreeList]
    requires s'.leases == s.leases && s'.leased == s.leased && s'.reported == s.reported
    requires s'.released == s.released[(p, Generation(s.words[p])) := t]
    ensures HistoryOk(s')
  {
    hide PackState, Generation, StateOf;
  }

  lemma CountsPush(s: Pool, t: nat, free: seq<nat>)
    requires InFreelist(s, t, free) && s.pcs[t].Freeing? && s.freelist.pcs[t].PushWon?
    ensures Inv(FreelistAccess(s, t), FreeAfter(s, t, free))
  {
    hide PackState, Generation, StateOf, S.Inv, HistoryOk, TouchesOnly, InCharge;
    FreelistOk(s, t, free);
    assert PcOk(s, t);
    OwnsNothing(s, t, free);
    AccessTouches(s, t);
    AccessHistory(s, t);
    Move(s, FreelistAccess(s, t), t, -1, free, FreeAfter(s, t, free));
  }

  // ---- Every step keeps the invariant --------------------------------------------------------------------

  lemma AccessesFreelist(s: Pool, t: nat, free: seq<nat>)
    requires InFreelist(s, t, free)
    ensures Inv(FreelistAccess(s, t), FreeAfter(s, t, free))
  {
    hide S.Inv, HistoryOk, StageOk, FreelistAccess, FreeAfter;
    assert PcOk(s, t);
    FreelistOk(s, t, free);
    if s.pcs[t].Allocating? {
      if s.freelist.pcs[t].PopWon? { TakesFromFreelist(s, t, free); }
      else if S.Effect(s.freelist, t, S.Access).Pop? { PopsFromFreelist(s, t, free); }
      else { SearchesFreelist(s, t, free); }
    } else {
      if s.freelist.pcs[t].PushWon? { CountsPush(s, t, free); }
      else if S.Effect(s.freelist, t, S.Access).Push? { LinksPage(s, t, free); }
      else { WorksOnPush(s, t, free); }
    }
  }

  lemma ReturnsFromAllocate(s: Pool, t: nat, free: seq<nat>)
    requires Inv(s, free) && t in s.pcs && s.pcs[t].Allocating? && s.freelist.pcs[t].Returned?
    ensures Inv(Access(s, t), free)
  {
    hide S.Inv, HistoryOk, PackState, StateOf, Generation, InCharge;
    assert PcOk(s, t);
    var outcome := s.freelist.pcs[t].outcome;
    assert S.Enabled(s.freelist, t, S.Collect) by { ShapedFreelist(s, free); }
    if outcome.Took? {
      assert StageOk(s, outcome.idx);
      ReturnsWith(s, t, AcquireLoop(outcome.idx), outcome.idx, free);
    } else {
      OwnsNothing(s, t, free);
      CallsFreelist(s, t, S.Collect, Done(AcquireEmpty), free);
    }
  }

  lemma ShapedFreelist(s: Pool, free: seq<nat>)
    requires Inv(s, free)
    ensures |s.freelist.place| == |s.freelist.next|
  {
  }

  /** A release is reported Ok at most once per page and generation. */
  lemma ReportsOk(s: Pool, t: nat, free: seq<nat>)
    requires Inv(s, free) && t in s.pcs && s.pcs[t].Freeing? && s.freelist.pcs[t] == S.Returned(S.Pushed)
    ensures Access(s, t).pcs[t] == Done(ReleaseOk(s.pcs[t].desc))
    ensures (s.pcs[t].desc.page, s.pcs[t].desc.generation) !in s.reported
    ensures (s.pcs[t].desc.page, s.pcs[t].desc.generation) in Access(s, t).reported
    ensures Inv(Access(s, t), free)
  {
    hide PackState, Generation, StateOf, InCharge, StageOk, S.Inv;
    assert PcOk(s, t);
    ShapedFreelist(s, free);
    OwnsNothing(s, t, free);
    var s' := Access(s, t);
    CallTouches(s, t, S.Collect, s', free);
    SameHistory(s, s');
    hide HistoryOk;
    Move(s, s', t, -1, free, free);
  }

  lemma ReturnsFromFreeing(s: Pool, t: nat, free: seq<nat>)
    requires Inv(s, free) && t in s.pcs && s.pcs[t].Freeing? && s.freelist.pcs[t].Returned?
    ensures Inv(Access(s, t), free)
  {
    hide S.Inv, HistoryOk, PackState, StateOf, Generation, InCharge;
    assert PcOk(s, t);
    var Freeing(d, expected) := s.pcs[t];
    assert S.Enabled(s.freelist, t, S.Collect) by { ShapedFreelist(s, free); }
    if s.freelist.pcs[t].outcome.Full? {
      assert StageOk(s, d.page);
      ReturnsWith(s, t, RevertLoop(d, expected), d.page, free);
    } else {
      ReportsOk(s, t, free);
    }
  }

  /** The word a thread reads while in charge of a page is the one its stage promises. */
  lemma ReadsOwnPage(s: Pool, t: nat, p: nat)
    requires Shaped(s) && t in s.pcs && p < |s.words| && StageOk(s, p)
    ensures s.stages[p] == Popped(t) || s.stages[p] == Released(t) ==>
              StateOf(s.words[p]).Free? && Generation(s.words[p]) + 1 < S.U64
    ensures s.stages[p] == Leasing(Used(t)) ==> StateOf(s.words[p]).Attached?
  {
    WordTellsStage(s, p);
    GenerationFits(s.words[p]);
  }

  lemma LoadsWord(s: Pool, t: nat, free: seq<nat>)
    requires Inv(s, free) && t in s.pcs
    requires s.pcs[t].AcquireLoop? || s.pcs[t].DetachLoop? || s.pcs[t].RevertLoop?
             || (s.pcs[t].ReleaseLoop? && s.pcs[t].expected.Attached?)
    ensures Inv(Access(s, t), free)
  {
    hide S.Inv, HistoryOk, PackState, StateOf, Generation;
    assert PcOk(s, t);
    var p := if s.pcs[t].AcquireLoop? then s.pcs[t].page else s.pcs[t].desc.page;
    assert StageOk(s, p);
    ReadsOwnPage(s, t, p);
    var pc := match s.pcs[t]
              case AcquireLoop(_) => AcquireLoaded(p, s.words[p])
              case DetachLoop(d) => DetachLoaded(d, s.words[p])
              case RevertLoop(d, expected) => RevertLoaded(d, expected, s.words[p])
              case ReleaseLoop(d, expected) => ReleaseLoaded(d, expected, s.words[p])
              case _ => Ready;
    BusyMove(s, t, pc, p, free);
  }

  /** A caller's descriptor may be anything; each refusal leaves the pool alone. */
  lemma LoadsForeignWord(s: Pool, t: nat, free: seq<nat>)
    requires Inv(s, free) && t in s.pcs && s.pcs[t].ReleaseLoop? && s.pcs[t].expected.Detached?
    ensures Inv(Access(s, t), free)
  {
    hide S.Inv, HistoryOk, PackState, StateOf, Generation, InCharge;
    assert PcOk(s, t);
    OwnsNothing(s, t, free);
    IdleMove(s, t, Access(s, t).pcs[t], free);
  }

  lemma ExchangesForRelease(s: Pool, t: nat, free: seq<nat>)
    requires Inv(s, free) && t in s.pcs && s.pcs[t].ReleaseLoaded?
    ensures Inv(Access(s, t), free)
  {
    hide S.Inv, HistoryOk, PackState, StateOf, Generation, InCharge, StageOk;
    assert PcOk(s, t);
    var ReleaseLoaded(d, expected, cur) := s.pcs[t];
    if s.words[d.page] != cur {
      OwnsNothing(s, t, free);
      IdleMove(s, t, ReleaseLoop(d, expected), free);
    } else if d.generation == MAX_GENERATION {
      Retires(s, t, free);
    } else {
      Frees(s, t, free);
    }
  }

  lemma ContinueKeeps(s: Pool, t: nat, free: seq<nat>) returns (free': seq<nat>)
    requires Inv(s, free) && Allowed(s, t, Continue) && S.Timely(s.freelist, t)
    ensures Inv(Access(s, t), free')
  {
    hide Inv, FreelistAccess;
    free' := free;
    UnfoldInv(s, t, free);
    match s.pcs[t]
    case Allocating =>
      if s.freelist.pcs[t].Returned? { ReturnsFromAllocate(s, t, free); }
      else { AccessesFreelist(s, t, free); free' := FreeAfter(s, t, free); }
    case Freeing(_, _) =>
      if s.freelist.pcs[t].Returned? { ReturnsFromFreeing(s, t, free); }
      else { AccessesFreelist(s, t, free); free' := FreeAfter(s, t, free); }
    case AcquireLoaded(_, _) => LeasesPage(s, t, free);
    case DetachLoaded(_, _) => HandsOff(s, t, free);
    case ReleaseLoaded(_, _, _) => ExchangesForRelease(s, t, free);
    case RevertLoaded(_, _, _) => Reverts(s, t, free);
    case ReleaseLoop(_, expected) =>
      if expected.Attached? { LoadsWord(s, t, free); } else { LoadsForeignWord(s, t, free); }
    case _ => LoadsWord(s, t, free);
  }

  lemma UnfoldInv(s: Pool, t: nat, free: seq<nat>)
    requires Inv(s, free) && t in s.pcs
    ensures Shaped(s) && PcOk(s, t)
  {
  }

  /** Every step of every thread keeps every page in exactly one stage and the free list within its contract. */
  lemma StepKeeps(s: Pool, t: nat, a: Action, free: seq<nat>) returns (free': seq<nat>)
    requires Inv(s, free) && Allowed(s, t, a) && S.Timely(s.freelist, t)
    ensures Inv(Step(s, t, a), free')
  {
    hide S.Inv, HistoryOk, PackState, StateOf, Generation, StageOk, InCharge;
    free' := free;
    assert PcOk(s, t);
    match a
    case CallAcquire =>
      OwnsNothing(s, t, free);
      ShapedFreelist(s, free);
      CallsFreelist(s, t, S.CallPop, Allocating, free);
    case CallDetach(p, g) => ConsumesLease(s, t, p, g, DetachLoop(Desc(s.id, p, g)), free);
    case CallDrop(p, g) => ConsumesLease(s, t, p, g, ReleaseLoop(Desc(s.id, p, g), Attached), free);
    case CallRelease(d) =>
      OwnsNothing(s, t, free);
      IdleMove(s, t, ReleaseLoop(d, Detached), free);
    case Continue => free' := ContinueKeeps(s, t, free);
    case Collect =>
      OwnsNothing(s, t, free);
      IdleMove(s, t, Ready, free);
  }

  // ---- Whole runs ---------------------------------------------------------------------------------------------

  /** Threads take turns in any order; each call is one the pool's users may make. */
  ghost predicate IsRun(states: seq<Pool>, sched: seq<(nat, Action)>) {
    && |states| == |sched| + 1
    && forall k :: 0 <= k < |sched| ==>
         && Allowed(states[k], sched[k].0, sched[k].1) && S.Timely(states[k].freelist, sched[k].0)
         && states[k + 1] == Step(states[k], sched[k].0, sched[k].1)
  }

  lemma {:induction false} Reaches(states: seq<Pool>, sched: seq<(nat, Action)>, free: seq<nat>, k: nat)
      returns (free': seq<nat>)
    requires IsRun(states, sched) && Inv(states[0], free) && k <= |sched|
    ensures Inv(states[k], free')
  {
    hide Inv, Step, Allowed;
    free' := free;
    if k > 0 {
      var before := Reaches(states, sched, free, k - 1);
      free' := StepKeeps(states[k - 1], sched[k - 1].0, sched[k - 1].1, before);
    }
  }

  ghost predicate Remembers(s: Pool, s': Pool) {
    s.leased <= s'.leased && s.released.Keys <= s'.released.Keys && s.reported <= s'.reported
  }

  lemma StepRemembers(s: Pool, t: nat, a: Action)
    requires Allowed(s, t, a)
    ensures Remembers(s, Step(s, t, a))
  {
    hide PackState, Generation, StateOf, S.Step, S.Enabled, S.Effect, ReleaseCheck;
  }

  lemma RemembersSelf(s: Pool)
    ensures Remembers(s, s)
  {
  }

  lemma RemembersOn(s: Pool, s': Pool, s'': Pool)
    requires Remembers(s, s') && Remembers(s', s'')
    ensures Remembers(s, s'')
  {
  }

  lemma {:induction false} RunRemembers(states: seq<Pool>, sched: seq<(nat, Action)>, i: nat, j: nat)
    requires IsRun(states, sched) && i <= j <= |sched|
    ensures Remembers(states[i], states[j])
    decreases j - i
  {
    hide Step, Allowed, Remembers, S.Timely;
    RemembersSelf(states[i]);
    if i < j {
      RunRemembers(states, sched, i, j - 1);
      StepRemembers(states[j - 1], sched[j - 1].0, sched[j - 1].1);
      RemembersOn(states[i], states[j - 1], states[j]);
    }
  }

  /** Step `k` makes a `try_acquire` succeed with this page and generation. */
  ghost predicate Leases(states: seq<Pool>, sched: seq<(nat, Action)>, k: nat, p: nat, g: nat)
    requires IsRun(states, sched)
  {
    && k < |sched| && sched[k].1 == Continue && sched[k].0 in states[k + 1].pcs
    && states[k].pcs[sched[k].0].AcquireLoaded? && states[k + 1].pcs[sched[k].0] == Done(Leased(p, g))
  }

  /** Step `k` makes a release, by call or by drop, return Ok for this page and generation. */
  ghost predicate ReleasesOk(states: seq<Pool>, sched: seq<(nat, Action)>, k: nat, d: Desc)
    requires IsRun(states, sched)
  {
    && k < |sched| && sched[k].1 == Continue && sched[k].0 in states[k + 1].pcs
    && states[k + 1].pcs[sched[k].0] == Done(ReleaseOk(d))
  }

  lemma LeaseIsNew(states: seq<Pool>, sched: seq<(nat, Action)>, free: seq<nat>, k: nat, p: nat, g: nat)
    requires IsRun(states, sched) && Inv(states[0], free) && Leases(states, sched, k, p, g)
    ensures (p, g) !in states[k].leased && (p, g) in states[k + 1].leased
  {
    hide Inv, PackState, Generation, StateOf, S.Step, S.Enabled, FreelistAccess, OnFreelist;
    var here := Reaches(states, sched, free, k);
    LeasesPage(states[k], sched[k].0, here);
  }

  /** Over any run each (page, generation) is leased at most once. */
  lemma LeasedOnce(states: seq<Pool>, sched: seq<(nat, Action)>, free: seq<nat>, i: nat, j: nat, p: nat, g: nat)
    requires IsRun(states, sched) && Inv(states[0], free)
    requires Leases(states, sched, i, p, g) && Leases(states, sched, j, p, g)
    ensures i == j
  {
    hide Inv, Step, Allowed, IsRun, Leases;
    LeaseIsNew(states, sched, free, i, p, g);
    LeaseIsNew(states, sched, free, j, p, g);
    RunLength(states, sched, i, p, g);
    RunLength(states, sched, j, p, g);
    if i < j { RunRemembers(states, sched, i + 1, j); }
    if j < i { RunRemembers(states, sched, j + 1, i); }
  }

  lemma RunLength(states: seq<Pool>, sched: seq<(nat, Action)>, k: nat, p: nat, g: nat)
    requires IsRun(states, sched) && Leases(states, sched, k, p, g)
    ensures k < |sched| == |states| - 1
  {
  }

  lemma OkIsNew(states: seq<Pool>, sched: seq<(nat, Action)>, free: seq<nat>, k: nat, d: Desc)
    requires IsRun(states, sched) && Inv(states[0], free) && ReleasesOk(states, sched, k, d)
    ensures (d.page, d.generation) !in states[k].reported && (d.page, d.generation) in states[k + 1].reported
    ensures (d.page, d.generation) in states[k + 1].released
  {
    hide Inv, PackState, Generation, StateOf, S.Step, S.Enabled, FreelistAccess, OnFreelist, StageOk, HistoryOk;
    var here := Reaches(states, sched, free, k);
    var after := Reaches(states, sched, free, k + 1);
    var (s, t) := (states[k], sched[k].0);
    UnfoldInv(s, t, here);
    ReportedReleased(states[k + 1], after);
    ReportedReleased(s, here);
    OkComesFrom(s, t, d);
    if s.pcs[t].Freeing? { ReportsOk(s, t, here); } else { Retires(s, t, here); }
  }

  lemma ReportedReleased(s: Pool, free: seq<nat>)
    requires Inv(s, free)
    ensures forall p, g :: (p, g) in s.reported ==> (p, g) in s.released
  {
  }

  lemma OkComesFrom(s: Pool, t: nat, d: Desc)
    requires Shaped(s) && t in s.pcs && PcOk(s, t) && !s.pcs[t].Done? && Access(s, t).pcs[t] == Done(ReleaseOk(d))
    ensures (s.pcs[t].Freeing? && s.freelist.pcs[t] == S.Returned(S.Pushed) && s.pcs[t].desc == d)
         || (s.pcs[t].ReleaseLoaded? && s.pcs[t].desc == d && d.page < |s.words| && s.words[d.page] == s.pcs[t].cur
             && d.generation == MAX_GENERATION)
  {
    hide PackState, Generation, StateOf, S.Step, S.Enabled, S.Effect;
  }

  /** Over any run at most one release of a (page, generation) returns Ok. */
  lemma ReleasedOnce(states: seq<Pool>, sched: seq<(nat, Action)>, free: seq<nat>, i: nat, j: nat, d: Desc, e: Desc)
    requires IsRun(states, sched) && Inv(states[0], free)
    requires ReleasesOk(states, sched, i, d) && ReleasesOk(states, sched, j, e)
    requires d.page == e.page && d.generation == e.generation
    ensures i == j
  {
    hide Inv, Step, Allowed;
    OkIsNew(states, sched, free, i, d);
    OkIsNew(states, sched, free, j, e);
    if i < j { RunRemembers(states, sched, i + 1, j); }
    if j < i { RunRemembers(states, sched, j + 1, i); }
  }

  datatype AccessError = AccessPoolMismatch | AccessBadPageId | AccessStale | AccessStillAttached | AccessExhausted
    | AccessNotLeased

  /** The check before a detached page's bytes are handed out. */
  function ValidateDetached(s: Pool, d: Desc): Option<AccessError> {
    if d.pool != s.id then Some(AccessPoolMismatch)
    else if d.page >= |s.words| then Some(AccessBadPageId)
    else if Generation(s.words[d.page]) != d.generation then Some(AccessStale)
    else match StateOf(s.words[d.page])
         case Detached => None
         case Attached => Some(AccessStillAttached)
         case Exhausted => Some(AccessExhausted)
         case Free => Some(AccessNotLeased)
  }

  /** A pair once released is refused by every release and every access check. */
  lemma OverIsRefused(s: Pool, free: seq<nat>, d: Desc, expected: LeaseState)
    requires Inv(s, free) && (d.page, d.generation) in s.released && (expected.Attached? || expected.Detached?)
    ensures d.page < |s.words| && ReleaseCheck(d, expected, s.words[d.page]).Some? && ValidateDetached(s, d).Some?
  {
    hide PackState, StateOf, Generation, S.Inv;
    assert Over(s, d.page, d.generation);
    assert StageOk(s, d.page);
    WordTellsStage(s, d.page);
  }

  /** Once a release returned Ok, its descriptor is refused in every later state of the run. */
  lemma RefusedForever(states: seq<Pool>, sched: seq<(nat, Action)>, free: seq<nat>, k: nat, d: Desc, m: nat,
                       expected: LeaseState)
    requires IsRun(states, sched) && Inv(states[0], free) && ReleasesOk(states, sched, k, d) && k < m <= |sched|
    requires expected.Attached? || expected.Detached?
    ensures d.page < |states[m].words| && ReleaseCheck(d, expected, states[m].words[d.page]).Some?
    ensures ValidateDetached(states[m], d).Some?
  {
    hide Inv, Step, Allowed;
    OkIsNew(states, sched, free, k, d);
    RunRemembers(states, sched, k + 1, m);
    var there := Reaches(states, sched, free, m);
    OverIsRefused(states[m], there, d, expected);
  }

  /** The bytes of a detached page are reachable exactly while the page is detached in that generation. */
  lemma AccessExactlyDetached(s: Pool, free: seq<nat>, d: Desc)
    requires Inv(s, free)
    ensures ValidateDetached(s, d).None? <==>
              d.pool == s.id && d.page < |s.words| && s.stages[d.page].HandedOff?
                  && Generation(s.words[d.page]) == d.generation
  {
    hide PackState, StateOf, Generation, S.Inv;
    if d.page < |s.words| {
      assert StageOk(s, d.page);
      WordTellsStage(s, d.page);
    }
  }

  /**
   * No word was ever truncated: each holds a generation of 62 bits, and a page that can still be leased is below the
   * last.
   */
  lemma NeverTruncated(s: Pool, free: seq<nat>, p: nat)
    requires Inv(s, free) && p < |s.words|
    ensures s.words[p] == PackState(Generation(s.words[p]), StateOf(s.words[p]))
    ensures StateOf(s.words[p]).Free? ==> Generation(s.words[p]) < MAX_GENERATION
  {
    hide PackState, StateOf, Generation, S.Inv;
    assert StageOk(s, p);
    WordTellsStage(s, p);
    UnpackState(MAX_GENERATION, Exhausted);
  }

  /** A fresh pool: every page free at generation zero. */
  method InitInPlace(id: nat, pageCount: nat, threads: set<nat>) returns (s: Pool)
    requires pageCount <= S.NONE
    ensures Inv(s, S.Descending(pageCount)) && |s.words| == pageCount && s.leased == {} && s.id == id
    ensures s.pcs.Keys == threads
  {
    var words: seq<nat> := [];
    for i := 0 to pageCount
      invariant |words| == i && forall p :: 0 <= p < i ==> words[p] == PackState(0, Free)
    {
      words := words + [PackState(0, Free)];
    }
    var freelist := S.InitInPlace(pageCount, threads);
    s := Pool(id, freelist, words, map t | t in threads :: Ready, {}, seq(pageCount, _ => OnFreeList), {}, map[], {},
              false);
    UnpackState(0, Free);
    hide PackState, StateOf, Generation, S.Inv;
    assert s.pcs.Keys == threads == freelist.pcs.Keys;
    forall p: nat | p < pageCount ensures StageOk(s, p) {}
  }

  /**
   * In every reachable state no call has reported corruption, and the free list was always used within its contract.
   */
  lemma NeverCorrupt(states: seq<Pool>, sched: seq<(nat, Action)>, free: seq<nat>, k: nat, t: nat)
    requires IsRun(states, sched) && Inv(states[0], free) && k <= |sched| && t in states[k].pcs
    ensures !states[k].misused
    ensures forall p :: states[k].pcs[t] != Done(AcquireCorrupt(p))
    ensures forall d :: states[k].pcs[t] != Done(ReleaseErr(d, CorruptState))
  {
    hide PackState, StateOf, Generation, S.Inv, StageOk, HistoryOk;
    var there := Reaches(states, sched, free, k);
    assert PcOk(states[k], t);
  }
}
