/** Logical scans: the producer role, the backend coordinator and the worker fan-in, with their state tables. */
module ScanFlow {
  import opened Common

  datatype FlowId = FlowId(sessionEpoch: nat, scanId: nat)

  datatype Role = Leader | Follower

  datatype ProducerDescriptor = ProducerDescriptor(id: nat, role: Role)

  datatype ScanOpen = ScanOpen(flow: FlowId, kind: nat, flags: nat, producers: seq<ProducerDescriptor>)

  // ---- Transition tables -------------------------------------------------------

  datatype ProducerState = PClosed | POpened | PStreaming | PTerminal
  datatype ProducerEvent = POpen | PEmitPage | PEmitEof | PEmitError | PClose

  function ProducerTable(state: ProducerState, event: ProducerEvent): Option<ProducerState> {
    match (state, event)
    case (PClosed, POpen) => Some(POpened)
    case (POpened, PEmitPage) => Some(PStreaming)
    case (POpened, PEmitEof) => Some(PTerminal)
    case (POpened, PEmitError) => Some(PTerminal)
    case (PStreaming, PEmitPage) => Some(PStreaming)
    case (PStreaming, PEmitEof) => Some(PTerminal)
    case (PStreaming, PEmitError) => Some(PTerminal)
    case (PTerminal, PClose) => Some(PClosed)
    case _ => None
  }

  datatype CoordinatorState = CClosed | COpened | CRunning | CTerminal
  datatype CoordinatorEvent = COpen | CProducerEof | CLogicalEof | CProducerError | CClose

  function CoordinatorTable(state: CoordinatorState, event: CoordinatorEvent): Option<CoordinatorState> {
    match (state, event)
    case (CClosed, COpen) => Some(COpened)
    case (COpened, CProducerEof) => Some(CRunning)
    case (COpened, CLogicalEof) => Some(CTerminal)
    case (COpened, CProducerError) => Some(CTerminal)
    case (CRunning, CProducerEof) => Some(CRunning)
    case (CRunning, CLogicalEof) => Some(CTerminal)
    case (CRunning, CProducerError) => Some(CTerminal)
    case (CTerminal, CClose) => Some(CClosed)
    case _ => None
  }

  datatype WorkerState = WClosed | WOpened | WStreaming | WTerminal
  datatype WorkerEvent = WOpen | WAcceptPage | WProducerEof | WLogicalEof | WProducerError | WClose

  function WorkerTable(state: WorkerState, event: WorkerEvent): Option<WorkerState> {
    match (state, event)
    case (WClosed, WOpen) => Some(WOpened)
    case (WOpened, WAcceptPage) => Some(WStreaming)
    case (WOpened, WProducerEof) => Some(WOpened)
    case (WOpened, WLogicalEof) => Some(WTerminal)
    case (WOpened, WProducerError) => Some(WTerminal)
    case (WStreaming, WAcceptPage) => Some(WStreaming)
    case (WStreaming, WProducerEof) => Some(WStreaming)
    case (WStreaming, WLogicalEof) => Some(WTerminal)
    case (WStreaming, WProducerError) => Some(WTerminal)
    case (WTerminal, WClose) => Some(WClosed)
    case _ => None
  }

  // ---- Declaring a scan ------------------------------------------------------------

  datatype OpenError = EmptyProducerSet | MultipleLeaders | DuplicateProducerId(id: nat)

  /** An earlier producer already has this producer's id. */
  ghost predicate Repeats(producers: seq<ProducerDescriptor>, i: nat)
    requires i < |producers|
  {
    exists j: nat :: j < i && producers[j].id == producers[i].id
  }

  ghost predicate SecondLeader(producers: seq<ProducerDescriptor>, i: nat)
    requires i < |producers|
  {
    producers[i].role.Leader? && exists j: nat :: j < i && producers[j].role.Leader?
  }

  ghost predicate GoodAt(producers: seq<ProducerDescriptor>, i: nat)
    requires i < |producers|
  {
    !Repeats(producers, i) && !SecondLeader(producers, i)
  }

  ghost predicate WellDeclared(scan: ScanOpen) {
    scan.producers != [] && forall i: nat :: i < |scan.producers| ==> GoodAt(scan.producers, i)
  }

  /** `ScanOpen::validate`: the error is the one at the first bad producer, leaders checked before ids. */
  method Validate(scan: ScanOpen) returns (error: Option<OpenError>)
    ensures error.None? <==> WellDeclared(scan)
    ensures scan.producers == [] <==> error == Some(EmptyProducerSet)
    ensures error.Some? && scan.producers != [] ==>
              exists i: nat :: i < |scan.producers| && !GoodAt(scan.producers, i)
                && (forall j: nat :: j < i ==> GoodAt(scan.producers, j))
                && error.value == if SecondLeader(scan.producers, i) then MultipleLeaders
                    else DuplicateProducerId(scan.producers[i].id)
  {
    var producers := scan.producers;
    if producers == [] { return Some(EmptyProducerSet); }
    var leaderSeen := false;
    for index := 0 to |producers|
      invariant leaderSeen <==> exists j: nat :: j < index && producers[j].role.Leader?
      invariant forall j: nat :: j < index ==> GoodAt(producers, j)
    {
      if producers[index].role.Leader? {
        if leaderSeen {
          assert SecondLeader(producers, index) && !GoodAt(producers, index);
          return Some(MultipleLeaders);
        }
        leaderSeen := true;
      }
      var other := 0;
      while other < index
        invariant other <= index && forall j: nat :: j < other ==> producers[j].id != producers[index].id
      {
        if producers[other].id == producers[index].id {
          assert Repeats(producers, index) && !GoodAt(producers, index);
          return Some(DuplicateProducerId(producers[index].id));
        }
        other := other + 1;
      }
      assert GoodAt(producers, index);
    }
    error := None;
  }

  // ---- What a logical scan is --------------------------------------------------------

  /** A logical scan seen from outside: who takes part and who has ended. */
  datatype Scan =
    | NotOpen
    | Live(flow: FlowId, declared: set<nat>, ended: set<nat>)
    | Finished

  datatype Event = ProducerEof(flow: FlowId, producer: nat) | ProducerError(flow: FlowId, producer: nat)

  datatype Refusal = InvalidState | UnexpectedFlow | UnknownProducer | ProducerAlreadyTerminal

  datatype Reply = Refused(reason: Refusal) | Continues | LogicalEof | LogicalError(producer: nat)

  function OpenScan(scan: ScanOpen): Scan { Live(scan.flow, set p | p in scan.producers :: p.id, {}) }

  /** The checks both sides make before they look at an event, in this order. */
  function Check(scan: Scan, flow: FlowId, producer: nat): Option<Refusal> {
    if !scan.Live? then Some(InvalidState)
    else if scan.flow != flow then Some(UnexpectedFlow)
    else if producer !in scan.declared then Some(UnknownProducer)
    else if producer in scan.ended then Some(ProducerAlreadyTerminal)
    else None
  }

  /** What an event means for the scan, and the reply both sides owe. */
  function Observe(scan: Scan, event: Event): (Scan, Reply) {
    var refusal := Check(scan, event.flow, event.producer);
    if refusal.Some? then (scan, Refused(refusal.value))
    else match event
         case ProducerError(_, producer) => (Finished, LogicalError(producer))
         case ProducerEof(_, producer) =>
           var ended := scan.ended + {producer};
           if ended == scan.declared then (Finished, LogicalEof) else (scan.(ended := ended), Continues)
  }

  // ---- Producer tables kept by both sides ------------------------------------------------

  datatype Progress = Active | Eof | Failed

  datatype Producer = Producer(id: nat, progress: Progress)

  ghost predicate DistinctIds(producers: seq<Producer>) {
    forall i, j :: 0 <= i < j < |producers| ==> producers[i].id != producers[j].id
  }

  ghost function Ids(producers: seq<Producer>): set<nat> {
    set p | p in producers :: p.id
  }

  ghost function EndedIds(producers: seq<Producer>): set<nat> {
    set p | p in producers && p.progress.Eof? :: p.id
  }

  /** A table of a live scan: ids are unique, nobody failed and somebody is still active. */
  ghost predicate LiveTable(producers: seq<Producer>) {
    && DistinctIds(producers)
    && (forall p :: p in producers ==> !p.progress.Failed?)
    && (exists p :: p in producers && p.progress.Active?)
  }

  method FindProducer(producers: seq<Producer>, id: nat) returns (index: Option<nat>)
    requires DistinctIds(producers)
    ensures index.Some? <==> id in Ids(producers)
    ensures index.Some? ==> index.value < |producers| && producers[index.value].id == id
    ensures index.Some? ==> (producers[index.value].progress.Eof? <==> id in EndedIds(producers))
  {
    for i := 0 to |producers|
      invariant forall j :: 0 <= j < i ==> producers[j].id != id
    {
      if producers[i].id == id {
        assert producers[i] in producers;
        return Some(i);
      }
    }
    index := None;
  }

  method AllEof(producers: seq<Producer>) returns (all: bool)
    ensures all <==> forall p :: p in producers ==> p.progress.Eof?
  {
    for i := 0 to |producers|
      invariant forall j :: 0 <= j < i ==> producers[j].progress.Eof?
    {
      if !producers[i].progress.Eof? {
        assert producers[i] in producers;
        return false;
      }
    }
    all := true;
  }

  method StartProducers(descriptors: seq<ProducerDescriptor>) returns (producers: seq<Producer>)
    requires descriptors != [] && forall i: nat :: i < |descriptors| ==> GoodAt(descriptors, i)
    ensures LiveTable(producers) && EndedIds(producers) == {} && Ids(producers) == set p | p in descriptors :: p.id
  {
    producers := [];
    for i := 0 to |descriptors|
      invariant |producers| == i && forall j :: 0 <= j < i ==> producers[j] == Producer(descriptors[j].id, Active)
    {
      producers := producers + [Producer(descriptors[i].id, Active)];
    }
    forall i, j | 0 <= i < j < |producers| ensures producers[i].id != producers[j].id {
      assert GoodAt(descriptors, j);
    }
    SameIds(producers, descriptors);
    assert producers[0] in producers;
  }

  lemma SameIds(producers: seq<Producer>, descriptors: seq<ProducerDescriptor>)
    requires |producers| == |descriptors| && forall j :: 0 <= j < |producers| ==> producers[j].id == descriptors[j].id
    ensures Ids(producers) == set p | p in descriptors :: p.id
  {
    forall id | id in Ids(producers) ensures id in set p | p in descriptors :: p.id {
      var j :| 0 <= j < |producers| && producers[j].id == id;
      assert descriptors[j] in descriptors;
    }
    forall d | d in descriptors ensures d.id in Ids(producers) {
      var j :| 0 <= j < |descriptors| && descriptors[j] == d;
      assert producers[j] in producers;
    }
  }

  /** Ending one active producer adds its id to the ended ones and changes nothing else. */
  lemma EndOne(producers: seq<Producer>, i: nat)
    requires LiveTable(producers) && i < |producers| && producers[i].progress.Active?
    ensures var after := producers[i := Producer(producers[i].id, Eof)];
            && Ids(after) == Ids(producers) && EndedIds(after) == EndedIds(producers) + {producers[i].id}
            && producers[i].id !in EndedIds(producers)
            && DistinctIds(after) && (forall p :: p in after ==> !p.progress.Failed?)
            && ((forall p :: p in after ==> p.progress.Eof?) <==> EndedIds(after) == Ids(after))
  {
    var after := producers[i := Producer(producers[i].id, Eof)];
    assert forall j :: 0 <= j < |after| ==> after[j].id == producers[j].id;
    forall id | id in Ids(producers) ensures id in Ids(after) {
      var j :| 0 <= j < |producers| && producers[j].id == id;
      assert after[j] in after;
    }
    forall id | id in EndedIds(producers) ensures id in EndedIds(after) && id != producers[i].id {
      var j :| 0 <= j < |producers| && producers[j].id == id && producers[j].progress.Eof?;
      assert after[j] in after;
    }
    assert after[i] in after;
    if EndedIds(after) == Ids(after) {
      forall p | p in after ensures p.progress.Eof? {
        assert p.id in EndedIds(after);
        var q :| q in after && q.progress.Eof? && q.id == p.id;
        SameProducer(after, p, q);
      }
    }
  }

  lemma SameProducer(producers: seq<Producer>, p: Producer, q: Producer)
    requires DistinctIds(producers) && p in producers && q in producers && p.id == q.id
    ensures p == q
  {
    var i :| 0 <= i < |producers| && producers[i] == p;
    var j :| 0 <= j < |producers| && producers[j] == q;
    assert i == j;
  }

  // ---- Backend producer --------------------------------------------------------------------

  datatype BeginResult = Began | Backpressure | BeginFailed

  datatype Filled = FilledPage(len: nat) | SourceEof | SourceFailed

  datatype StepReply = OutboundPage(len: nat) | Blocked | ProducerEnded | ProducerFault | StepRefused

  class ProducerRole {
    var machine: ProducerState
    var active: Option<(FlowId, nat)>

    ghost predicate Valid()
      reads this
    {
      machine.PClosed? <==> active.None?
    }

    constructor ()
      ensures Valid() && machine.PClosed?
    {
      machine, active := PClosed, None;
    }

    method Consume(event: ProducerEvent)
      requires ProducerTable(machine, event).Some?
      modifies this`machine
      ensures machine == ProducerTable(old(machine), event).value
    {
      machine := ProducerTable(machine, event).value;
    }

    method Open(scan: ScanOpen, producer: nat, sourceOpens: bool) returns (ok: bool)
      requires Valid()
      modifies this
      ensures Valid()
      ensures ok <==>
                old(machine).PClosed? && WellDeclared(scan) && (exists p :: p in scan.producers && p.id == producer)
                    && sourceOpens
      ensures if ok then machine.POpened? && active == Some((scan.flow, producer))
              else machine == old(machine) && active == old(active)
    {
      if !machine.PClosed? { return false; }
      var error := Validate(scan);
      if error.Some? { return false; }
      var declared := false;
      for i := 0 to |scan.producers|
        invariant declared <==> exists j :: 0 <= j < i && scan.producers[j].id == producer
        invariant machine == old(machine) && active == old(active)
      {
        if scan.producers[i].id == producer { declared := true; }
      }
      if !declared || !sourceOpens { return false; }
      Consume(POpen);
      active := Some((scan.flow, producer));
      ok := true;
    }

    /**
     * One step: a page leaves exactly when it was begun, filled within capacity and finished; `held` says the writer
     * was not dropped.
     */
    method Step(begin: BeginResult, filled: Filled, capacity: nat, finishes: bool)
        returns (reply: StepReply, held: bool)
      requires Valid()
      modifies this
      ensures Valid()
      ensures reply.StepRefused? <==> old(machine).PClosed? || old(machine).PTerminal?
      ensures reply.Blocked? <==> !reply.StepRefused? && begin.Backpressure?
      ensures reply.OutboundPage? <==>
                !reply.StepRefused? && begin.Began? && filled.FilledPage? && filled.len <= capacity && finishes
      ensures reply.OutboundPage? ==> reply.len == filled.len
      ensures reply.ProducerEnded? <==> !reply.StepRefused? && begin.Began? && filled.SourceEof?
      ensures held <==> reply.OutboundPage?
      ensures active == old(active)
      ensures machine == if reply.OutboundPage? then PStreaming
              else if reply.ProducerEnded? || reply.ProducerFault? then PTerminal else old(machine)
    {
      if machine.PClosed? || machine.PTerminal? { return StepRefused, false; }
      if begin.Backpressure? { return Blocked, false; }
      if begin.BeginFailed? { Consume(PEmitError); return ProducerFault, false; }
      match filled
      case FilledPage(len) =>
        if len > capacity || !finishes { Consume(PEmitError); return ProducerFault, false; }
        Consume(PEmitPage);
        return OutboundPage(len), true;
      case SourceEof => Consume(PEmitEof); return ProducerEnded, false;
      case SourceFailed => Consume(PEmitError); return ProducerFault, false;
    }

    method Close(sourceCloses: bool) returns (ok: bool)
      requires Valid()
      modifies this
      ensures Valid()
      ensures ok <==> old(machine).PTerminal? && sourceCloses
      ensures machine == (if ok then PClosed else old(machine)) && active == (if ok then None else old(active))
    {
      if !machine.PTerminal? || !sourceCloses { return false; }
      active := None;
      Consume(PClose);
      ok := true;
    }

    method Abort()
      modifies this
      ensures Valid() && machine.PClosed?
    {
      machine, active := PClosed, None;
    }
  }

  // ---- Backend coordinator ---------------------------------------------------------------

  datatype Result<T> = Ok(value: T) | Err(refusal: Refusal) | BadScan(error: OpenError)

  datatype Runtime = Runtime(flow: FlowId, kind: nat, flags: nat, producers: seq<Producer>)

  class Coordinator {
    var machine: CoordinatorState
    var runtime: Option<Runtime>

    ghost predicate Valid()
      reads this
    {
      && (machine.CClosed? <==> runtime.None?)
      && (machine.COpened? || machine.CRunning? ==> LiveTable(runtime.value.producers))
    }

    ghost function Abs(): Scan
      requires Valid()
      reads this
    {
      match machine
      case CClosed => NotOpen
      case CTerminal => Finished
      case _ => Live(runtime.value.flow, Ids(runtime.value.producers), EndedIds(runtime.value.producers))
    }

    constructor ()
      ensures Valid() && Abs() == NotOpen
    {
      machine, runtime := CClosed, None;
    }

    /** Feed the machine; the table has an entry whenever the coordinator gets here. */
    method Consume(event: CoordinatorEvent)
      requires CoordinatorTable(machine, event).Some?
      modifies this`machine
      ensures machine == CoordinatorTable(old(machine), event).value
    {
      machine := CoordinatorTable(machine, event).value;
    }

    method Open(scan: ScanOpen) returns (r: Result<()>)
      requires Valid()
      modifies this
      ensures Valid()
      ensures r.Ok? <==> old(Abs()).NotOpen? && WellDeclared(scan)
      ensures Abs() == if r.Ok? then OpenScan(scan) else old(Abs())
      ensures !old(Abs()).NotOpen? ==> r == Err(InvalidState)
    {
      if !machine.CClosed? { return Err(InvalidState); }
      var error := Validate(scan);
      if error.Some? { return BadScan(error.value); }
      Consume(COpen);
      var producers := StartProducers(scan.producers);
      runtime := Some(Runtime(scan.flow, scan.kind, scan.flags, producers));
      r := Ok(());
    }

    /** Both event methods begin with the same checks. */
    method Lookup(flow: FlowId, producer: nat) returns (index: nat, refusal: Option<Refusal>)
      requires Valid()
      ensures refusal == Check(Abs(), flow, producer)
      ensures refusal.None? ==> runtime.Some? && index < |runtime.value.producers|
      ensures refusal.None? ==> runtime.value.producers[index] == Producer(producer, Active)
    {
      index, refusal := 0, None;
      if machine.CClosed? || machine.CTerminal? { return 0, Some(InvalidState); }
      if runtime.value.flow != flow { return 0, Some(UnexpectedFlow); }
      var found := FindProducer(runtime.value.producers, producer);
      if found.None? { return 0, Some(UnknownProducer); }
      index := found.value;
      assert runtime.value.producers[index] in runtime.value.producers;
      if !runtime.value.producers[index].progress.Active? { return index, Some(ProducerAlreadyTerminal); }
    }

    method AcceptProducerEof(flow: FlowId, producer: nat) returns (reply: Reply)
      requires Valid()
      modifies this
      ensures Valid()
      ensures (Abs(), reply) == Observe(old(Abs()), ProducerEof(flow, producer))
    {
      var index, refusal := Lookup(flow, producer);
      if refusal.Some? { return Refused(refusal.value); }
      var producers := runtime.value.producers;
      EndOne(producers, index);
      producers := producers[index := Producer(producer, Eof)];
      runtime := Some(runtime.value.(producers := producers));
      var all := AllEof(producers);
      if all {
        Consume(CLogicalEof);
        reply := LogicalEof;
      } else {
        Consume(CProducerEof);
        reply := Continues;
        var p :| p in producers && !p.progress.Eof?;
        assert p.progress.Active?;
      }
    }

    method AcceptProducerError(flow: FlowId, producer: nat) returns (reply: Reply)
      requires Valid()
      modifies this
      ensures Valid()
      ensures (Abs(), reply) == Observe(old(Abs()), ProducerError(flow, producer))
    {
      var index, refusal := Lookup(flow, producer);
      if refusal.Some? { return Refused(refusal.value); }
      var producers := runtime.value.producers[index := Producer(producer, Failed)];
      runtime := Some(runtime.value.(producers := producers));
      Consume(CProducerError);
      reply := LogicalError(producer);
    }

    method Close() returns (r: Result<()>)
      requires Valid()
      modifies this
      ensures Valid()
      ensures r.Ok? <==> old(Abs()).Finished?
      ensures Abs() == if r.Ok? then NotOpen else old(Abs())
    {
      if !machine.CTerminal? { return Err(InvalidState); }
      runtime := None;
      Consume(CClose);
      r := Ok(());
    }

    method Abort()
      modifies this
      ensures Valid() && Abs() == NotOpen
    {
      machine, runtime := CClosed, None;
    }
  }

  // ---- Worker -----------------------------------------------------------------------------

  /** What offering a frame to the page receiver can come to. */
  datatype Ingress =
    | Page(page: nat, kind: nat, flags: nat)   // a page now owned by the caller
    | CloseFrame                               // the transfer stream was closed
    | Retryable                                // busy, closed, inaccessible, out of order or the wrong pool
    | Fatal                                    // a header or release error

  /** `routed` goes to the scan, `dropped` is released at once, `IngressError` reports the receiver's refusal. */
  datatype PageReply =
    | Routed(page: nat)
    | Rejected(reason: Refusal)
    | IngressError
    | ScanFailed(producer: nat)

  class Worker {
    var machine: WorkerState
    var runtime: Option<Runtime>

    ghost predicate Valid()
      reads this
    {
      && (machine.WClosed? <==> runtime.None?)
      && (machine.WOpened? || machine.WStreaming? ==> LiveTable(runtime.value.producers))
    }

    ghost function Abs(): Scan
      requires Valid()
      reads this
    {
      match machine
      case WClosed => NotOpen
      case WTerminal => Finished
      case _ => Live(runtime.value.flow, Ids(runtime.value.producers), EndedIds(runtime.value.producers))
    }

    constructor ()
      ensures Valid() && Abs() == NotOpen
    {
      machine, runtime := WClosed, None;
    }

    method Consume(event: WorkerEvent)
      requires WorkerTable(machine, event).Some?
      modifies this`machine
      ensures machine == WorkerTable(old(machine), event).value
    {
      machine := WorkerTable(machine, event).value;
    }

    method Open(scan: ScanOpen) returns (r: Result<()>)
      requires Valid()
      modifies this
      ensures Valid()
      ensures r.Ok? <==> old(Abs()).NotOpen? && WellDeclared(scan)
      ensures Abs() == if r.Ok? then OpenScan(scan) else old(Abs())
      ensures !old(Abs()).NotOpen? ==> r == Err(InvalidState)
      ensures Expects(runtime) == if r.Ok? then (scan.kind, scan.flags) else old(Expects(runtime))
    {
      if !machine.WClosed? { return Err(InvalidState); }
      var error := Validate(scan);
      if error.Some? { return BadScan(error.value); }
      Consume(WOpen);
      var producers := StartProducers(scan.producers);
      runtime := Some(Runtime(scan.flow, scan.kind, scan.flags, producers));
      r := Ok(());
    }

    method Lookup(flow: FlowId, producer: nat) returns (index: nat, refusal: Option<Refusal>)
      requires Valid()
      ensures refusal == Check(Abs(), flow, producer)
      ensures refusal.None? ==> runtime.Some? && index < |runtime.value.producers|
      ensures refusal.None? ==> runtime.value.producers[index] == Producer(producer, Active)
    {
      index, refusal := 0, None;
      if machine.WClosed? || machine.WTerminal? { return 0, Some(InvalidState); }
      if runtime.value.flow != flow { return 0, Some(UnexpectedFlow); }
      var found := FindProducer(runtime.value.producers, producer);
      if found.None? { return 0, Some(UnknownProducer); }
      index := found.value;
      assert runtime.value.producers[index] in runtime.value.producers;
      if !runtime.value.producers[index].progress.Active? { return index, Some(ProducerAlreadyTerminal); }
    }

    /** Mark the producer failed and end the scan. */
    method FailLogical(producer: nat)
      requires Valid() && Abs().Live?
      modifies this
      ensures Valid() && Abs() == Finished && Expects(runtime) == old(Expects(runtime))
    {
      var found := FindProducer(runtime.value.producers, producer);
      if found.Some? && runtime.value.producers[found.value].progress.Active? {
        runtime := Some(runtime.value.(producers := runtime.value.producers[found.value := Producer(producer,
              Failed)]));
      }
      Consume(WProducerError);
    }

    method AcceptProducerEof(flow: FlowId, producer: nat) returns (reply: Reply)
      requires Valid()
      modifies this
      ensures Valid()
      ensures (Abs(), reply) == Observe(old(Abs()), ProducerEof(flow, producer))
              && Expects(runtime) == old(Expects(runtime))
    {
      var index, refusal := Lookup(flow, producer);
      if refusal.Some? { return Refused(refusal.value); }
      var producers := runtime.value.producers;
      EndOne(producers, index);
      producers := producers[index := Producer(producer, Eof)];
      runtime := Some(runtime.value.(producers := producers));
      var all := AllEof(producers);
      if all {
        Consume(WLogicalEof);
        reply := LogicalEof;
      } else {
        Consume(WProducerEof);
        reply := Continues;
        var p :| p in producers && !p.progress.Eof?;
        assert p.progress.Active?;
      }
    }

    method AcceptProducerError(flow: FlowId, producer: nat) returns (reply: Reply)
      requires Valid()
      modifies this
      ensures Valid()
      ensures (Abs(), reply) == Observe(old(Abs()), ProducerError(flow, producer))
              && Expects(runtime) == old(Expects(runtime))
    {
      var index, refusal := Lookup(flow, producer);
      if refusal.Some? { return Refused(refusal.value); }
      FailLogical(producer);
      reply := LogicalError(producer);
    }

    /**
     * Offer one frame. `isPage` says whether it is a page frame and `ingress` what the page receiver makes of
     * it. A page that came in is either routed or released, and a refused page frame is still drained.
     */
    method AcceptPageFrame(flow: FlowId, producer: nat, isPage: bool, ingress: Ingress)
      returns (reply: PageReply, released: Option<nat>, offered: bool)
      requires Valid() && (isPage ==> !ingress.CloseFrame?) && (!isPage ==> !ingress.Page?)
      modifies this
      ensures Valid()
      ensures (Abs(), reply) == ObservePage(old(Abs()), Expects(old(runtime)), flow, producer, isPage, ingress)
      ensures Expects(runtime) == old(Expects(runtime))
      ensures offered <==> isPage || Check(old(Abs()), flow, producer).None?
      ensures offered && ingress.Page? ==> (reply == Routed(ingress.page) <==> released.None?)
      ensures released.Some? ==> offered && ingress.Page? && released.value == ingress.page
      ensures !(offered && ingress.Page?) ==> released.None? && !reply.Routed?
    {
      released, offered := None, true;
      var index, refusal := Lookup(flow, producer);
      if refusal.Some? {
        if !isPage { return Rejected(refusal.value), None, false; }
        if ingress.Page? { return Rejected(refusal.value), Some(ingress.page), true; }
        return IngressError, None, true;
      }
      match ingress
      case Page(page, kind, flags) =>
        if kind != runtime.value.kind || flags != runtime.value.flags {
          FailLogical(producer);
          return ScanFailed(producer), Some(page), true;
        }
        Consume(WAcceptPage);
        reply := Routed(page);
      case CloseFrame =>
        FailLogical(producer);
        reply := ScanFailed(producer);
      case Retryable => reply := IngressError;
      case Fatal =>
        FailLogical(producer);
        reply := ScanFailed(producer);
    }

    method Close() returns (r: Result<()>)
      requires Valid()
      modifies this
      ensures Valid()
      ensures r.Ok? <==> old(Abs()).Finished?
      ensures Abs() == if r.Ok? then NotOpen else old(Abs())
    {
      if !machine.WTerminal? { return Err(InvalidState); }
      runtime := None;
      Consume(WClose);
      r := Ok(());
    }

    method Abort()
      modifies this
      ensures Valid() && Abs() == NotOpen
    {
      machine, runtime := WClosed, None;
    }
  }

  function Expects(runtime: Option<Runtime>): (nat, nat) {
    if runtime.Some? then (runtime.value.kind, runtime.value.flags) else (0, 0)
  }

  /** What a frame means for the scan: only a fault of an active producer of this scan ends it. */
  function ObservePage(scan: Scan, expects: (nat, nat), flow: FlowId, producer: nat, isPage: bool,
                       ingress: Ingress): (Scan, PageReply) {
    var refusal := Check(scan, flow, producer);
    if refusal.Some? then (scan, if !isPage || ingress.Page? then Rejected(refusal.value) else IngressError)
    else match ingress
         case Page(page, kind, flags) => if (kind, flags) == expects then (scan, Routed(page))
             else (Finished, ScanFailed(producer))
         case Retryable => (scan, IngressError)
         case _ => (Finished, ScanFailed(producer))
  }

  // ---- Whole scans ----------------------------------------------------------------------------

  /** The scan after a sequence of producer events. */
  function After(scan: Scan, events: seq<Event>): Scan
    decreases |events|
  {
    if events == [] then scan else Observe(After(scan, events[..|events| - 1]), events[|events| - 1]).0
  }

  /** The reply to the last event. */
  function LastReply(scan: Scan, events: seq<Event>): Reply
    requires events != []
  {
    Observe(After(scan, events[..|events| - 1]), events[|events| - 1]).1
  }

  /** The declared producers with an EOF among the events. */
  ghost function Eofs(scan: Scan, events: seq<Event>): set<nat>
    requires scan.Live?
  {
    set p | p in scan.declared && ProducerEof(scan.flow, p) in events
  }

  /** A declared producer reported an error before it reported EOF. */
  ghost predicate Faulty(scan: Scan, events: seq<Event>)
    requires scan.Live?
  {
    exists j: nat :: j < |events| && events[j].ProducerError? && events[j].flow == scan.flow
        && events[j].producer in scan.declared
                     && events[j].producer !in Eofs(scan, events[..j]) && Eofs(scan, events[..j]) != scan.declared
  }

  lemma FaultyGrows(scan: Scan, events: seq<Event>)
    requires scan.Live? && events != []
    ensures var (before, last) := (events[..|events| - 1], events[|events| - 1]);
            Faulty(scan, events) == (
              || Faulty(scan, before)
              || (last.ProducerError? && last.flow == scan.flow && last.producer in scan.declared
                  && last.producer !in Eofs(scan, before) && Eofs(scan, before) != scan.declared))
  {
    var before := events[..|events| - 1];
    forall j: nat | j <= |before| ensures events[..j] == before[..j] {}
    assert before[..|before|] == before;
    if Faulty(scan, before) {
      var j: nat :| j < |before| && before[j].ProducerError? && before[j].flow == scan.flow
          && before[j].producer in scan.declared
                    && before[j].producer !in Eofs(scan, before[..j]) && Eofs(scan, before[..j]) != scan.declared;
      assert events[j] == before[j];
    }
  }

  lemma EofsGrow(scan: Scan, events: seq<Event>)
    requires scan.Live? && events != []
    ensures var (before, last) := (events[..|events| - 1], events[|events| - 1]);
            Eofs(scan, events) == Eofs(scan, before)
              + (if last.ProducerEof? && last.flow == scan.flow && last.producer in scan.declared then {last.producer}
                 else {})
  {
    assert events == events[..|events| - 1] + [events[|events| - 1]];
  }

  /** A scan is live exactly while nobody failed and somebody has not ended, and remembers who ended. */
  lemma {:induction false} ScanMeans(scan: Scan, events: seq<Event>)
    requires scan.Live? && scan.ended == {} && scan.declared != {}
    ensures After(scan, events) ==
            if Faulty(scan, events) || Eofs(scan, events) == scan.declared then Finished
                else scan.(ended := Eofs(scan, events))
    decreases |events|
  {
    if events == [] {
      assert Eofs(scan, events) == {};
    } else {
      ScanMeans(scan, events[..|events| - 1]);
      FaultyGrows(scan, events);
      EofsGrow(scan, events);
    }
  }

  /** Logical EOF is replied exactly when the last declared producer ends and nobody failed before. */
  lemma LogicalEofExactly(scan: Scan, events: seq<Event>)
    requires scan.Live? && scan.ended == {} && scan.declared != {} && events != []
    ensures LastReply(scan, events) == LogicalEof
            <==> !Faulty(scan, events) && Eofs(scan, events) == scan.declared
                 && Eofs(scan, events[..|events| - 1]) != scan.declared
  {
    ScanMeans(scan, events[..|events| - 1]);
    FaultyGrows(scan, events);
    EofsGrow(scan, events);
  }

  /** The scan is over: somebody failed or everybody ended. */
  ghost predicate IsOver(scan: Scan, events: seq<Event>)
    requires scan.Live?
  {
    Faulty(scan, events) || Eofs(scan, events) == scan.declared
  }

  /** Why an event or a frame of this producer is refused after these events, if it is. */
  ghost function RefusalAfter(scan: Scan, over: bool, events: seq<Event>, flow: FlowId, producer: nat): Option<Refusal>
    requires scan.Live?
  {
    if over then Some(InvalidState)
    else if flow != scan.flow then Some(UnexpectedFlow)
    else if producer !in scan.declared then Some(UnknownProducer)
    else if ProducerEof(scan.flow, producer) in events then Some(ProducerAlreadyTerminal)
    else None
  }

  /** The reply to every event, from the events before it alone. */
  lemma ReplyExactly(scan: Scan, events: seq<Event>)
    requires scan.Live? && scan.ended == {} && scan.declared != {} && events != []
    ensures var (before, last) := (events[..|events| - 1], events[|events| - 1]);
            var refusal := RefusalAfter(scan, IsOver(scan, before), before, last.flow, last.producer);
            LastReply(scan, events)
            == if refusal.Some? then Refused(refusal.value)
               else if last.ProducerError? then LogicalError(last.producer)
               else if Eofs(scan, events) == scan.declared then LogicalEof
               else Continues
  {
    ScanMeans(scan, events[..|events| - 1]);
    EofsGrow(scan, events);
  }

  predicate IsTerminal(reply: Reply) { reply.LogicalEof? || reply.LogicalError? }

  lemma {:induction false} StaysFinished(scan: Scan, events: seq<Event>, i: nat)
    requires i <= |events| && After(scan, events[..i]).Finished?
    ensures After(scan, events).Finished?
    decreases |events|
  {
    if i < |events| {
      var before := events[..|events| - 1];
      assert before[..i] == events[..i];
      StaysFinished(scan, before, i);
    } else {
      assert events[..i] == events;
    }
  }

  /** A scan has at most one terminal reply; everything after it is refused. */
  lemma OneTerminal(scan: Scan, events: seq<Event>, i: nat, j: nat)
    requires i < j < |events| && IsTerminal(LastReply(scan, events[..i + 1]))
    ensures LastReply(scan, events[..j + 1]) == Refused(InvalidState)
  {
    var first, second := events[..i + 1], events[..j + 1];
    assert first[..|first| - 1] == events[..i] && second[..|second| - 1] == events[..j];
    assert After(scan, first).Finished?;
    assert events[..j][..i + 1] == first;
    StaysFinished(scan, events[..j], i + 1);
  }

  // ---- Pages in between -------------------------------------------------------------------------

  /** What a worker sees: producer events, and frames with what the page receiver makes of them. */
  datatype Input = OfScan(event: Event) | OfPage(flow: FlowId, producer: nat, isPage: bool, ingress: Ingress)

  function WorkerAfter(scan: Scan, expects: (nat, nat), inputs: seq<Input>): Scan
    decreases |inputs|
  {
    if inputs == [] then scan
    else
      var (before, last) := (WorkerAfter(scan, expects, inputs[..|inputs| - 1]), inputs[|inputs| - 1]);
      match last
      case OfScan(event) => Observe(before, event).0
      case OfPage(flow, producer, isPage, ingress) => ObservePage(before, expects, flow, producer, isPage, ingress).0
  }

  function ScanEvents(inputs: seq<Input>): seq<Event>
    decreases |inputs|
  {
    if inputs == [] then []
    else
      var (before, last) := (ScanEvents(inputs[..|inputs| - 1]), inputs[|inputs| - 1]);
      if last.OfScan? then before + [last.event] else before
  }

  /** What the page receiver made of the frame is a fault: a closed stream, a fatal error or a page of another kind. */
  predicate BadIngress(ingress: Ingress, expects: (nat, nat)) {
    match ingress
    case Page(_, kind, flags) => (kind, flags) != expects
    case CloseFrame => true
    case Retryable => false
    case Fatal => true
  }

  /**
   * Input `k` is a bad frame of a producer that, by the producer events before it, is declared and active in a live
   * scan.
   */
  ghost predicate FrameFault(scan: Scan, expects: (nat, nat), inputs: seq<Input>, k: nat) {
    && k < |inputs| && inputs[k].OfPage? && BadIngress(inputs[k].ingress, expects)
    && Check(After(scan, ScanEvents(inputs[..k])), inputs[k].flow, inputs[k].producer).None?
  }

  ghost predicate FrameFaults(scan: Scan, expects: (nat, nat), inputs: seq<Input>) {
    exists k: nat :: FrameFault(scan, expects, inputs, k)
  }

  /** In terms of the inputs alone: nobody failed before, somebody is left, and the frame's producer has not ended. */
  lemma FrameFaultExactly(scan: Scan, expects: (nat, nat), inputs: seq<Input>, k: nat)
    requires scan.Live? && scan.ended == {} && scan.declared != {} && k < |inputs|
    ensures FrameFault(scan, expects, inputs, k) <==>
              var events := ScanEvents(inputs[..k]);
              && inputs[k].OfPage? && BadIngress(inputs[k].ingress, expects) && inputs[k].flow == scan.flow
              && inputs[k].producer in scan.declared - Eofs(scan, events) && !Faulty(scan, events)
  {
    ScanMeans(scan, ScanEvents(inputs[..k]));
  }

  lemma FaultsGrow(scan: Scan, expects: (nat, nat), inputs: seq<Input>)
    requires inputs != []
    ensures FrameFaults(scan, expects, inputs) <==>
              FrameFaults(scan, expects, inputs[..|inputs| - 1]) || FrameFault(scan, expects, inputs, |inputs| - 1)
  {
    hide After, ScanEvents, Check, BadIngress;
    var before := inputs[..|inputs| - 1];
    forall k: nat | k < |before| ensures FrameFault(scan, expects, before, k) <==>
        FrameFault(scan, expects, inputs, k) {
      assert before[..k] == inputs[..k] && before[k] == inputs[k];
    }
  }

  /**
   * Worker and coordinator, opened alike and given the same producer events, agree however pages are interleaved,
   * exactly until a bad frame of an active producer ends the scan for the worker alone.
   */
  lemma {:induction false} SidesAgree(scan: Scan, expects: (nat, nat), inputs: seq<Input>)
    ensures WorkerAfter(scan, expects, inputs) == if FrameFaults(scan, expects, inputs) then Finished
            else After(scan, ScanEvents(inputs))
    ensures inputs != [] && inputs[|inputs| - 1].OfScan? ==>
              Observe(WorkerAfter(scan, expects, inputs[..|inputs| - 1]), inputs[|inputs| - 1].event).1
              == if FrameFaults(scan, expects, inputs) then Refused(InvalidState)
                  else LastReply(scan, ScanEvents(inputs))
    decreases |inputs|
  {
    if inputs == [] {
      assert !FrameFaults(scan, expects, inputs);
    } else {
      var before, last := inputs[..|inputs| - 1], inputs[|inputs| - 1];
      SidesAgree(scan, expects, before);
      FaultsGrow(scan, expects, inputs);
      if last.OfScan? {
        EventLast(inputs);
      } else {
        assert ScanEvents(inputs) == ScanEvents(before);
      }
    }
  }

  /** The reply to every frame, from the inputs before it alone. */
  lemma FrameReplyExactly(scan: Scan, expects: (nat, nat), before: seq<Input>, frame: Input)
    requires scan.Live? && scan.ended == {} && scan.declared != {} && frame.OfPage?
    ensures var events := ScanEvents(before);
            var over := FrameFaults(scan, expects, before) || IsOver(scan, events);
            var refusal := RefusalAfter(scan, over, events, frame.flow, frame.producer);
            FrameReply(scan, expects, before, frame)
            == if refusal.Some? then
                 (if !frame.isPage || frame.ingress.Page? then Rejected(refusal.value) else IngressError)
               else match frame.ingress
                    case Page(page, kind, flags) =>
                      if (kind, flags) == expects then Routed(page) else ScanFailed(frame.producer)
                    case Retryable => IngressError
                    case CloseFrame => ScanFailed(frame.producer)
                    case Fatal => ScanFailed(frame.producer)
  {
    hide FrameFaults;
    SidesAgree(scan, expects, before);
    ScanMeans(scan, ScanEvents(before));
  }

  /** The reply of a worker that has seen the inputs before the frame. */
  function FrameReply(scan: Scan, expects: (nat, nat), before: seq<Input>, frame: Input): PageReply
    requires frame.OfPage?
  {
    ObservePage(WorkerAfter(scan, expects, before), expects, frame.flow, frame.producer, frame.isPage,
                frame.ingress).1
  }

  lemma EventLast(inputs: seq<Input>)
    requires inputs != [] && inputs[|inputs| - 1].OfScan?
    ensures var (events, n) := (ScanEvents(inputs), |inputs| - 1);
            events != [] && events[..|events| - 1] == ScanEvents(inputs[..n]) && events[|events| - 1] == inputs[n].event
  {
  }

  /** The frames an ingress can make of what it is offered. */
  predicate Offered(inputs: seq<Input>) {
    forall k :: 0 <= k < |inputs| && inputs[k].OfPage? ==>
      (inputs[k].isPage ==> !inputs[k].ingress.CloseFrame?) && (!inputs[k].isPage ==> !inputs[k].ingress.Page?)
  }

  /** One event delivered to both sides. */
  method Deliver(worker: Worker, coordinator: Coordinator, event: Event) returns (replies: (Reply, Reply))
    requires worker.Valid() && coordinator.Valid()
    modifies worker, coordinator
    ensures worker.Valid() && coordinator.Valid() && Expects(worker.runtime) == old(Expects(worker.runtime))
    ensures (worker.Abs(), replies.0) == Observe(old(worker.Abs()), event)
    ensures (coordinator.Abs(), replies.1) == Observe(old(coordinator.Abs()), event)
  {
    match event
    case ProducerEof(flow, producer) =>
      var atWorker := worker.AcceptProducerEof(flow, producer);
      var atCoordinator := coordinator.AcceptProducerEof(flow, producer);
      replies := (atWorker, atCoordinator);
    case ProducerError(flow, producer) =>
      var atWorker := worker.AcceptProducerError(flow, producer);
      var atCoordinator := coordinator.AcceptProducerError(flow, producer);
      replies := (atWorker, atCoordinator);
  }

  /**
   * One scan on both sides: the worker object sees events and frames, the coordinator object the events. They end
   * in the same state with the same replies until a bad frame of an active producer comes in between; from then on
   * the worker refuses every event.
   */
  method RunScan(worker: Worker, coordinator: Coordinator, scan: ScanOpen, inputs: seq<Input>)
      returns (replies: seq<(Reply, Reply)>, frames: seq<PageReply>)
    requires worker.Valid() && coordinator.Valid() && worker.Abs() == NotOpen && coordinator.Abs() == NotOpen
    requires WellDeclared(scan) && Offered(inputs)
    modifies worker, coordinator
    ensures worker.Valid() && coordinator.Valid()
    ensures coordinator.Abs() == After(OpenScan(scan), ScanEvents(inputs))
    ensures worker.Abs() == if FrameFaults(OpenScan(scan), (scan.kind, scan.flags), inputs) then Finished
            else coordinator.Abs()
    ensures |replies| == |ScanEvents(inputs)|
    ensures forall k: nat :: k < |replies| ==> replies[k].1 == LastReply(OpenScan(scan), ScanEvents(inputs)[..k + 1])
    ensures !FrameFaults(OpenScan(scan), (scan.kind, scan.flags), inputs) ==>
              forall k: nat :: k < |replies| ==> replies[k].0 == replies[k].1
    ensures forall i: nat :: i < |inputs| && inputs[i].OfScan? ==>
              Answered(OpenScan(scan), (scan.kind, scan.flags), inputs, replies, i)
    ensures frames == FrameReplies(OpenScan(scan), (scan.kind, scan.flags), inputs)
  {
    hide Observe, ObservePage, FrameFaults, OpenScan, After, WellDeclared, FrameReplies, Answered, WorkerAfter,
        ScanEvents;
    ghost var open, expects := OpenScan(scan), (scan.kind, scan.flags);
    var first := worker.Open(scan);
    var second := coordinator.Open(scan);
    StartsAlike(open, expects);
    replies, frames := [], [];
    for i := 0 to |inputs|
      invariant worker.Valid() && coordinator.Valid() && Expects(worker.runtime) == expects
      invariant worker.Abs() == WorkerAfter(open, expects, inputs[..i])
                && coordinator.Abs() == After(open, ScanEvents(inputs[..i]))
      invariant |replies| == |ScanEvents(inputs[..i])|
      invariant forall k: nat :: k < |replies| ==> replies[k].1 == LastReply(open, ScanEvents(inputs[..i])[..k + 1])
      invariant !FrameFaults(open, expects, inputs[..i]) ==>
                forall k: nat :: k < |replies| ==> replies[k].0 == replies[k].1
      invariant forall j: nat :: j < i && inputs[j].OfScan? ==> Answered(open, expects, inputs, replies, j)
      invariant frames == FrameReplies(open, expects, inputs[..i])
    {
      ghost var seen := inputs[..i + 1];
      assert seen[..i] == inputs[..i];
      SidesAgree(open, expects, seen);
      FaultsGrow(open, expects, seen);
      OneInput(open, expects, seen);
      match inputs[i]
      case OfScan(event) =>
        EventLast(seen);
        OneMore(open, seen, replies);
        var pair := Deliver(worker, coordinator, event);
        AnswersKept(open, expects, inputs, replies, pair, i);
        replies := replies + [pair];
      case OfPage(flow, producer, isPage, ingress) =>
        var reply, _, _ := worker.AcceptPageFrame(flow, producer, isPage, ingress);
        frames := frames + [reply];
    }
    assert inputs[..|inputs|] == inputs;
    SidesAgree(open, expects, inputs);
  }

  /** The replies to input `i`: the worker's is the coordinator's, or a refusal if a bad frame came before. */
  ghost predicate Answered(open: Scan, expects: (nat, nat), inputs: seq<Input>, replies: seq<(Reply, Reply)>, i: nat)
    requires i < |inputs|
  {
    var k := |ScanEvents(inputs[..i])|;
    && k < |replies|
    && replies[k].0 == if FrameFaults(open, expects, inputs[..i]) then Refused(InvalidState) else replies[k].1
  }

  lemma AnswersKept(open: Scan, expects: (nat, nat), inputs: seq<Input>, replies: seq<(Reply, Reply)>,
                    pair: (Reply, Reply), i: nat)
    requires i < |inputs| && |replies| == |ScanEvents(inputs[..i])|
    requires pair.0 == if FrameFaults(open, expects, inputs[..i]) then Refused(InvalidState) else pair.1
    requires forall j: nat :: j < i && inputs[j].OfScan? ==> Answered(open, expects, inputs, replies, j)
    ensures forall j: nat :: j < i + 1 && inputs[j].OfScan? ==> Answered(open, expects, inputs, replies + [pair], j)
  {
    hide FrameFaults, ScanEvents;
    forall j: nat | j < i + 1 && inputs[j].OfScan? ensures Answered(open, expects, inputs, replies + [pair], j) {
      if j < i { assert Answered(open, expects, inputs, replies, j); }
    }
  }

  /** One producer sends a page of another kind and then ends: the coordinator completes a scan the worker failed. */
  method OneSidedFault(flow: FlowId) returns (replies: seq<(Reply, Reply)>)
    ensures replies == [(Refused(InvalidState), LogicalEof)]
  {
    var scan := ScanOpen(flow, 0, 0, [ProducerDescriptor(0, Leader)]);
    var inputs := [OfPage(flow, 0, true, Page(7, 1, 0)), OfScan(ProducerEof(flow, 0))];
    var worker := new Worker();
    var coordinator := new Coordinator();
    FaultThenEof(scan, inputs);
    var frames;
    replies, frames := RunScan(worker, coordinator, scan, inputs);
  }

  lemma FaultThenEof(scan: ScanOpen, inputs: seq<Input>)
    requires scan.kind == 0 && scan.flags == 0 && scan.producers == [ProducerDescriptor(0, Leader)]
    requires inputs == [OfPage(scan.flow, 0, true, Page(7, 1, 0)), OfScan(ProducerEof(scan.flow, 0))]
    ensures ScanEvents(inputs[..1]) == [] && ScanEvents(inputs) == [inputs[1].event]
    ensures FrameFaults(OpenScan(scan), (0, 0), inputs[..1])
    ensures LastReply(OpenScan(scan), ScanEvents(inputs)[..1]) == LogicalEof
  {
    var open, first := OpenScan(scan), inputs[..1];
    assert scan.producers[0] in scan.producers && open.declared == {0};
    assert inputs[..|inputs| - 1] == first && first[..0] == [] && first[..|first| - 1] == [];
    assert ScanEvents(first) == ScanEvents([]);
    assert FrameFault(open, (0, 0), first, 0);
    assert ScanEvents(inputs)[..1] == ScanEvents(inputs) && ScanEvents(inputs)[..0] == [];
  }

  /** The replies to the frames among the inputs, in order. */
  function FrameReplies(scan: Scan, expects: (nat, nat), inputs: seq<Input>): seq<PageReply>
    decreases |inputs|
  {
    if inputs == [] then []
    else
      var (before, last) := (inputs[..|inputs| - 1], inputs[|inputs| - 1]);
      FrameReplies(scan, expects, before) + if last.OfPage? then [FrameReply(scan, expects, before, last)] else []
  }

  /** What one more input adds to each account of the inputs. */
  lemma OneInput(scan: Scan, expects: (nat, nat), seen: seq<Input>)
    requires seen != []
    ensures var (before, last) := (seen[..|seen| - 1], seen[|seen| - 1]);
            && (last.OfPage? ==>
                  && ScanEvents(seen) == ScanEvents(before)
                  && FrameReplies(scan, expects, seen)
                     == FrameReplies(scan, expects, before) + [FrameReply(scan, expects, before, last)]
                  && WorkerAfter(scan, expects, seen)
                     == ObservePage(WorkerAfter(scan, expects, before), expects, last.flow, last.producer, last.isPage,
                                    last.ingress).0)
            && (last.OfScan? ==>
                  && FrameReplies(scan, expects, seen) == FrameReplies(scan, expects, before)
                  && WorkerAfter(scan, expects, seen) == Observe(WorkerAfter(scan, expects, before), last.event).0)
  {
    hide Observe, ObservePage;
  }

  lemma StartsAlike(scan: Scan, expects: (nat, nat))
    ensures WorkerAfter(scan, expects, []) == After(scan, []) == scan && ScanEvents([]) == []
    ensures FrameReplies(scan, expects, []) == []
  {
  }

  /** The replies so far stay those to their own events, and the next is that to the last event. */
  lemma OneMore(scan: Scan, seen: seq<Input>, replies: seq<(Reply, Reply)>)
    requires seen != [] && seen[|seen| - 1].OfScan? && |replies| == |ScanEvents(seen[..|seen| - 1])|
    requires forall k: nat :: k < |replies| ==> replies[k].1 == LastReply(scan, ScanEvents(seen[..|seen| - 1])[..k + 1])
    ensures |ScanEvents(seen)| == |replies| + 1
    ensures forall k: nat :: k < |replies| ==> replies[k].1 == LastReply(scan, ScanEvents(seen)[..k + 1])
    ensures ScanEvents(seen)[..|replies| + 1] == ScanEvents(seen)
    ensures (After(scan, ScanEvents(seen)), LastReply(scan, ScanEvents(seen)))
            == Observe(After(scan, ScanEvents(seen[..|seen| - 1])), seen[|seen| - 1].event)
  {
    hide Observe;
    EventLast(seen);
    var before := ScanEvents(seen[..|seen| - 1]);
    forall k: nat | k < |replies| ensures replies[k].1 == LastReply(scan, ScanEvents(seen)[..k + 1]) {
      assert ScanEvents(seen)[..k + 1] == before[..k + 1];
    }
  }
}
