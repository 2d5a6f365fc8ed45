/** What the plan decoder accepts, and the error for the first thing it does not. */
module PlanAccepts {
  import opened Common
  import opened Bytes
  import opened MsgPack
  import opened PlanWire
  import opened PlanTree
  import opened PlanRoundTrip
  import PlanDecoder
  import PlanSession

  // ---- Envelopes, from front to back ---------------------------------------------------------

  /** A piece of the input and what follows it, or why there is none. */
  datatype Piece<+T> = Have(value: T, rest: seq<byte>) | Stop(error: PlanDecoder.DecodeError) {
    predicate IsFailure() { Stop? }

    function PropagateFailure<U>(): Piece<U>
      requires IsFailure()
    {
      Stop(error)
    }

    function Extract(): (T, seq<byte>)
      requires Have?
    {
      (value, rest)
    }
  }

  /** Nothing more is coming. */
  function AtEnd<T>(r: Parsed<T>): Piece<T> {
    match r
    case Got(value, rest) => Have(value, rest)
    case More => Stop(PlanDecoder.UnexpectedEof)
    case Bad(error) => Stop(PlanDecoder.Wire(error))
  }

  /** So many specs, one after the other, with ids that are all new. */
  function ParseSpecs(codec: Codec, b: seq<byte>, n: nat, table: Table): Piece<Table>
    decreases n
  {
    if n == 0 then Have(table, b)
    else
      var (spec, b1) :- AtEnd(ReadSpec(codec, b));
      if spec.scanId in table then Stop(PlanDecoder.DuplicateScanId)
      else ParseSpecs(codec, b1, n - 1, table[spec.scanId := spec])
  }

  /** The payload: a plan that names every spec of the table and no other, and is the end of the input. */
  function ParsePlan(codec: PlanCodec, table: Table, b: seq<byte>): Piece<Plan> {
    var (size, b1) :- AtEnd(Read(BinLen, b));
    var (payload, b2) :- AtEnd(Take(b1, size));
    match codec.skeleton(payload)
    case None => Stop(PlanDecoder.PlanProtobuf)
    case Some(skeleton) =>
      match Rebuild(skeleton, table)
      case None => Stop(PlanDecoder.MissingScanSpec)
      case Some(plan) =>
        if !(table.Keys <= Used(plan)) then Stop(PlanDecoder.OrphanScanSpec)
        else if b2 != [] then Stop(PlanDecoder.TrailingBytes)
        else Have(plan, [])
  }

  /** An array of four: the text PFPL, version 1, the specs and the plan. */
  function Parse(codec: PlanCodec, input: seq<byte>): Piece<Plan> {
    var (length, b1) :- AtEnd(Read(ArrayLen, input));
    if length != 4 then Stop(PlanDecoder.InvalidEnvelope) else
    var (magic, b2) :- AtEnd(ReadText(codec.wire, b1));
    if magic != [0x50, 0x46, 0x50, 0x4c] then Stop(PlanDecoder.InvalidMagic) else
    var (version, b3) :- AtEnd(Read(U8, b2));
    if version != 1 then Stop(PlanDecoder.UnsupportedVersion) else
    var (count, b4) :- AtEnd(Read(ArrayLen, b3));
    var (table, b5) :- ParseSpecs(codec.wire, b4, count, map[]);
    ParsePlan(codec, table, b5)
  }

  // ---- The incremental decoder comes to the same ------------------------------------------------

  function Out(r: Piece<Plan>): PlanDecoder.DecodeProgress {
    if r.Have? then PlanDecoder.Done(r.value) else PlanDecoder.Refused(r.error)
  }

  /** What a stream comes to whose decoder stands here at its end. */
  function EndOf(p: Progress): PlanDecoder.DecodeProgress {
    match p.stage
    case Ready(plan) => PlanDecoder.Done(plan)
    case Broken(error) => PlanDecoder.Refused(error)
    case _ => PlanDecoder.Refused(PlanDecoder.UnexpectedEof)
  }

  /** Where the stage waits or breaks, the stream ends with that. */
  lemma StageEnds(codec: PlanCodec, p: Progress)
    ensures PlanDecoder.Step(codec, p).None? ==> EndOf(PlanDecoder.Drive(codec, p)) == EndOf(p)
    ensures PlanDecoder.Step(codec, p).Some? ==>
              EndOf(PlanDecoder.Drive(codec, p)) == EndOf(PlanDecoder.Drive(codec, PlanDecoder.Step(codec, p).value))
    ensures PlanDecoder.Step(codec, p).Some? && PlanDecoder.Step(codec, p).value.stage.Broken? ==>
              EndOf(PlanDecoder.Drive(codec, p)) == EndOf(PlanDecoder.Step(codec, p).value)
  {
    hide PlanDecoder.Drive, PlanDecoder.Step;
    if PlanDecoder.Step(codec, p).None? {
      PlanDecoder.DriveStops(codec, p);
    } else {
      PlanDecoder.DriveStep(codec, p);
      var q := PlanDecoder.Step(codec, p).value;
      if q.stage.Broken? {
        PlanDecoder.BrokenWaits(codec, q);
        PlanDecoder.DriveStops(codec, q);
      }
    }
  }

  lemma PlanBuilt(codec: PlanCodec, skeleton: Skeleton, table: Table, b: seq<byte>)
    ensures EndOf(PlanDecoder.Drive(codec, PlanDecoder.Progress(PlanDecoder.Building(skeleton), table, b)))
            == match Rebuild(skeleton, table)
               case None => PlanDecoder.Refused(PlanDecoder.MissingScanSpec)
               case Some(plan) =>
                 if !(table.Keys <= Used(plan)) then PlanDecoder.Refused(PlanDecoder.OrphanScanSpec)
                 else if b != [] then PlanDecoder.Refused(PlanDecoder.TrailingBytes)
                 else PlanDecoder.Done(plan)
  {
    hide PlanDecoder.Drive, Rebuild, Used;
    var p := PlanDecoder.Progress(PlanDecoder.Building(skeleton), table, b);
    StageEnds(codec, p);
    StageEnds(codec, PlanDecoder.Step(codec, p).value);
    var r := Rebuild(skeleton, table);
    if r.Some? { assert table.Keys <= Used(r.value) <==> !exists k :: k in table && k !in Used(r.value); }
  }

  lemma PlanStage(codec: PlanCodec, table: Table, b: seq<byte>)
    ensures EndOf(PlanDecoder.Drive(codec, PlanDecoder.Progress(PlanDecoder.PlanLenDue, table, b)))
            == Out(ParsePlan(codec, table, b))
  {
    hide PlanDecoder.Drive, Rebuild, Used, Read;
    var p := PlanDecoder.Progress(PlanDecoder.PlanLenDue, table, b);
    StageEnds(codec, p);
    var size := Read(BinLen, b);
    if size.Got? {
      var q := PlanDecoder.Progress(PlanDecoder.PlanDue(size.value), table, size.rest);
      StageEnds(codec, q);
      if |size.rest| >= size.value {
        var skeleton := codec.skeleton(size.rest[..size.value]);
        if skeleton.Some? { PlanBuilt(codec, skeleton.value, table, size.rest[size.value..]); }
      }
    }
  }

  /** The specs and what follows them. */
  function ParseRest(codec: PlanCodec, b: seq<byte>, n: nat, table: Table): Piece<Plan> {
    var (all, b1) :- ParseSpecs(codec.wire, b, n, table);
    ParsePlan(codec, all, b1)
  }

  lemma {:induction false} SpecStage(codec: PlanCodec, b: seq<byte>, n: nat, table: Table)
    requires n > 0
    ensures EndOf(PlanDecoder.Drive(codec, PlanDecoder.Progress(PlanDecoder.SpecDue(n), table, b)))
            == Out(ParseRest(codec, b, n, table))
    decreases n
  {
    hide PlanDecoder.Drive, ParsePlan, ReadSpec;
    var p := PlanDecoder.Progress(PlanDecoder.SpecDue(n), table, b);
    StageEnds(codec, p);
    var r := ReadSpec(codec.wire, b);
    if r.Got? && r.value.scanId !in table {
      var more := table[r.value.scanId := r.value];
      if n == 1 { PlanStage(codec, more, r.rest); } else { SpecStage(codec, r.rest, n - 1, more); }
    }
  }

  function ParseCounted(codec: PlanCodec, b: seq<byte>): Piece<Plan> {
    var (count, b1) :- AtEnd(Read(ArrayLen, b));
    ParseRest(codec, b1, count, map[])
  }

  lemma CountStage(codec: PlanCodec, b: seq<byte>)
    ensures EndOf(PlanDecoder.Drive(codec, PlanDecoder.Progress(PlanDecoder.SpecsDue, map[], b)))
            == Out(ParseCounted(codec, b))
  {
    hide PlanDecoder.Drive, ParsePlan, Read, ReadSpec;
    StageEnds(codec, PlanDecoder.Progress(PlanDecoder.SpecsDue, map[], b));
    var r := Read(ArrayLen, b);
    if r.Got? {
      if r.value == 0 { PlanStage(codec, map[], r.rest); } else { SpecStage(codec, r.rest, r.value, map[]); }
    }
  }

  /** The verdict on a stream, in any chunks, is that of reading it from front to back. */
  lemma VerdictIsParse(codec: PlanCodec, input: seq<byte>)
    ensures PlanDecoder.Verdict(codec, input) == Out(Parse(codec, input))
  {
    hide PlanDecoder.Drive, ParseSpecs, ParsePlan, Read, ReadText;
    var p := PlanDecoder.Feed(PlanDecoder.FRESH, input);
    assert p == PlanDecoder.Progress(PlanDecoder.EnvelopeDue, map[], input) by { Joined([], input, []); }
    StageEnds(codec, p);
    var r0 := Read(ArrayLen, input);
    if r0.Got? && r0.value == 4 {
      StageEnds(codec, PlanDecoder.Progress(PlanDecoder.MagicDue, map[], r0.rest));
      var r1 := ReadText(codec.wire, r0.rest);
      if r1.Got? && r1.value == [0x50, 0x46, 0x50, 0x4c] {
        StageEnds(codec, PlanDecoder.Progress(PlanDecoder.VersionDue, map[], r1.rest));
        var r2 := Read(U8, r1.rest);
        if r2.Got? && r2.value == 1 { CountStage(codec, r2.rest); }
      }
    }
  }

  /** Decoding any chunks gives what reading their bytes from front to back gives. */
  method Decode(codec: PlanCodec, chunks: seq<seq<byte>>) returns (r: PlanDecoder.DecodeProgress)
    ensures r == Out(Parse(codec, Flat(chunks)))
  {
    hide Parse, PlanDecoder.Verdict, Flat;
    r := PlanSession.DecodeChunks(codec, chunks);
    VerdictIsParse(codec, Flat(chunks));
  }

  // ---- Exactly what is accepted ---------------------------------------------------------------------

  /** What is left of a buffer after these specs, if they are at its front, one after the other. */
  ghost function SpecsAt(codec: Codec, b: seq<byte>, specs: seq<ScanSpec>): Option<seq<byte>>
    decreases |specs|
  {
    if specs == [] then Some(b)
    else
      var r := ReadSpec(codec, b);
      if r.Got? && r.value == specs[0] then SpecsAt(codec, r.rest, specs[1..]) else None
  }

  ghost predicate NewTo(specs: seq<ScanSpec>, table: Table) {
    Distinct(specs) && forall i :: 0 <= i < |specs| ==> specs[i].scanId !in table
  }

  function Extended(table: Table, specs: seq<ScanSpec>): Table
    decreases |specs|
  {
    if specs == [] then table else Extended(table[specs[0].scanId := specs[0]], specs[1..])
  }

  lemma NewToNext(specs: seq<ScanSpec>, table: Table)
    requires specs != []
    ensures NewTo(specs, table) <==>
              specs[0].scanId !in table && NewTo(specs[1..], table[specs[0].scanId := specs[0]])
  {
    var rest := specs[1..];
    if specs[0].scanId !in table && NewTo(rest, table[specs[0].scanId := specs[0]]) {
      forall i, j | 0 <= i < j < |specs| ensures specs[i].scanId != specs[j].scanId {
        assert specs[j] == rest[j - 1] && (i > 0 ==> specs[i] == rest[i - 1]);
      }
      forall i | 0 <= i < |specs| ensures specs[i].scanId !in table {
        if i > 0 { assert specs[i] == rest[i - 1]; }
      }
    }
  }

  lemma {:induction false} SpecsFound(codec: Codec, b: seq<byte>, n: nat, table: Table) returns (specs: seq<ScanSpec>)
    requires ParseSpecs(codec, b, n, table).Have?
    ensures |specs| == n && NewTo(specs, table) && SpecsAt(codec, b, specs) == Some(ParseSpecs(codec, b, n, table).rest)
    ensures ParseSpecs(codec, b, n, table).value == Extended(table, specs)
    decreases n
  {
    hide ReadSpec;
    if n == 0 { return []; }
    var r := ReadSpec(codec, b);
    var others := SpecsFound(codec, r.rest, n - 1, table[r.value.scanId := r.value]);
    specs := [r.value] + others;
    assert specs[1..] == others;
    NewToNext(specs, table);
  }

  lemma {:induction false} SpecsTaken(codec: Codec, b: seq<byte>, specs: seq<ScanSpec>, table: Table)
    requires SpecsAt(codec, b, specs).Some? && NewTo(specs, table)
    ensures ParseSpecs(codec, b, |specs|, table) == Have(Extended(table, specs), SpecsAt(codec, b, specs).value)
    decreases |specs|
  {
    hide ReadSpec;
    if specs != [] {
      NewToNext(specs, table);
      SpecsTaken(codec, ReadSpec(codec, b).rest, specs[1..], table[specs[0].scanId := specs[0]]);
    }
  }

  lemma {:induction false} ExtendedOne(table: Table, specs: seq<ScanSpec>, last: ScanSpec)
    ensures Extended(table, specs + [last]) == Extended(table, specs)[last.scanId := last]
    decreases |specs|
  {
    if specs != [] {
      assert (specs + [last])[1..] == specs[1..] + [last];
      ExtendedOne(table[specs[0].scanId := specs[0]], specs[1..], last);
    }
  }

  lemma {:induction false} ExtendedIsTable(specs: seq<ScanSpec>)
    ensures Extended(map[], specs) == TableOf(specs)
    decreases |specs|
  {
    if specs != [] {
      var front, last := specs[..|specs| - 1], specs[|specs| - 1];
      assert specs == front + [last];
      ExtendedOne(map[], front, last);
      ExtendedIsTable(front);
    }
  }

  /** Item by item, and nothing after it: an array of four, PFPL, 1, the count, the specs and the payload. */
  ghost predicate IsEnvelope(codec: Codec, input: seq<byte>, specs: seq<ScanSpec>, payload: seq<byte>) {
    var r0 := Read(ArrayLen, input);
    r0.Got? && r0.value == 4 &&
    var r1 := ReadText(codec, r0.rest);
    r1.Got? && r1.value == [0x50, 0x46, 0x50, 0x4c] &&
    var r2 := Read(U8, r1.rest);
    r2.Got? && r2.value == 1 &&
    var r3 := Read(ArrayLen, r2.rest);
    r3.Got? && r3.value == |specs| &&
    var b := SpecsAt(codec, r3.rest, specs);
    b.Some? &&
    var r4 := Read(BinLen, b.value);
    r4.Got? && r4.value == |payload| && r4.rest == payload
  }

  /** The payload stands for this plan over exactly these specs. */
  ghost predicate Stands(codec: PlanCodec, specs: seq<ScanSpec>, payload: seq<byte>, plan: Plan) {
    var skeleton := codec.skeleton(payload);
    skeleton.Some? && Rebuild(skeleton.value, TableOf(specs)) == Some(plan) && TableOf(specs).Keys == Used(plan)
  }

  ghost predicate Encloses(codec: PlanCodec, input: seq<byte>, specs: seq<ScanSpec>, payload: seq<byte>, plan: Plan) {
    IsEnvelope(codec.wire, input, specs, payload) && Distinct(specs) && Stands(codec, specs, payload, plan)
  }

  /** A stream is accepted as a plan exactly if it is an envelope of distinct specs that stands for that plan. */
  lemma AcceptsExactly(codec: PlanCodec, input: seq<byte>, plan: Plan)
    ensures PlanDecoder.Verdict(codec, input) == PlanDecoder.Done(plan) <==>
              exists specs, payload :: Encloses(codec, input, specs, payload, plan)
  {
    hide PlanDecoder.Verdict, Parse, IsEnvelope, Stands;
    VerdictIsParse(codec, input);
    if Parse(codec, input) == Have(plan, []) {
      var specs, payload := EnvelopeFound(codec, input, plan);
      assert Encloses(codec, input, specs, payload, plan);
    } else if specs, payload :| Encloses(codec, input, specs, payload, plan) {
      EnvelopeTaken(codec, input, specs, payload, plan);
    }
    if Parse(codec, input).Have? { NothingLeft(codec, input); }
  }

  lemma NothingLeft(codec: PlanCodec, input: seq<byte>)
    requires Parse(codec, input).Have?
    ensures Parse(codec, input).rest == []
  {
    hide ParseSpecs, Read, ReadText, Rebuild, Used;
  }

  lemma EnvelopeFound(codec: PlanCodec, input: seq<byte>, plan: Plan) returns (specs: seq<ScanSpec>, payload: seq<byte>)
    requires Parse(codec, input) == Have(plan, [])
    ensures IsEnvelope(codec.wire, input, specs, payload) && Distinct(specs) && Stands(codec, specs, payload, plan)
  {
    hide ParseSpecs, ParsePlan, Read, ReadText, SpecsAt, Stands;
    var b4 := Read(ArrayLen, Read(U8, ReadText(codec.wire, Read(ArrayLen, input).rest).rest).rest);
    specs := SpecsFound(codec.wire, b4.rest, b4.value, map[]);
    ExtendedIsTable(specs);
    payload := PayloadFound(codec, specs, SpecsAt(codec.wire, b4.rest, specs).value, plan);
  }

  lemma PayloadFound(codec: PlanCodec, specs: seq<ScanSpec>, b: seq<byte>, plan: Plan) returns (payload: seq<byte>)
    requires ParsePlan(codec, TableOf(specs), b) == Have(plan, [])
    ensures var r := Read(BinLen, b); r.Got? && r.value == |payload| && r.rest == payload
    ensures Stands(codec, specs, payload, plan)
  {
    hide Read, TableOf, Rebuild, Used;
    payload := Read(BinLen, b).rest;
    assert payload[..|payload|] == payload;
    TableKeyed(specs);
    UsedWithin(codec.skeleton(payload).value, TableOf(specs), plan);
    UsedIds(TableOf(specs), plan);
  }

  lemma UsedIds(table: Table, plan: Plan)
    requires forall s :: s in Specs(plan) ==> s.scanId in table
    ensures Used(plan) <= table.Keys
  {
  }

  lemma {:induction false} TableKeyed(specs: seq<ScanSpec>)
    ensures Keyed(TableOf(specs))
    decreases |specs|
  {
    if specs != [] { TableKeyed(specs[..|specs| - 1]); }
  }

  /** A plan rebuilt from a table of specs under their own ids uses no other id. */
  lemma {:induction false} UsedWithin(skeleton: Skeleton, table: Table, plan: Plan)
    requires Keyed(table) && Rebuild(skeleton, table) == Some(plan)
    ensures forall s :: s in Specs(plan) ==> s.scanId in table
    decreases skeleton
  {
    match skeleton
    case ScanRef(_) =>
    case Skel(_, inputs) => AllUsedWithin(inputs, table, plan.inputs);
  }

  lemma {:induction false} AllUsedWithin(skeletons: seq<Skeleton>, table: Table, plans: seq<Plan>)
    requires Keyed(table) && RebuildAll(skeletons, table) == Some(plans)
    ensures forall s :: s in SpecsAll(plans) ==> s.scanId in table
    decreases skeletons
  {
    if skeletons != [] {
      var first, others := Rebuild(skeletons[0], table).value, RebuildAll(skeletons[1..], table).value;
      assert plans == [first] + others && plans[1..] == others;
      UsedWithin(skeletons[0], table, first);
      AllUsedWithin(skeletons[1..], table, others);
    }
  }

  lemma EnvelopeTaken(codec: PlanCodec, input: seq<byte>, specs: seq<ScanSpec>, payload: seq<byte>, plan: Plan)
    requires IsEnvelope(codec.wire, input, specs, payload) && Distinct(specs) && Stands(codec, specs, payload, plan)
    ensures Parse(codec, input) == Have(plan, [])
  {
    hide ParseSpecs, Read, ReadText, SpecsAt, TableOf, Rebuild, Used;
    var b4 := Read(ArrayLen, Read(U8, ReadText(codec.wire, Read(ArrayLen, input).rest).rest).rest);
    SpecsTaken(codec.wire, b4.rest, specs, map[]);
    ExtendedIsTable(specs);
    assert payload[..|payload|] == payload && payload[|payload|..] == [];
  }
}
