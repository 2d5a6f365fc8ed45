/** What the encoder writes, the decoder turns back into the plan. */
module PlanRoundTrip {
  import opened Common
  import opened Bytes
  import opened MsgPack
  import opened PlanWire
  import opened PlanTree
  import opened PlanEncoder
  import PlanDecoder

  type PlanCodec = PlanDecoder.PlanCodec
  type Progress = PlanDecoder.Progress

  function TableOf(specs: seq<ScanSpec>): Table {
    if specs == [] then map[] else TableOf(specs[..|specs| - 1])[specs[|specs| - 1].scanId := specs[|specs| - 1]]
  }

  ghost predicate Distinct(specs: seq<ScanSpec>) {
    forall i, j :: 0 <= i < j < |specs| ==> specs[i].scanId != specs[j].scanId
  }

  lemma {:induction false} TableHas(specs: seq<ScanSpec>, k: nat)
    ensures k in TableOf(specs) <==> exists i :: 0 <= i < |specs| && specs[i].scanId == k
    decreases |specs|
  {
    if specs != [] {
      TableHas(specs[..|specs| - 1], k);
      if k in TableOf(specs[..|specs| - 1]) {
        var i :| 0 <= i < |specs| - 1 && specs[..|specs| - 1][i].scanId == k;
        assert specs[i].scanId == k;
      }
    }
  }

  /** Reading a buffer that starts with one written item moves on to the next stage. */
  lemma DriveItem(codec: PlanCodec, e: Envelope, i: nat, stage: PlanDecoder.Stage, table: Table, next: Progress)
    requires SpecsFit(e) && i < Items(e)
    requires PlanDecoder.Step(codec, PlanDecoder.Progress(stage, table, Flat(Item(e, i)) + Tail(e, i + 1)))
             == Some(next)
    ensures PlanDecoder.Drive(codec, PlanDecoder.Progress(stage, table, Tail(e, i))) == PlanDecoder.Drive(codec, next)
  {
    PlanDecoder.DriveStep(codec, PlanDecoder.Progress(stage, table, Tail(e, i)));
  }

  lemma FlatOne(b: seq<byte>)
    ensures Flat([b]) == b
  {
    assert b + [] == b;
  }

  /** The four items before the specs. */
  lemma HeadDecodes(codec: PlanCodec, e: Envelope)
    requires SpecsFit(e) && Sendable(e) && codec.wire.utf8(MAGIC)
    ensures PlanDecoder.Drive(codec, PlanDecoder.Feed(PlanDecoder.FRESH, EnvelopeBytes(e)))
         == PlanDecoder.Drive(codec, PlanDecoder.AfterCount(PlanDecoder.FRESH, |e.specs|, Tail(e, 4)))
  {
    hide PlanDecoder.Drive, Tail, Flat, Read, Write, ReadText, ReadSpec;
    FlatOne(Write(ArrayLen, ENVELOPE_TAG));
    ReadWritten(ArrayLen, ENVELOPE_TAG, Tail(e, 1));
    DriveItem(codec, e, 0, PlanDecoder.EnvelopeDue, map[],
              PlanDecoder.Progress(PlanDecoder.MagicDue, map[], Tail(e, 1)));
    FlatMagic();
    TextWritten(codec.wire, MAGIC, Tail(e, 2));
    DriveItem(codec, e, 1, PlanDecoder.MagicDue, map[],
              PlanDecoder.Progress(PlanDecoder.VersionDue, map[], Tail(e, 2)));
    FlatOne(Write(U8, VERSION));
    ReadWritten(U8, VERSION, Tail(e, 3));
    DriveItem(codec, e, 2, PlanDecoder.VersionDue, map[],
              PlanDecoder.Progress(PlanDecoder.SpecsDue, map[], Tail(e, 3)));
    FlatOne(Write(ArrayLen, |e.specs|));
    ReadWritten(ArrayLen, |e.specs|, Tail(e, 4));
    DriveItem(codec, e, 3, PlanDecoder.SpecsDue, map[],
              PlanDecoder.AfterCount(PlanDecoder.FRESH, |e.specs|, Tail(e, 4)));
    assert PlanDecoder.Feed(PlanDecoder.FRESH, EnvelopeBytes(e))
           == PlanDecoder.Progress(PlanDecoder.EnvelopeDue, map[], Tail(e, 0));
  }

  lemma FlatMagic()
    ensures Flat([Write(StrLen, |MAGIC|), MAGIC]) == WriteText(MAGIC)
  {
    var p := [Write(StrLen, |MAGIC|), MAGIC];
    assert p[1..] == [MAGIC];
    FlatOne(MAGIC);
  }

  /** The specs from the i-th on. */
  lemma {:induction false} SpecsDecode(codec: PlanCodec, e: Envelope, i: nat)
    requires SpecsFit(e) && i < |e.specs| && Distinct(e.specs)
             && forall j :: 0 <= j < |e.specs| ==> Readable(codec.wire, e.specs[j])
    ensures PlanDecoder.Drive(codec,
                              PlanDecoder.Progress(PlanDecoder.SpecDue(|e.specs| - i), TableOf(e.specs[..i]),
                                                   Tail(e, 4 + i)))
         == PlanDecoder.Drive(codec,
                              PlanDecoder.Progress(PlanDecoder.PlanLenDue, TableOf(e.specs), Tail(e, 4 + |e.specs|)))
    decreases |e.specs| - i
  {
    hide PlanDecoder.Drive, Tail, Flat, Read, ReadText, ReadSpec, TableOf;
    var table, spec := TableOf(e.specs[..i]), e.specs[i];
    ReadableExactly(codec.wire, spec, Tail(e, 5 + i));
    TableHas(e.specs[..i], spec.scanId);
    TableNext(e.specs, i);
    var p := PlanDecoder.Progress(PlanDecoder.SpecDue(|e.specs| - i), table, Tail(e, 4 + i));
    var next := PlanDecoder.AfterSpec(p, |e.specs| - i, spec, Tail(e, 5 + i));
    DriveItem(codec, e, 4 + i, p.stage, table, next);
    if i + 1 < |e.specs| { SpecsDecode(codec, e, i + 1); } else { assert e.specs[..i + 1] == e.specs; }
  }

  lemma TableNext(specs: seq<ScanSpec>, i: nat)
    requires i < |specs|
    ensures TableOf(specs[..i + 1]) == TableOf(specs[..i])[specs[i].scanId := specs[i]]
  {
    assert specs[..i + 1][..i] == specs[..i];
  }

  lemma PlanDecodes(codec: PlanCodec, e: Envelope, table: Table)
    requires SpecsFit(e) && Sendable(e)
    ensures PlanDecoder.Drive(codec, PlanDecoder.Progress(PlanDecoder.PlanLenDue, table, Tail(e, 4 + |e.specs|)))
         == PlanDecoder.Drive(codec, PlanDecoder.AfterPlan(codec, table, e.plan, []))
  {
    hide PlanDecoder.Drive, Flat, Read, Write, ReadText, ReadSpec, PlanDecoder.AfterPlan;
    var n := |e.specs|;
    assert Tail(e, 6 + n) == [] && Tail(e, 5 + n) == Flat(Item(e, 5 + n)) + [];
    FlatOne(e.plan);
    FlatOne(Write(BinLen, |e.plan|));
    ReadWritten(BinLen, |e.plan|, Tail(e, 5 + n));
    DriveItem(codec, e, 4 + n, PlanDecoder.PlanLenDue, table,
              PlanDecoder.Progress(PlanDecoder.PlanDue(|e.plan|), table, Tail(e, 5 + n)));
    assert e.plan[..|e.plan|] == e.plan && e.plan[|e.plan|..] == [] && e.plan + [] == e.plan;
    PlanDecoder.DriveStep(codec, PlanDecoder.Progress(PlanDecoder.PlanDue(|e.plan|), table, Tail(e, 5 + n)));
  }

  /** Whatever was encoded, the decoder reads the same specs and the same payload, and builds from them. */
  lemma EnvelopeDecodes(codec: PlanCodec, e: Envelope)
    requires SpecsFit(e) && Sendable(e) && Distinct(e.specs) && codec.wire.utf8(MAGIC)
    requires forall j :: 0 <= j < |e.specs| ==> Readable(codec.wire, e.specs[j])
    ensures PlanDecoder.Drive(codec, PlanDecoder.Feed(PlanDecoder.FRESH, EnvelopeBytes(e)))
         == PlanDecoder.Drive(codec, PlanDecoder.AfterPlan(codec, TableOf(e.specs), e.plan, []))
  {
    hide PlanDecoder.Drive, PlanDecoder.AfterPlan, Tail, PlanDecoder.Feed, EnvelopeBytes, Distinct;
    HeadDecodes(codec, e);
    if e.specs != [] {
      assert e.specs[..0] == [];
      SpecsDecode(codec, e, 0);
    }
    PlanDecodes(codec, e, TableOf(e.specs));
  }

  /** The table in key order, as the encoder walks it. */
  ghost predicate Lists(specs: seq<ScanSpec>, table: Table) {
    && (forall i, j :: 0 <= i < j < |specs| ==> specs[i].scanId < specs[j].scanId)
    && (forall i :: 0 <= i < |specs| ==> specs[i].scanId in table && table[specs[i].scanId] == specs[i])
    && (forall k :: k in table ==> exists i :: 0 <= i < |specs| && specs[i].scanId == k)
  }

  lemma {:induction false} TableFrom(specs: seq<ScanSpec>, i: nat)
    requires i < |specs| && Distinct(specs)
    ensures specs[i].scanId in TableOf(specs) && TableOf(specs)[specs[i].scanId] == specs[i]
    decreases |specs|
  {
    var front := specs[..|specs| - 1];
    if i < |specs| - 1 {
      TableFrom(front, i);
      assert front[i] == specs[i];
    }
  }

  lemma ListsTable(specs: seq<ScanSpec>, table: Table)
    requires Lists(specs, table)
    ensures Distinct(specs) && TableOf(specs) == table
  {
    forall k ensures k in TableOf(specs) <==> k in table { TableHas(specs, k); }
    forall k | k in table ensures TableOf(specs)[k] == table[k] {
      var i :| 0 <= i < |specs| && specs[i].scanId == k;
      TableFrom(specs, i);
    }
  }

  /** The envelope `PlanEncodeSession::new` takes from a plan. */
  ghost predicate EnvelopeOf(codec: PlanCodec, p: Plan, e: Envelope) {
    && Lists(e.specs, Collect(p, map[])) && codec.skeleton(e.plan) == Some(Strip(p)) && codec.wire.utf8(MAGIC)
    && SpecsFit(e) && Sendable(e) && forall j :: 0 <= j < |e.specs| ==> Readable(codec.wire, e.specs[j])
  }

  /** Every encoded plan is accepted, and it comes back the same exactly when equal scan ids carried equal specs. */
  lemma PlanRoundTrips(codec: PlanCodec, p: Plan, e: Envelope)
    requires EnvelopeOf(codec, p, e)
    ensures PlanDecoder.Verdict(codec, EnvelopeBytes(e)).Done?
    ensures PlanDecoder.Verdict(codec, EnvelopeBytes(e)) == PlanDecoder.Done(p) <==> Agree(p)
  {
    hide Tail, PlanDecoder.Feed, EnvelopeBytes, Rebuild, Strip, Collect, Used, PlanDecoder.Step, PlanDecoder.Drive,
        Agree, Readable, Lists, SpecsFit;
    var table := Collect(p, map[]);
    ListsTable(e.specs, table);
    EnvelopeDecodes(codec, e);
    CollectOk(p, map[]);
    RebuildSame(p, table);
    RoundTripsExactly(p);
    var q := Rebuild(Strip(p), table).value;
    SameIds(p, table);
    NoOrphans(p);
    Built(codec, Strip(p), table, q);
  }

  lemma Built(codec: PlanCodec, k: Skeleton, table: Table, q: Plan)
    requires Rebuild(k, table) == Some(q) && table.Keys == Used(q)
    ensures PlanDecoder.Drive(codec, PlanDecoder.Progress(PlanDecoder.Building(k), table, []))
            == PlanDecoder.Progress(PlanDecoder.Ready(q), table, [])
  {
    hide Rebuild, Used, PlanDecoder.Drive;
    PlanDecoder.DriveStep(codec, PlanDecoder.Progress(PlanDecoder.Building(k), table, []));
    PlanDecoder.DriveStops(codec, PlanDecoder.Progress(PlanDecoder.Ready(q), table, []));
  }

  // ---- The rebuilt plan uses the ids of the original --------------------------------------------

  ghost predicate Keyed(table: Table) { forall k :: k in table ==> table[k].scanId == k }

  function Ids(specs: set<ScanSpec>): set<nat> { set s | s in specs :: s.scanId }

  lemma SameIds(p: Plan, table: Table)
    requires table == Collect(p, map[])
    ensures Rebuild(Strip(p), table).Some? && Used(Rebuild(Strip(p), table).value) == Used(p)
  {
    CollectOk(p, map[]);
    NoOrphans(p);
    RebuildIds(p, table);
  }

  lemma {:induction false} RebuildIds(p: Plan, table: Table)
    requires Keyed(table) && forall s :: s in Specs(p) ==> s.scanId in table
    ensures Rebuild(Strip(p), table).Some? && Ids(Specs(Rebuild(Strip(p), table).value)) == Ids(Specs(p))
    decreases p
  {
    match p
    case Scan(spec) =>
    case Node(_, inputs) => RebuildAllIds(inputs, table);
  }

  lemma {:induction false} RebuildAllIds(ps: seq<Plan>, table: Table)
    requires Keyed(table) && forall s :: s in SpecsAll(ps) ==> s.scanId in table
    ensures RebuildAll(StripAll(ps), table).Some?
            && Ids(SpecsAll(RebuildAll(StripAll(ps), table).value)) == Ids(SpecsAll(ps))
    decreases ps
  {
    if ps != [] {
      var ks := StripAll(ps);
      assert ks[0] == Strip(ps[0]) && ks[1..] == StripAll(ps[1..]);
      RebuildIds(ps[0], table);
      RebuildAllIds(ps[1..], table);
      var first, others := Rebuild(ks[0], table).value, RebuildAll(ks[1..], table).value;
      assert RebuildAll(ks, table).value == [first] + others && ([first] + others)[1..] == others;
      IdsJoin(Specs(first), SpecsAll(others));
      IdsJoin(Specs(ps[0]), SpecsAll(ps[1..]));
    }
  }

  lemma IdsJoin(a: set<ScanSpec>, b: set<ScanSpec>)
    ensures Ids(a + b) == Ids(a) + Ids(b)
  {
  }
}
