/** Logical plans with scan leaves: the table of scan specs taken out of a plan, and put back. */
module PlanTree {
  import opened Common
  import opened MsgPack
  import opened PlanWire

  datatype Plan = Scan(spec: ScanSpec) | Node(kind: nat, inputs: seq<Plan>)

  /** A plan whose scans are reduced to their ids, as the protobuf payload carries it. */
  datatype Skeleton = ScanRef(scanId: nat) | Skel(kind: nat, inputs: seq<Skeleton>)

  type Table = map<nat, ScanSpec>

  // ---- Taking apart and putting together -----------------------------------------------------

  function Strip(p: Plan): Skeleton {
    match p
    case Scan(spec) => ScanRef(spec.scanId)
    case Node(kind, inputs) => Skel(kind, StripAll(inputs))
  }

  function StripAll(ps: seq<Plan>): (r: seq<Skeleton>)
    ensures |r| == |ps|
  {
    if ps == [] then [] else [Strip(ps[0])] + StripAll(ps[1..])
  }

  /** `collect_pg_scan_specs_inner`: the first spec met for an id stays. */
  function Collect(p: Plan, table: Table): Table {
    match p
    case Scan(spec) => if spec.scanId in table then table else table[spec.scanId := spec]
    case Node(_, inputs) => CollectAll(inputs, table)
  }

  function CollectAll(ps: seq<Plan>, table: Table): Table {
    if ps == [] then table else CollectAll(ps[1..], Collect(ps[0], table))
  }

  /** `try_decode`: a scan id is looked up in the table. */
  function Rebuild(k: Skeleton, table: Table): Option<Plan> {
    match k
    case ScanRef(id) => if id in table then Some(Scan(table[id])) else None
    case Skel(kind, inputs) =>
      var built := RebuildAll(inputs, table);
      if built.Some? then Some(Node(kind, built.value)) else None
  }

  function RebuildAll(ks: seq<Skeleton>, table: Table): Option<seq<Plan>> {
    if ks == [] then Some([])
    else
      var first, others := Rebuild(ks[0], table), RebuildAll(ks[1..], table);
      if first.Some? && others.Some? then Some([first.value] + others.value) else None
  }

  /** The specs of the scans of a plan. */
  function Specs(p: Plan): set<ScanSpec> {
    match p
    case Scan(spec) => {spec}
    case Node(_, inputs) => SpecsAll(inputs)
  }

  function SpecsAll(ps: seq<Plan>): set<ScanSpec> {
    if ps == [] then {} else Specs(ps[0]) + SpecsAll(ps[1..])
  }

  /** `collect_used_scan_ids`. */
  function Used(p: Plan): set<nat> { set s | s in Specs(p) :: s.scanId }

  /** Scans with the same id carry the same spec. */
  ghost predicate Agree(p: Plan) {
    forall s, t :: s in Specs(p) && t in Specs(p) && s.scanId == t.scanId ==> s == t
  }

  // ---- What is collected ---------------------------------------------------------------------

  /** The table holds earlier specs as they were, the specs of the plan otherwise, and every id of the plan. */
  ghost predicate Collected(specs: set<ScanSpec>, before: Table, table: Table) {
    && (forall k :: k in before ==> k in table && table[k] == before[k])
    && (forall k :: k in table && k !in before ==> table[k] in specs && table[k].scanId == k)
    && (forall s :: s in specs ==> s.scanId in table)
  }

  lemma {:induction false} CollectOk(p: Plan, before: Table)
    ensures Collected(Specs(p), before, Collect(p, before))
    decreases p
  {
    if p.Node? { CollectAllOk(p.inputs, before); }
  }

  lemma {:induction false} CollectAllOk(ps: seq<Plan>, before: Table)
    ensures Collected(SpecsAll(ps), before, CollectAll(ps, before))
    decreases ps
  {
    if ps != [] {
      CollectOk(ps[0], before);
      CollectAllOk(ps[1..], Collect(ps[0], before));
    }
  }

  /** Rebuilding gives the same plan exactly when the table holds each scan's own spec. */
  ghost predicate HoldsOwn(specs: set<ScanSpec>, table: Table) {
    forall s :: s in specs ==> s.scanId in table && table[s.scanId] == s
  }

  lemma {:induction false} RebuildSame(p: Plan, table: Table)
    requires forall s :: s in Specs(p) ==> s.scanId in table
    ensures Rebuild(Strip(p), table).Some? && (Rebuild(Strip(p), table).value == p <==> HoldsOwn(Specs(p), table))
    decreases p
  {
    if p.Node? { RebuildAllSame(p.inputs, table); }
  }

  lemma {:induction false} RebuildAllSame(ps: seq<Plan>, table: Table)
    requires forall s :: s in SpecsAll(ps) ==> s.scanId in table
    ensures RebuildAll(StripAll(ps), table).Some?
    ensures RebuildAll(StripAll(ps), table).value == ps <==> HoldsOwn(SpecsAll(ps), table)
    decreases ps
  {
    if ps != [] {
      var ks := StripAll(ps);
      assert ks[0] == Strip(ps[0]) && ks[1..] == StripAll(ps[1..]);
      RebuildSame(ps[0], table);
      RebuildAllSame(ps[1..], table);
      var first, others := Rebuild(ks[0], table).value, RebuildAll(ks[1..], table).value;
      assert RebuildAll(ks, table).value == [first] + others;
      assert [first] + others == ps <==> first == ps[0] && others == ps[1..] by {
        if [first] + others == ps { assert others == ([first] + others)[1..]; }
        if first == ps[0] && others == ps[1..] { assert [ps[0]] + ps[1..] == ps; }
      }
    }
  }

  /** A plan survives losing its specs to the table exactly when equal scan ids carry equal specs. */
  lemma RoundTripsExactly(p: Plan)
    ensures Rebuild(Strip(p), Collect(p, map[])) == Some(p) <==> Agree(p)
  {
    var table := Collect(p, map[]);
    CollectOk(p, map[]);
    RebuildSame(p, table);
    if Agree(p) {
      forall s | s in Specs(p) ensures s.scanId in table && table[s.scanId] == s {
        assert table[s.scanId] in Specs(p);
      }
    }
  }

  /** Two scans of one id with different specs come back as two scans of the first. */
  lemma ConflictLosesSpec(a: ScanSpec, b: ScanSpec)
    requires a.scanId == b.scanId && a != b
    ensures var p := Node(0, [Scan(a), Scan(b)]);
            !Agree(p) && Rebuild(Strip(p), Collect(p, map[])) == Some(Node(0, [Scan(a), Scan(a)]))
  {
    var p := Node(0, [Scan(a), Scan(b)]);
    var ps, second := p.inputs, [Scan(b)];
    assert ps[1..] == second && second[1..] == [];
    assert SpecsAll(second) == {b} + SpecsAll([]) && SpecsAll(ps) == {a} + SpecsAll(second);
    assert a in Specs(p) && b in Specs(p);
    var table: Table := map[a.scanId := a];
    assert Collect(ps[0], map[]) == table && Collect(second[0], table) == table;
    assert CollectAll(second, table) == CollectAll([], table) && CollectAll(ps, map[]) == CollectAll(second, table);
    var ref := ScanRef(a.scanId);
    assert StripAll(second) == [ref] + StripAll([]) && StripAll(ps) == [ref] + StripAll(second);
    var ks, last := [ref, ref], [ref];
    assert ks[1..] == last && last[1..] == [];
    assert StripAll(ps) == ks && Strip(p) == Skel(0, ks) && Collect(p, map[]) == table;
    var one: seq<Plan> := [Scan(a)];
    assert one + [] == one && one + one == [Scan(a), Scan(a)];
    assert RebuildAll(last, table) == Some(one + []) && RebuildAll(ks, table) == Some(one + one);
  }

  /** Every id of the plan is in its table and nothing else is, so the decoder finds no orphan and misses nothing. */
  lemma NoOrphans(p: Plan)
    ensures Collect(p, map[]).Keys == Used(p) && forall k :: k in Collect(p, map[]) ==> Collect(p, map[])[k].scanId == k
  {
    var table := Collect(p, map[]);
    CollectOk(p, map[]);
    forall k | k in table ensures k in Used(p) { assert table[k] in Specs(p); }
  }

  // ---- What comes back when ids clash ---------------------------------------------------------

  /** The scans of a plan in the order of a walk from the root, inputs left to right. */
  function Leaves(p: Plan): seq<ScanSpec> {
    match p
    case Scan(spec) => [spec]
    case Node(_, inputs) => LeavesAll(inputs)
  }

  function LeavesAll(ps: seq<Plan>): seq<ScanSpec> {
    if ps == [] then [] else Leaves(ps[0]) + LeavesAll(ps[1..])
  }

  /** The first of these specs with an id. */
  function FirstWith(specs: seq<ScanSpec>, id: nat): Option<ScanSpec> {
    if specs == [] then None else if specs[0].scanId == id then Some(specs[0]) else FirstWith(specs[1..], id)
  }

  function At(table: Table, id: nat): Option<ScanSpec> { if id in table then Some(table[id]) else None }

  lemma {:induction false} FirstOfBoth(a: seq<ScanSpec>, b: seq<ScanSpec>, id: nat)
    ensures FirstWith(a + b, id) == if FirstWith(a, id).Some? then FirstWith(a, id) else FirstWith(b, id)
    decreases |a|
  {
    if a == [] {
      assert a + b == b;
    } else {
      assert (a + b)[1..] == a[1..] + b;
      FirstOfBoth(a[1..], b, id);
    }
  }

  /** The table has for each id the first spec on the walk. */
  lemma {:induction false} CollectsFirst(p: Plan, before: Table, id: nat)
    ensures At(Collect(p, before), id) == if id in before then Some(before[id]) else FirstWith(Leaves(p), id)
    decreases p
  {
    match p
    case Scan(spec) => assert [spec][1..] == [];
    case Node(_, inputs) => CollectsAllFirst(inputs, before, id);
  }

  lemma {:induction false} CollectsAllFirst(ps: seq<Plan>, before: Table, id: nat)
    ensures At(CollectAll(ps, before), id) == if id in before then Some(before[id]) else FirstWith(LeavesAll(ps), id)
    decreases ps
  {
    if ps != [] {
      CollectsFirst(ps[0], before, id);
      CollectsAllFirst(ps[1..], Collect(ps[0], before), id);
      FirstOfBoth(Leaves(ps[0]), LeavesAll(ps[1..]), id);
    }
  }

  /** Each scan looked up in a table of specs under their own ids. */
  ghost predicate LookedUp(was: seq<ScanSpec>, now: seq<ScanSpec>, table: Table) {
    |was| == |now| && forall i :: 0 <= i < |was| ==> At(table, was[i].scanId) == Some(now[i])
  }

  lemma {:induction false} RebuildLooksUp(p: Plan, table: Table)
    requires (forall k :: k in table ==> table[k].scanId == k) && forall s :: s in Specs(p) ==> s.scanId in table
    ensures Rebuild(Strip(p), table).Some?
    ensures var q := Rebuild(Strip(p), table).value; Strip(q) == Strip(p) && LookedUp(Leaves(p), Leaves(q), table)
    decreases p
  {
    if p.Node? { RebuildAllLooksUp(p.inputs, table); }
  }

  lemma {:induction false} RebuildAllLooksUp(ps: seq<Plan>, table: Table)
    requires (forall k :: k in table ==> table[k].scanId == k) && forall s :: s in SpecsAll(ps) ==> s.scanId in table
    ensures RebuildAll(StripAll(ps), table).Some?
    ensures var qs := RebuildAll(StripAll(ps), table).value;
            StripAll(qs) == StripAll(ps) && LookedUp(LeavesAll(ps), LeavesAll(qs), table)
    decreases ps
  {
    if ps != [] {
      var ks := StripAll(ps);
      assert ks[0] == Strip(ps[0]) && ks[1..] == StripAll(ps[1..]);
      RebuildLooksUp(ps[0], table);
      RebuildAllLooksUp(ps[1..], table);
      var first, others := Rebuild(ks[0], table).value, RebuildAll(ks[1..], table).value;
      var qs := [first] + others;
      assert RebuildAll(ks, table).value == qs && qs[0] == first && qs[1..] == others;
    }
  }

  /** A plan comes back with its shape, and each of its scans with the first spec on the walk that has its id. */
  lemma ComesBackFirst(p: Plan)
    ensures Rebuild(Strip(p), Collect(p, map[])).Some?
    ensures var q := Rebuild(Strip(p), Collect(p, map[])).value;
            && Strip(q) == Strip(p) && |Leaves(q)| == |Leaves(p)|
            && forall i :: 0 <= i < |Leaves(p)| ==> FirstWith(Leaves(p), Leaves(p)[i].scanId) == Some(Leaves(q)[i])
  {
    hide Collect, Rebuild, Strip, Leaves, Specs;
    CollectOk(p, map[]);
    RebuildLooksUp(p, Collect(p, map[]));
    forall i | 0 <= i < |Leaves(p)| { CollectsFirst(p, map[], Leaves(p)[i].scanId); }
  }
}
