/** Bushy join trees over a join-ordering problem and the statistics they produce. */
module JoinTrees {
  import opened Common
  import opened Bits
  import opened JoinProblem

  datatype JoinTree = Leaf(rel: nat) | Node(left: JoinTree, right: JoinTree)

  function Rels(t: JoinTree): (s: set<nat>)
    ensures s != {}
  {
    match t
    case Leaf(r) => {r}
    case Node(l, r) => assert Rels(l) <= Rels(l) + Rels(r); Rels(l) + Rels(r)
  }

  /** Every leaf is a relation used once, and every join is linked or cross joins are allowed. */
  ghost predicate Admissible(p: Problem, cross: bool, t: JoinTree) {
    match t
    case Leaf(r) => r < |p.rels|
    case Node(l, r) =>
      Admissible(p, cross, l) && Admissible(p, cross, r) && Rels(l) !! Rels(r)
      && LinkOrCross(p, cross, Rels(l), Rels(r)).Some?
  }

  ghost function Stats(p: Problem, cross: bool, t: JoinTree): PlanStats
    requires Admissible(p, cross, t)
  {
    match t
    case Leaf(r) => PlanStats(0.0, p.rels[r].rows, p.rels[r].bytes)
    case Node(l, r) =>
      StatsOf(EstimateJoin(0, 0, Stats(p, cross, l), Stats(p, cross, r), LinkOrCross(p, cross, Rels(l), Rels(r)).value))
  }

  /** Each join has the lowest relation of its set on the left. */
  ghost predicate Anchored(t: JoinTree) {
    match t
    case Leaf(_) => true
    case Node(l, r) => Anchored(l) && Anchored(r) && Lowest(Rels(t)) in Rels(l)
  }

  lemma {:induction false} RelsInUniverse(p: Problem, cross: bool, t: JoinTree)
    requires Admissible(p, cross, t)
    ensures forall r :: r in Rels(t) ==> 0 <= r < |p.rels|
    decreases t
  {
    if t.Node? {
      RelsInUniverse(p, cross, t.left);
      RelsInUniverse(p, cross, t.right);
    }
  }

  /** Without cross joins a tree only covers connected sets, hyperedges included. */
  lemma {:induction false} TreeConnected(p: Problem, t: JoinTree)
    requires WellFormed(p) && Admissible(p, false, t)
    ensures Connected(p, Rels(t))
    decreases t
  {
    match t
    case Leaf(r) => SingletonConnected(p, r);
    case Node(l, r) =>
      TreeConnected(p, l);
      TreeConnected(p, r);
      LinkedConnected(p, Rels(l), Rels(r));
  }

  lemma LinkedConnected(p: Problem, a: set<nat>, b: set<nat>)
    requires WellFormed(p) && Connected(p, a) && Connected(p, b) && HasLink(p, a, b)
    ensures Connected(p, a + b)
  {
    var i :| 0 <= i < |p.edges| && Crosses(p.edges[i], a, b);
    var e := p.edges[i];
    assert GoodEdge(p, e);
    Nonzero(e.left);
    Nonzero(e.right);
    var x :| x in Members(e.left);
    var y :| y in Members(e.right);
    assert x in EdgeRels(e) && y in EdgeRels(e);
    ConnectedUnion(p, a, b, e);
  }

  // ---- Reordering the sides of joins -------------------------------------

  /** Swap sides bottom-up until the tree is anchored. */
  ghost function Reanchor(t: JoinTree): (u: JoinTree)
    ensures Rels(u) == Rels(t) && Anchored(u)
  {
    match t
    case Leaf(_) => t
    case Node(l, r) =>
      if Lowest(Rels(t)) in Rels(l) then Node(Reanchor(l), Reanchor(r))
      else assert Rels(Node(Reanchor(r), Reanchor(l))) == Rels(t); Node(Reanchor(r), Reanchor(l))
  }

  ghost predicate AllCommutative(p: Problem) {
    forall e :: e in p.edges ==> e.commutative
  }

  lemma LinkSymmetric(p: Problem, cross: bool, a: set<nat>, b: set<nat>)
    ensures LinkOrCross(p, cross, a, b) == LinkOrCross(p, cross, b, a)
  {
    LinkSelectivitySymmetric(p, a, b, |p.edges|);
    assert forall i :: 0 <= i < |p.edges| ==> Crosses(p.edges[i], a, b) == Crosses(p.edges[i], b, a);
  }

  lemma {:induction false} LinkSelectivitySymmetric(p: Problem, a: set<nat>, b: set<nat>, k: nat)
    requires k <= |p.edges|
    ensures LinkSelectivity(p, a, b, k) == LinkSelectivity(p, b, a, k)
    decreases k
  {
    if k > 0 { LinkSelectivitySymmetric(p, a, b, k - 1); }
  }

  /** With a commutative link, both orders of a join cost the same. */
  lemma SwapJoin(l: PlanStats, r: PlanStats, link: JoinLink)
    requires link.commutative
    ensures StatsOf(EstimateJoin(0, 0, l, r, link)) == StatsOf(EstimateJoin(0, 0, r, l, link))
  {
    TimesCommutes(l.rows, r.rows);
  }

  lemma {:induction false} ReanchorAdmissible(p: Problem, cross: bool, t: JoinTree)
    requires Admissible(p, cross, t)
    ensures Admissible(p, cross, Reanchor(t))
    ensures AllCommutative(p) ==> Stats(p, cross, Reanchor(t)) == Stats(p, cross, t)
    decreases t
  {
    match t
    case Leaf(_) =>
    case Node(l, r) =>
      ReanchorAdmissible(p, cross, l);
      ReanchorAdmissible(p, cross, r);
      LinkSymmetric(p, cross, Rels(l), Rels(r));
      if AllCommutative(p) && Lowest(Rels(t)) !in Rels(l) {
        SwapJoin(Stats(p, cross, l), Stats(p, cross, r), LinkOrCross(p, cross, Rels(l), Rels(r)).value);
      }
  }

  // ---- When the statistics depend only on the set ------------------------

  /** Any two trees over the same relations agree on rows and bytes. */
  ghost predicate StatsIndependent(p: Problem, cross: bool) {
    forall t, u :: Admissible(p, cross, t) && Admissible(p, cross, u) && Rels(t) == Rels(u) ==>
      Stats(p, cross, t).rows == Stats(p, cross, u).rows && Stats(p, cross, t).bytes == Stats(p, cross, u).bytes
  }

  /** Each edge links two single relations. */
  ghost predicate UnitEdges(p: Problem) {
    forall e :: e in p.edges ==> |Members(e.left)| == 1 && |Members(e.right)| == 1
  }

  /** Product of the row counts of the relations below `i` that are in `s`. */
  ghost function RelProduct(p: Problem, s: set<nat>, i: nat): real
    requires i <= |p.rels|
  {
    if i == 0 then 1.0
    else if i - 1 in s then Times(RelProduct(p, s, i - 1), p.rels[i - 1].rows)
    else RelProduct(p, s, i - 1)
  }

  /** Product of the selectivities of the first `k` edges that lie inside `s`. */
  ghost function InsideSelectivity(p: Problem, s: set<nat>, k: nat): real
    requires k <= |p.edges|
  {
    if k == 0 then 1.0
    else if EdgeRels(p.edges[k - 1]) <= s then Times(InsideSelectivity(p, s, k - 1), p.edges[k - 1].selectivity)
    else InsideSelectivity(p, s, k - 1)
  }

  ghost function SetRows(p: Problem, s: set<nat>): real {
    Times(RelProduct(p, s, |p.rels|), InsideSelectivity(p, s, |p.edges|))
  }

  function RelWidth(s: RelStats): real {
    if s.rows > 0.0 then Over(s.bytes, s.rows) else 0.0
  }

  ghost function SetWidth(p: Problem, s: set<nat>, i: nat): real
    requires i <= |p.rels|
  {
    if i == 0 then 0.0
    else if i - 1 in s then SetWidth(p, s, i - 1) + RelWidth(p.rels[i - 1])
    else SetWidth(p, s, i - 1)
  }

  lemma TimesCommutes(a: real, b: real)
    ensures Times(a, b) == Times(b, a)
  {
  }

  lemma TimesAssociates(a: real, b: real, c: real)
    ensures Times(Times(a, b), c) == Times(a, Times(b, c))
  {
  }

  lemma ScaleFirst(x: real, y: real, s: real)
    ensures Times(Times(x, y), s) == Times(Times(x, s), y)
  {
    hide Times;
    TimesAssociates(x, y, s);
    TimesCommutes(y, s);
    TimesAssociates(x, s, y);
  }

  lemma FourFactors(a: real, b: real, c: real, d: real)
    ensures Times(Times(a, b), Times(c, d)) == Times(Times(a, c), Times(b, d))
  {
    hide Times;
    TimesAssociates(Times(a, b), c, d);
    ScaleFirst(a, b, c);
    TimesAssociates(Times(a, c), b, d);
  }

  lemma {:induction false} RelProductUnion(p: Problem, a: set<nat>, b: set<nat>, i: nat)
    requires i <= |p.rels| && a !! b
    ensures RelProduct(p, a + b, i) == Times(RelProduct(p, a, i), RelProduct(p, b, i))
    decreases i
  {
    if i > 0 {
      hide Times;
      RelProductUnion(p, a, b, i - 1);
      var x, y, s := RelProduct(p, a, i - 1), RelProduct(p, b, i - 1), p.rels[i - 1].rows;
      ScaleFirst(x, y, s);
      TimesAssociates(x, y, s);
    }
  }

  lemma {:induction false} SetWidthUnion(p: Problem, a: set<nat>, b: set<nat>, i: nat)
    requires i <= |p.rels| && a !! b
    ensures SetWidth(p, a + b, i) == SetWidth(p, a, i) + SetWidth(p, b, i)
    decreases i
  {
    if i > 0 { SetWidthUnion(p, a, b, i - 1); }
  }

  /** A unit edge inside a union lies inside one side or crosses, and never both. */
  lemma UnitEdgeCases(p: Problem, e: Edge, a: set<nat>, b: set<nat>)
    requires UnitEdges(p) && e in p.edges && GoodEdge(p, e) && a !! b
    ensures EdgeRels(e) <= a + b <==> EdgeRels(e) <= a || EdgeRels(e) <= b || Crosses(e, a, b)
    ensures !(EdgeRels(e) <= a && EdgeRels(e) <= b)
    ensures Crosses(e, a, b) ==> !(EdgeRels(e) <= a) && !(EdgeRels(e) <= b)
  {
    var x :| x in Members(e.left);
    var y :| y in Members(e.right);
    OneMember(Members(e.left), x);
    OneMember(Members(e.right), y);
    assert EdgeRels(e) == {x, y};
  }

  lemma {:induction false} InsideSelectivityUnion(p: Problem, a: set<nat>, b: set<nat>, k: nat)
    requires WellFormed(p) && UnitEdges(p) && a !! b && k <= |p.edges|
    ensures InsideSelectivity(p, a + b, k)
         == Times(Times(InsideSelectivity(p, a, k), InsideSelectivity(p, b, k)), LinkSelectivity(p, a, b, k))
    decreases k
  {
    if k > 0 {
      hide Times;
      InsideSelectivityUnion(p, a, b, k - 1);
      var e := p.edges[k - 1];
      assert GoodEdge(p, e);
      UnitEdgeCases(p, e, a, b);
      hide GoodEdge, EdgeRels, Crosses, UnitEdges, WellFormed;
      var x, y, z, s := InsideSelectivity(p, a, k - 1), InsideSelectivity(p, b, k - 1),
          LinkSelectivity(p, a, b, k - 1), e.selectivity;
      ScaleFirst(Times(x, y), z, s);
      ScaleFirst(x, y, s);
      TimesAssociates(x, y, s);
      TimesAssociates(Times(x, y), z, s);
    }
  }

  lemma SetRowsUnion(p: Problem, a: set<nat>, b: set<nat>)
    requires WellFormed(p) && UnitEdges(p) && a !! b
    ensures SetRows(p, a + b) == Times(Times(SetRows(p, a), SetRows(p, b)), LinkSelectivity(p, a, b, |p.edges|))
  {
    hide *;
    RelProductUnion(p, a, b, |p.rels|);
    InsideSelectivityUnion(p, a, b, |p.edges|);
    var ra, rb := RelProduct(p, a, |p.rels|), RelProduct(p, b, |p.rels|);
    var ia, ib := InsideSelectivity(p, a, |p.edges|), InsideSelectivity(p, b, |p.edges|);
    var link := LinkSelectivity(p, a, b, |p.edges|);
    SetRowsOf(p, a); SetRowsOf(p, b); SetRowsOf(p, a + b);
    FourFactors(ra, ia, rb, ib);
    TimesAssociates(Times(ra, rb), Times(ia, ib), link);
  }

  lemma SetRowsOf(p: Problem, s: set<nat>)
    ensures SetRows(p, s) == Times(RelProduct(p, s, |p.rels|), InsideSelectivity(p, s, |p.edges|))
  {
  }

  lemma {:induction false} RelProductLeaf(p: Problem, r: nat, i: nat)
    requires r < |p.rels| && i <= |p.rels|
    ensures RelProduct(p, {r}, i) == if r < i then p.rels[r].rows else 1.0
    ensures SetWidth(p, {r}, i) == if r < i then RelWidth(p.rels[r]) else 0.0
    decreases i
  {
    if i > 0 { RelProductLeaf(p, r, i - 1); }
  }

  lemma {:induction false} InsideLeaf(p: Problem, r: nat, k: nat)
    requires WellFormed(p) && k <= |p.edges|
    ensures InsideSelectivity(p, {r}, k) == 1.0
    decreases k
  {
    if k > 0 {
      InsideLeaf(p, r, k - 1);
      var e := p.edges[k - 1];
      assert GoodEdge(p, e);
      Nonzero(e.left);
      Nonzero(e.right);
      var x :| x in Members(e.left);
      var y :| y in Members(e.right);
      assert x in EdgeRels(e) && y in EdgeRels(e);
    }
  }

  lemma TimesNonneg(a: real, b: real)
    requires a >= 0.0 && b >= 0.0
    ensures Times(a, b) >= 0.0
    ensures Times(a, b) > 0.0 ==> a > 0.0 && b > 0.0
  {
  }

  lemma {:induction false} LinkSelectivityNonneg(p: Problem, a: set<nat>, b: set<nat>, k: nat)
    requires WellFormed(p) && k <= |p.edges|
    ensures LinkSelectivity(p, a, b, k) >= 0.0
    decreases k
  {
    if k > 0 {
      LinkSelectivityNonneg(p, a, b, k - 1);
      assert GoodEdge(p, p.edges[k - 1]);
      TimesNonneg(LinkSelectivity(p, a, b, k - 1), p.edges[k - 1].selectivity);
    }
  }

  /** With unit edges, rows and width of a tree are functions of its relation set. */
  lemma {:induction false} TreeStatsOfSet(p: Problem, cross: bool, t: JoinTree)
    requires WellFormed(p) && UnitEdges(p) && Admissible(p, cross, t)
    ensures Stats(p, cross, t).rows == SetRows(p, Rels(t)) >= 0.0
    ensures Stats(p, cross, t).rows > 0.0 ==> Width(Stats(p, cross, t)) == SetWidth(p, Rels(t), |p.rels|)
    ensures t.Node? ==> Stats(p, cross, t).bytes == Times(SetRows(p, Rels(t)), SetWidth(p, Rels(t), |p.rels|))
    decreases t
  {
    match t
    case Leaf(r) => LeafStats(p, r);
    case Node(l, r) =>
      TreeStatsOfSet(p, cross, l);
      TreeStatsOfSet(p, cross, r);
      NodeStats(p, cross, l, r);
  }

  ghost predicate StatsOfSet(p: Problem, rels: set<nat>, s: PlanStats) {
    s.rows == SetRows(p, rels) >= 0.0 && (s.rows > 0.0 ==> Width(s) == SetWidth(p, rels, |p.rels|))
  }

  lemma NodeStats(p: Problem, cross: bool, l: JoinTree, r: JoinTree)
    requires WellFormed(p) && UnitEdges(p) && Admissible(p, cross, Node(l, r))
    requires StatsOfSet(p, Rels(l), Stats(p, cross, l)) && StatsOfSet(p, Rels(r), Stats(p, cross, r))
    ensures var j := Stats(p, cross, Node(l, r));
            && StatsOfSet(p, Rels(l) + Rels(r), j)
            && j.bytes == Times(SetRows(p, Rels(l) + Rels(r)), SetWidth(p, Rels(l) + Rels(r), |p.rels|))
  {
    hide Times, Over, EstimateJoin, SetRows, SetWidth, LinkSelectivity, WellFormed, UnitEdges, Crosses, LinkCommutes,
        Width;
    var a, b := Rels(l), Rels(r);
    SetRowsUnion(p, a, b);
    SetWidthUnion(p, a, b, |p.rels|);
    LinkSelectivityNonneg(p, a, b, |p.edges|);
    if !HasLink(p, a, b) { NoLinkNoSelectivity(p, a, b, |p.edges|); }
    var link := LinkOrCross(p, cross, a, b).value;
    assert link.selectivity == LinkSelectivity(p, a, b, |p.edges|);
    JoinStats(Stats(p, cross, l), Stats(p, cross, r), link, SetWidth(p, a, |p.rels|), SetWidth(p, b, |p.rels|));
  }

  lemma LeafStats(p: Problem, r: nat)
    requires WellFormed(p) && r < |p.rels|
    ensures SetRows(p, {r}) == p.rels[r].rows
    ensures SetWidth(p, {r}, |p.rels|) == RelWidth(p.rels[r])
  {
    RelProductLeaf(p, r, |p.rels|);
    InsideLeaf(p, r, |p.edges|);
  }

  /** A join of sides whose widths are known, wherever they have rows, has the sum of the widths. */
  lemma JoinStats(l: PlanStats, r: PlanStats, link: JoinLink, wl: real, wr: real)
    requires l.rows >= 0.0 && r.rows >= 0.0 && link.selectivity >= 0.0
    requires l.rows > 0.0 ==> Width(l) == wl
    requires r.rows > 0.0 ==> Width(r) == wr
    ensures var j := StatsOf(EstimateJoin(0, 0, l, r, link));
            && j.rows == Times(Times(l.rows, r.rows), link.selectivity) >= 0.0
            && j.bytes == Times(j.rows, wl + wr)
            && (j.rows > 0.0 ==> Width(j) == wl + wr)
  {
    hide Times;
    TimesNonneg(l.rows, r.rows);
    TimesNonneg(Times(l.rows, r.rows), link.selectivity);
    var rows := Times(Times(l.rows, r.rows), link.selectivity);
    if rows > 0.0 {
      OverTimes(rows, wl + wr);
    } else {
      TimesZero(Width(l) + Width(r));
      TimesZero(wl + wr);
    }
  }

  lemma OverTimes(rows: real, width: real)
    requires rows > 0.0
    ensures Over(Times(rows, width), rows) == width
  {
  }

  lemma TimesZero(a: real)
    ensures Times(0.0, a) == 0.0
  {
  }

  lemma UnitEdgesIndependent(p: Problem, cross: bool)
    requires WellFormed(p) && UnitEdges(p)
    ensures StatsIndependent(p, cross)
  {
    forall t, u | Admissible(p, cross, t) && Admissible(p, cross, u) && Rels(t) == Rels(u)
      ensures Stats(p, cross, t).rows == Stats(p, cross, u).rows && Stats(p, cross, t).bytes == Stats(p, cross, u).bytes
    {
      TreeStatsOfSet(p, cross, t);
      TreeStatsOfSet(p, cross, u);
      if t.Leaf? { SameShape(p, cross, t, u); }
      if u.Leaf? { SameShape(p, cross, u, t); }
    }
  }

  lemma SameShape(p: Problem, cross: bool, t: JoinTree, u: JoinTree)
    requires Admissible(p, cross, t) && Admissible(p, cross, u) && Rels(t) == Rels(u) && t.Leaf?
    ensures t == u
  {
    if u.Node? {
      assert false;
    }
  }

  // ---- What a tree costs ---------------------------------------------------

  /** Bytes of a tree's result: those of its relation, or rows times width. */
  ghost function TreeBytes(p: Problem, cross: bool, t: JoinTree): real
    requires Admissible(p, cross, t)
  {
    match t
    case Leaf(r) => p.rels[r].bytes
    case Node(_, _) => Times(SetRows(p, Rels(t)), SetWidth(p, Rels(t), |p.rels|))
  }

  /** The bytes of the side that is built and the rows of the other, on the cheaper side where sides may be swapped. */
  ghost function BuildWork(commutes: bool, leftBytes: real, leftRows: real, rightBytes: real, rightRows: real): real {
    if commutes && rightBytes + leftRows <= leftBytes + rightRows then rightBytes + leftRows
    else leftBytes + rightRows
  }

  /** The work, the rows and the bytes of every join in the tree. */
  ghost function TreeCost(p: Problem, cross: bool, t: JoinTree): real
    requires Admissible(p, cross, t)
  {
    match t
    case Leaf(_) => 0.0
    case Node(l, r) =>
      TreeCost(p, cross, l) + TreeCost(p, cross, r)
      + BuildWork(LinkCommutes(p, Rels(l), Rels(r)), TreeBytes(p, cross, l), SetRows(p, Rels(l)),
                  TreeBytes(p, cross, r), SetRows(p, Rels(r)))
      + SetRows(p, Rels(t)) + TreeBytes(p, cross, t)
  }

  /** One join, whatever its edges: what it adds to the cost of its sides. */
  lemma JoinCost(p: Problem, cross: bool, t: JoinTree)
    requires Admissible(p, cross, t) && t.Node?
    ensures var (j, l, r) := (Stats(p, cross, t), Stats(p, cross, t.left), Stats(p, cross, t.right));
            j.cost == l.cost + r.cost
                      + BuildWork(LinkCommutes(p, Rels(t.left), Rels(t.right)), l.bytes, l.rows, r.bytes, r.rows)
                      + j.rows + j.bytes
  {
    hide Times, Over, Width, LinkSelectivity, Crosses;
    if !HasLink(p, Rels(t.left), Rels(t.right)) { assert LinkCommutes(p, Rels(t.left), Rels(t.right)); }
  }

  /** With unit edges the cost of a tree is that of its joins, told from the relations each of them covers. */
  lemma {:induction false} CostOfTree(p: Problem, cross: bool, t: JoinTree)
    requires WellFormed(p) && UnitEdges(p) && Admissible(p, cross, t)
    ensures Stats(p, cross, t).cost == TreeCost(p, cross, t)
    ensures Stats(p, cross, t).rows == SetRows(p, Rels(t)) && Stats(p, cross, t).bytes == TreeBytes(p, cross, t)
    decreases t
  {
    hide Times, EstimateJoin, SetRows, SetWidth, WellFormed, UnitEdges, LinkCommutes, LinkOrCross;
    TreeStatsOfSet(p, cross, t);
    if t.Node? {
      CostOfTree(p, cross, t.left);
      CostOfTree(p, cross, t.right);
      JoinCost(p, cross, t);
    }
  }

  // ---- Which sets have a tree --------------------------------------------

  /** A proper part of a connected set has an edge to a relation outside it. */
  lemma CrossingEdge(p: Problem, s: set<nat>, part: set<nat>) returns (outside: nat)
    requires WellFormed(p) && UnitEdges(p) && Connected(p, s)
    requires part < s && Lowest(s) in part
    ensures outside in s && outside !in part && HasLink(p, part, {outside})
  {
    assert !ClosedIn(p, s, part);
    var i :| 0 <= i < |p.edges| && !Absorbed(p.edges[i], s, part);
    var e := p.edges[i];
    assert GoodEdge(p, e) && e in p.edges;
    var x :| x in Members(e.left);
    var y :| y in Members(e.right);
    OneMember(Members(e.left), x);
    OneMember(Members(e.right), y);
    assert EdgeRels(e) == {x, y};
    outside := if x in part then y else x;
    assert Crosses(p.edges[i], part, {outside});
  }

  /** With unit edges, a connected set is covered by an anchored left-deep tree. */
  lemma {:induction false} GrowTree(p: Problem, s: set<nat>, t: JoinTree) returns (full: JoinTree)
    requires WellFormed(p) && UnitEdges(p) && Connected(p, s)
    requires forall r :: r in s ==> r < |p.rels|
    requires Admissible(p, false, t) && Anchored(t) && Rels(t) <= s && Lowest(s) in Rels(t)
    ensures Admissible(p, false, full) && Anchored(full) && Rels(full) == s
    decreases |s - Rels(t)|
  {
    hide WellFormed, UnitEdges, Connected, LinkSelectivity, LinkCommutes, Crosses, HasLink;
    if Rels(t) == s { return t; }
    var outside := CrossingEdge(p, s, Rels(t));
    var next := Node(t, Leaf(outside));
    assert Rels(next) == Rels(t) + {outside};
    assert s - Rels(t) == (s - Rels(next)) + {outside};
    SubsetSize(s - Rels(next), s - Rels(t));
    full := GrowTree(p, s, next);
  }
}
