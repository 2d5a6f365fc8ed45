/** How many pairs a cross-join search observes, and where optimality and plannability stop. */
module JoinLimits {
  import opened Common
  import opened Bits
  import opened JoinProblem
  import opened JoinTrees
  import opened JoinSearch
  import opened JoinOptimizer

  // ---- The number of pairs -----------------------------------------------------

  function Pow3(n: nat): nat {
    if n == 0 then 1 else 3 * Pow3(n - 1)
  }

  ghost function SplitPairs(n: nat): set<(RelSet, RelSet)> {
    set q | q in MaskPairs(n) && IsSplit(Or(q.0, q.1), q.0, q.1)
  }

  ghost function Image<T, U>(s: set<T>, f: T -> U): set<U> {
    set x | x in s :: f(x)
  }

  lemma {:induction false} ImageSize<T, U>(s: set<T>, f: T -> U)
    requires forall x, y :: x in s && y in s && f(x) == f(y) ==> x == y
    ensures |Image(s, f)| == |s|
    decreases |s|
  {
    if s != {} {
      var x :| x in s;
      var rest := s - {x};
      ImageSize(rest, f);
      assert Image(s, f) == Image(rest, f) + {f(x)};
      assert f(x) !in Image(rest, f);
    }
  }

  lemma {:induction false} AddTop(l: nat, n: nat)
    requires l < Pow2(n)
    ensures Members(l + Pow2(n)) == Members(l) + {n}
    decreases n
  {
    if n == 0 {
      SingleBit(0);
      Nonzero(0);
    } else {
      AddTop(l / 2, n - 1);
      assert (l + Pow2(n)) / 2 == l / 2 + Pow2(n - 1) && (l + Pow2(n)) % 2 == l % 2;
      AddTopStep(l, l + Pow2(n), n);
    }
  }

  /** One bit further up. */
  lemma AddTopStep(l: nat, m: nat, n: nat)
    requires n > 0 && Members(m / 2) == Members(l / 2) + {n - 1} && m % 2 == l % 2
    ensures Members(m) == Members(l) + {n}
  {
    hide Members;
    HalfMembers(l);
    HalfMembers(m);
    forall i: nat ensures i in Members(m) <==> i in Members(l) + {n} {
      if i > 0 {
        assert i in Members(m) <==> i - 1 in Members(m / 2);
        assert i in Members(l) <==> i - 1 in Members(l / 2);
      }
    }
  }

  /** Being a split depends only on the two sides. */
  ghost predicate Sides(l: RelSet, r: RelSet) {
    l != 0 && r != 0 && Members(l) !! Members(r) && exists k :: k in Members(l) && forall i :: i in Members(r) ==> k < i
  }

  lemma SidesAreSplit(l: RelSet, r: RelSet)
    ensures IsSplit(Or(l, r), l, r) <==> Sides(l, r)
  {
    MembersOr(l, r);
    Nonzero(l);
    Nonzero(r);
    var s := Members(Or(l, r));
    if Sides(l, r) {
      var k :| k in Members(l) && forall i :: i in Members(r) ==> k < i;
      assert k in s;
    }
    if IsSplit(Or(l, r), l, r) {
      assert forall i :: i in Members(r) ==> Lowest(s) < i;
    }
  }

  lemma BelowMembers(l: nat, n: nat)
    requires l < Pow2(n)
    ensures forall i :: i in Members(l) ==> i < n
  {
    forall i | i in Members(l) ensures i < n { HighBit(l, i, n); }
  }

  lemma TopCases(l: RelSet, r: RelSet, n: nat)
    requires l < Pow2(n + 1) && r < Pow2(n + 1) && Sides(l, r)
    ensures l >= Pow2(n) ==> Sides(l - Pow2(n), r) && r < Pow2(n)
    ensures l < Pow2(n) && r > Pow2(n) ==> Sides(l, r - Pow2(n))
  {
    var b := Pow2(n);
    var k :| k in Members(l) && forall i :: i in Members(r) ==> k < i;
    Nonzero(r);
    var j :| j in Members(r);
    HighBit(r, j, n + 1);
    if l >= b {
      AddTop(l - b, n);
      BelowMembers(l - b, n);
      assert k != n;
      Nonzero(l - b);
      if r >= b { AddTop(r - b, n); assert false; }
    } else if r > b {
      AddTop(r - b, n);
      BelowMembers(r - b, n);
    }
  }

  lemma PairBounds(n: nat, q: (RelSet, RelSet))
    ensures q in SplitPairs(n) <==> q.0 < Pow2(n) && q.1 < Pow2(n) && Sides(q.0, q.1)
  {
    SidesAreSplit(q.0, q.1);
    assert q.0 < Pow2(n) && q.1 < Pow2(n) <==> q in MaskPairs(n);
  }

  /** The pairs over `n + 1` relations that give the last one to the left, to the right, or keep it alone. */
  ghost function WithLastLeft(n: nat): set<(RelSet, RelSet)> { set q | q in SplitPairs(n + 1) && q.0 >= Pow2(n) }
  ghost function WithLastRight(n: nat): set<(RelSet, RelSet)> { set q | q in SplitPairs(n + 1) && q.0 < Pow2(n)
                                                               && q.1 > Pow2(n) }
  ghost function WithLastAlone(n: nat): set<(RelSet, RelSet)> { set q | q in SplitPairs(n + 1) && q.0 < Pow2(n)
                                                               && q.1 == Pow2(n) }

  lemma LastLeftCount(n: nat)
    ensures |WithLastLeft(n)| == |SplitPairs(n)|
  {
    hide Members, IsSplit, SplitPairs, Sides;
    var b := Pow2(n);
    var f := (q: (RelSet, RelSet)) => (q.0 + b, q.1);
    ImageSize(SplitPairs(n), f);
    var image := Image(SplitPairs(n), f);
    forall q: (RelSet, RelSet) ensures q in image <==> q in WithLastLeft(n) {
      PairBounds(n + 1, q);
      if q in image {
        var s :| s in SplitPairs(n) && q == f(s);
        PairBounds(n, s);
        TopAdded(s.0, s.1, n);
      }
      if q in WithLastLeft(n) {
        TopCases(q.0, q.1, n);
        var s := (q.0 - b, q.1);
        PairBounds(n, s);
        assert f(s) == q;
      }
    }
    assert image == WithLastLeft(n);
  }

  lemma LastRightCount(n: nat)
    ensures |WithLastRight(n)| == |SplitPairs(n)|
  {
    hide Members, IsSplit, SplitPairs, Sides;
    var b := Pow2(n);
    var f := (q: (RelSet, RelSet)) => (q.0, q.1 + b);
    ImageSize(SplitPairs(n), f);
    var image := Image(SplitPairs(n), f);
    forall q: (RelSet, RelSet) ensures q in image <==> q in WithLastRight(n) {
      PairBounds(n + 1, q);
      if q in image {
        var s :| s in SplitPairs(n) && q == f(s);
        PairBounds(n, s);
        TopAdded(s.0, s.1, n);
      }
      if q in WithLastRight(n) {
        TopCases(q.0, q.1, n);
        var s := (q.0, q.1 - b);
        PairBounds(n, s);
        assert f(s) == q;
      }
    }
    assert image == WithLastRight(n);
  }

  lemma LastAloneCount(n: nat)
    ensures |WithLastAlone(n)| == Pow2(n) - 1
  {
    hide Members, IsSplit, SplitPairs, Sides;
    var b := Pow2(n);
    var lefts := Below(b) - {0};
    var f := (l: nat) => (l, b);
    ImageSize(lefts, f);
    var image := Image(lefts, f);
    forall q: (RelSet, RelSet) ensures q in image <==> q in WithLastAlone(n) {
      PairBounds(n + 1, q);
      if q.1 == b {
        AloneSides(q.0, n);
        assert q == f(q.0);
      }
    }
    assert image == WithLastAlone(n);
    assert |lefts| == b - 1;
  }

  lemma AloneSides(l: RelSet, n: nat)
    ensures l < Pow2(n) ==> (Sides(l, Pow2(n)) <==> l != 0)
  {
    if 0 < l < Pow2(n) {
      Nonzero(l);
      BelowMembers(l, n);
      SingleBit(n);
      var k :| k in Members(l);
    }
  }

  lemma TopAdded(l: RelSet, r: RelSet, n: nat)
    requires l < Pow2(n) && r < Pow2(n) && Sides(l, r)
    ensures r > 0 && Sides(l + Pow2(n), r) && Sides(l, r + Pow2(n))
  {
    AddTop(l, n); AddTop(r, n);
    BelowMembers(l, n); BelowMembers(r, n);
    var k :| k in Members(l) && forall i :: i in Members(r) ==> k < i;
    assert k in Members(l + Pow2(n));
  }

  lemma {:induction false} SplitPairCount(n: nat)
    ensures 2 * |SplitPairs(n)| + 2 * Pow2(n) == Pow3(n) + 1
    decreases n
  {
    hide Members, IsSplit, SplitPairs, Sides;
    if n == 0 {
      forall q: (RelSet, RelSet) | q in SplitPairs(0) ensures false { PairBounds(0, q); NoEmptySides(q.1); }
      assert SplitPairs(0) == {};
    } else {
      SplitPairCount(n - 1);
      LastLeftCount(n - 1);
      LastRightCount(n - 1);
      LastAloneCount(n - 1);
      FourKinds(n - 1);
      FourSizes(SplitPairs(n - 1), WithLastLeft(n - 1), WithLastRight(n - 1), WithLastAlone(n - 1));
    }
  }

  /** Every pair over one more relation is an old pair or of one of the three kinds, and only one of these. */
  lemma FourKinds(n: nat)
    ensures SplitPairs(n + 1) == SplitPairs(n) + WithLastLeft(n) + WithLastRight(n) + WithLastAlone(n)
    ensures SplitPairs(n) !! WithLastLeft(n) && SplitPairs(n) + WithLastLeft(n) !! WithLastRight(n)
    ensures SplitPairs(n) + WithLastLeft(n) + WithLastRight(n) !! WithLastAlone(n)
  {
    hide Members, IsSplit, SplitPairs, Sides;
    forall q: (RelSet, RelSet)
      ensures q in SplitPairs(n + 1) <==> q in SplitPairs(n) + WithLastLeft(n) + WithLastRight(n) + WithLastAlone(n)
      ensures q in SplitPairs(n) ==> q.0 < Pow2(n) && q.1 < Pow2(n)
    {
      PairBounds(n + 1, q);
      PairBounds(n, q);
    }
  }

  lemma FourSizes<T>(a: set<T>, b: set<T>, c: set<T>, d: set<T>)
    requires a !! b && a + b !! c && a + b + c !! d
    ensures |a + b + c + d| == |a| + |b| + |c| + |d|
  {
  }

  lemma NoEmptySides(r: RelSet)
    ensures !Sides(0, r)
  {
  }

  /** Cross-join mode on n relations observes exactly (3^n - 2^(n+1) + 1) / 2 pairs. */
  lemma CrossJoinPairCount(p: Problem)
    ensures |AllPairs(p, true)| == (Pow3(|p.rels|) - 2 * Pow2(|p.rels|) + 1) / 2
  {
    assert AllPairs(p, true) == SplitPairs(|p.rels|);
    SplitPairCount(|p.rels|);
  }

  // ---- A connected hypergraph without a plan ------------------------------------

  function Inner2(left: RelSet, right: RelSet, selectivity: real): Edge {
    Edge(left, right, 0, 0, Inner, true, selectivity)
  }

  const ONE_HYPEREDGE := Problem([RelStats(1.0, 1.0), RelStats(1.0, 1.0), RelStats(1.0, 1.0)], [Inner2(3, 4, 1.0)], [])

  lemma SmallMasks()
    ensures Members(1) == {0} && Members(2) == {1} && Members(4) == {2} && Members(8) == {3}
    ensures Members(3) == {0, 1} && Members(6) == {1, 2} && Members(5) == {0, 2} && Members(7) == {0, 1, 2}
            && Members(15) == {0, 1, 2, 3}
  {
    SingleBit(0); SingleBit(1); SingleBit(2); SingleBit(3);
    assert Pow2(1) == 2 && Pow2(2) == 4 && Pow2(3) == 8;
    MembersOr(1, 2);
    assert Or(1, 2) == 3;
    MembersOr(2, 4);
    assert Or(2, 4) == 6;
    MembersOr(1, 4);
    assert Or(1, 4) == 5;
    MembersOr(1, 6);
    assert Or(1, 6) == 7;
    MembersOr(7, 8);
    assert Or(7, 8) == 15;
  }

  /** A hyperedge makes its relations connected at once, yet its own side may have no join. */
  lemma ConnectedWithoutPlan()
    ensures WellFormed(ONE_HYPEREDGE)
    ensures Connected(ONE_HYPEREDGE, Members(FullMask(|ONE_HYPEREDGE.rels|)))
    ensures !HasPlan(ONE_HYPEREDGE, false)
  {
    var p := ONE_HYPEREDGE;
    SmallMasks();
    assert Pow2(3) == 8;
    assert FullMask(3) == 7;
    var e := p.edges[0];
    assert EdgeRels(e) == {0, 1, 2};
    assert Lowest(Members(7)) == 0;
    forall part | ClosedIn(p, Members(7), part) && 0 in part ensures Members(7) <= part {
      assert e in p.edges;
      assert Absorbed(e, Members(7), part);
    }
    forall t | Rels(t) == {0, 1, 2} ensures !Admissible(p, false, t) {
      TripleHasNoPlan(t);
    }
  }

  lemma PairHasNoPlan(t: JoinTree)
    requires Rels(t) == {0, 1}
    ensures !Admissible(ONE_HYPEREDGE, false, t)
  {
    SmallMasks();
    if t.Node? {
      assert 2 !in Rels(t.left) && 2 !in Rels(t.right) && 2 in Members(4);
      assert !Crosses(ONE_HYPEREDGE.edges[0], Rels(t.left), Rels(t.right));
      assert !HasLink(ONE_HYPEREDGE, Rels(t.left), Rels(t.right));
    }
  }

  lemma TripleHasNoPlan(t: JoinTree)
    requires Rels(t) == {0, 1, 2}
    ensures !Admissible(ONE_HYPEREDGE, false, t)
  {
    SmallMasks();
    if t.Node? && Rels(t.left) !! Rels(t.right) && HasLink(ONE_HYPEREDGE, Rels(t.left), Rels(t.right)) {
      assert Crosses(ONE_HYPEREDGE.edges[0], Rels(t.left), Rels(t.right));
      var side := if 2 in Rels(t.left) then t.right else t.left;
      assert Rels(side) == {0, 1};
      PairHasNoPlan(side);
    }
  }

  // ---- Edges that do not commute ---------------------------------------------------

  const ONE_WAY := Problem([RelStats(1.0, 10.0), RelStats(1.0, 0.0)], [Edge(1, 2, 0, 0, Inner, false, 1.0)], [])

  /** Only the lowest relation is tried on the left, so a one-way edge can hide the cheaper order. */
  lemma OneWayEdgeSuboptimal(entries: Table)
    requires ValidTable(ONE_WAY, false, entries)
    ensures entries[3].Some? && Admissible(ONE_WAY, false, Node(Leaf(1), Leaf(0)))
    ensures Stats(ONE_WAY, false, Node(Leaf(1), Leaf(0))).cost < entries[3].value.cost
  {
    hide EstimateJoin, Link, Crosses, LinkSelectivity, HasLink, LinkCommutes, Members, IsSplit;
    SmallMasks();
    OneWayLink({0}, {1});
    OneWayLink({1}, {0});
    OneWayEntries(entries);
    var best := entries[3].value;
    OnlySplit(best.left, best.right);
    OneWayCosts();
    assert LinkOrCross(ONE_WAY, false, {0}, {1}) == Some(JoinLink(1.0, false));
  }

  lemma OneWayLink(a: set<nat>, b: set<nat>)
    requires (a == {0} && b == {1}) || (a == {1} && b == {0})
    ensures Link(ONE_WAY, a, b) == Some(JoinLink(1.0, false))
  {
    SmallMasks();
    var e := ONE_WAY.edges[0];
    assert Crosses(e, a, b);
    assert LinkSelectivity(ONE_WAY, a, b, 0) == 1.0;
    assert LinkSelectivity(ONE_WAY, a, b, 1) == Times(1.0, 1.0);
    assert !LinkCommutes(ONE_WAY, a, b);
  }

  lemma OneWayEntries(entries: Table)
    requires ValidTable(ONE_WAY, false, entries)
    ensures |entries| == 4 && entries[3].Some? && IsSplit(3, entries[3].value.left, entries[3].value.right)
    ensures entries[1] == Some(LeafEntry(ONE_WAY.rels[0])) && entries[2] == Some(LeafEntry(ONE_WAY.rels[1]))
    ensures entries[3] == Candidate(ONE_WAY, false, entries, 1, 2)
  {
    hide EstimateJoin, Link, Crosses, LinkSelectivity, HasLink, LinkCommutes;
    var p := ONE_WAY;
    SmallMasks();
    assert Pow2(2) == 4;
    OneWayLink({0}, {1});
    assert EntryOk(p, false, entries, 1) && EntryOk(p, false, entries, 2) && EntryOk(p, false, entries, 3);
    assert Lowest(Members(1)) == 0 && Lowest(Members(2)) == 1 && Lowest(Members(3)) == 0;
    assert IsSplit(3, 1, 2);
    assert Candidate(p, false, entries, 1, 2).Some?;
    OnlySplit(entries[3].value.left, entries[3].value.right);
  }

  /** The two orders of the same two relations. */
  lemma OneWayCosts()
    ensures var l, r := StatsOf(LeafEntry(ONE_WAY.rels[0])), StatsOf(LeafEntry(ONE_WAY.rels[1]));
            EstimateJoin(0, 0, r, l, JoinLink(1.0, false)).cost < EstimateJoin(1, 2, l, r, JoinLink(1.0, false)).cost
  {
  }

  lemma OnlySplit(l: RelSet, r: RelSet)
    requires IsSplit(3, l, r)
    ensures l == 1 && r == 2
  {
    SmallMasks();
    assert Lowest(Members(3)) == 0;
    Nonzero(r);
    assert Members(r) == {1} && Members(l) == {0};
    SameMembers(l, 1);
    SameMembers(r, 2);
  }

  // ---- Hyperedges --------------------------------------------------------------------

  const HYPER := Problem(
    [RelStats(10.0, 0.0), RelStats(10.0, 0.0), RelStats(10.0, 0.0), RelStats(1000.0, 0.0)],
    [Inner2(1, 2, 1.0), Inner2(2, 4, 0.01), Inner2(3, 4, 0.0), Inner2(7, 8, 1.0)], [])

  /** Every link of the problem commutes, and its selectivity is the product over the crossing edges. */
  lemma HyperLink(a: set<nat>, b: set<nat>)
    ensures HasLink(HYPER, a, b) <==> Crosses(HYPER.edges[0], a, b) || Crosses(HYPER.edges[1], a, b)
                                      || Crosses(HYPER.edges[2], a, b) || Crosses(HYPER.edges[3], a, b)
    ensures LinkCommutes(HYPER, a, b)
    ensures LinkSelectivity(HYPER, a, b, 4) ==
            if Crosses(HYPER.edges[2], a, b) then 0.0 else if Crosses(HYPER.edges[1], a, b) then 0.01 else 1.0
  {
    var p := HYPER;
    assert forall i :: 0 <= i < 4 ==> HYPER.edges[i].commutative;
    assert LinkSelectivity(p, a, b, 1) == 1.0;
    assert LinkSelectivity(p, a, b, 2) == (if Crosses(HYPER.edges[1], a, b) then 0.01 else 1.0);
    assert LinkSelectivity(p, a, b, 3) == if Crosses(HYPER.edges[2], a, b) then 0.0 else LinkSelectivity(p, a, b, 2);
    assert LinkSelectivity(p, a, b, 4) == LinkSelectivity(p, a, b, 3);
    if HasLink(p, a, b) {
      var i :| 0 <= i < |p.edges| && Crosses(p.edges[i], a, b);
      assert i == 0 || i == 1 || i == 2 || i == 3;
    }
  }

  /** Relation 3 only joins once all the others are together. */
  lemma {:induction false} LastJoin(t: JoinTree)
    requires Admissible(HYPER, false, t) && 3 in Rels(t) && t.Node?
    ensures {0, 1, 2} <= Rels(t)
  {
    SmallMasks();
    var a, b := t.left, t.right;
    HyperLink(Rels(a), Rels(b));
    if 3 in Rels(a) && a.Node? { LastJoin(a); }
    if 3 in Rels(b) && b.Node? { LastJoin(b); }
  }

  lemma NoPartialPlan(entries: Table, m: RelSet)
    requires ValidTable(HYPER, false, entries) && 0 < m < |entries|
    requires 3 in Members(m) && Members(m) != {3} && !({0, 1, 2} <= Members(m))
    ensures entries[m].None?
  {
    if entries[m].Some? {
      TreeAttains(HYPER, false, entries, m);
      LastJoin(TreeOf(HYPER, false, entries, m));
    }
  }

  lemma SplitIs(m: RelSet, l: RelSet, r: RelSet, low: RelSet, high: RelSet)
    requires IsSplit(m, l, r) && Members(r) == Members(high) && Members(low) == Members(m) - Members(high)
    ensures l == low && r == high
  {
    assert Members(l) == Members(low);
    SameMembers(l, low);
    SameMembers(r, high);
  }

  /** What the table holds for the sets below the root. */
  lemma HyperEntries(entries: Table)
    requires ValidTable(HYPER, false, entries)
    ensures |entries| == 16
    ensures entries[1] == Some(LeafEntry(HYPER.rels[0])) && entries[2] == Some(LeafEntry(HYPER.rels[1]))
    ensures entries[4] == Some(LeafEntry(HYPER.rels[2])) && entries[8] == Some(LeafEntry(HYPER.rels[3]))
  {
    SmallMasks();
    assert Pow2(4) == 16;
    assert EntryOk(HYPER, false, entries, 1) && EntryOk(HYPER, false, entries, 2);
    assert EntryOk(HYPER, false, entries, 4) && EntryOk(HYPER, false, entries, 8);
  }

  /** A pair has a single split, so its entry is that split's candidate. */
  lemma PairEntry(entries: Table, m: RelSet, l: RelSet, r: RelSet, x: nat, y: nat)
    requires ValidTable(HYPER, false, entries) && 0 < m < |entries|
    requires Members(l) == {x} && Members(r) == {y} && IsSplit(m, l, r)
    ensures l < m && r < m && entries[m] == Candidate(HYPER, false, entries, l, r)
  {
    hide EstimateJoin, LinkOrCross;
    SplitSmaller(m, l, r);
    Nonzero(r);
    assert EntryOk(HYPER, false, entries, m);
    assert y in Members(m) && Members(m) != {Lowest(Members(m))};
    if entries[m].Some? {
      OnlyPairSplit(m, l, r, x, y, entries[m].value.left, entries[m].value.right);
    }
  }

  lemma OnlyPairSplit(m: RelSet, l: RelSet, r: RelSet, x: nat, y: nat, l': RelSet, r': RelSet)
    requires Members(l) == {x} && Members(r) == {y} && IsSplit(m, l, r) && IsSplit(m, l', r')
    ensures l' == l && r' == r
  {
    Nonzero(r');
    assert x in Members(l') && Members(r') == {y};
    SplitIs(m, l', r', l, r);
  }

  lemma JoinOf(l: PlanStats, r: PlanStats, link: JoinLink, lm: RelSet, rm: RelSet)
    requires l.bytes == 0.0 && r.bytes == 0.0 && link.commutative && l.rows >= 0.0 && r.rows >= 0.0
             && link.selectivity >= 0.0
    ensures var best := EstimateJoin(lm, rm, l, r, link);
            && best.rows == l.rows * r.rows * link.selectivity && best.bytes == 0.0
            && best.cost == l.cost + r.cost + (if l.rows < r.rows then l.rows else r.rows) + best.rows
  {
    TimesZero(l.rows);
    assert Width(l) == 0.0 && Width(r) == 0.0;
    TimesNonneg(l.rows, r.rows);
    TimesNonneg(Times(l.rows, r.rows), link.selectivity);
  }

  lemma PairStats(entries: Table)
    requires ValidTable(HYPER, false, entries)
    ensures |entries| == 16 && entries[5].None?
    ensures entries[3].Some? && StatsOf(entries[3].value) == PlanStats(110.0, 100.0, 0.0)
    ensures entries[6].Some? && StatsOf(entries[6].value) == PlanStats(11.0, 1.0, 0.0)
  {
    hide EstimateJoin;
    SmallMasks();
    HyperEntries(entries);
    PairEntry(entries, 3, 1, 2, 0, 1);
    PairEntry(entries, 5, 1, 4, 0, 2);
    PairEntry(entries, 6, 2, 4, 1, 2);
    HyperLink({0}, {1});
    HyperLink({0}, {2});
    HyperLink({1}, {2});
    var leaf := PlanStats(0.0, 10.0, 0.0);
    JoinOf(leaf, leaf, JoinLink(1.0, true), 1, 2);
    JoinOf(leaf, leaf, JoinLink(0.01, true), 2, 4);
  }

  lemma TripleSplit(l: RelSet, r: RelSet)
    requires IsSplit(7, l, r)
    ensures (l, r) in {(1, 6), (3, 4), (5, 2)}
  {
    SmallMasks();
    Nonzero(r);
    assert Lowest(Members(7)) == 0;
    assert Members(r) <= {1, 2};
    assert Members(r) == {1} || Members(r) == {2} || Members(r) == {1, 2};
    if Members(r) == {1} { SplitIs(7, l, r, 5, 2); }
    else if Members(r) == {2} { SplitIs(7, l, r, 3, 4); }
    else { SplitIs(7, l, r, 1, 6); }
  }

  /** The cheapest way to join relations 0, 1 and 2 is not the one with the fewest rows. */
  lemma TripleStats(entries: Table)
    requires ValidTable(HYPER, false, entries)
    ensures |entries| == 16 && entries[7].Some? && StatsOf(entries[7].value) == PlanStats(22.0, 10.0, 0.0)
  {
    hide EstimateJoin;
    SmallMasks();
    HyperEntries(entries);
    PairStats(entries);
    HyperLink({0}, {1, 2});
    HyperLink({0, 1}, {2});
    var leaf := PlanStats(0.0, 10.0, 0.0);
    JoinOf(leaf, PlanStats(11.0, 1.0, 0.0), JoinLink(1.0, true), 1, 6);
    JoinOf(PlanStats(110.0, 100.0, 0.0), leaf, JoinLink(0.0, true), 3, 4);
    assert Lowest(Members(7)) == 0 && IsSplit(7, 1, 6);
    assert EntryOk(HYPER, false, entries, 7);
    assert Candidate(HYPER, false, entries, 1, 6).Some?;
    TripleSplit(entries[7].value.left, entries[7].value.right);
  }

  /** With hyperedges the number of rows depends on the join order, and the search misses the cheapest tree. */
  lemma HyperedgeSuboptimal(entries: Table)
    requires ValidTable(HYPER, false, entries)
    ensures WellFormed(HYPER) && AllCommutative(HYPER)
    ensures |entries| == 16 && entries[15].Some? && entries[15].value.cost == 10032.0
    ensures var t := Node(Node(Node(Leaf(0), Leaf(1)), Leaf(2)), Leaf(3));
            Rels(t) == Members(15) && Admissible(HYPER, false, t) && Stats(HYPER, false, t).cost == 120.0
  {
    HyperWellFormed();
    CheapTree();
    RootSplit(entries);
  }

  lemma HyperWellFormed()
    ensures WellFormed(HYPER) && AllCommutative(HYPER)
  {
    SmallMasks();
    assert Pow2(4) == 16;
  }

  lemma JoinNode(l: JoinTree, r: JoinTree, link: JoinLink)
    requires Admissible(HYPER, false, l) && Admissible(HYPER, false, r) && Rels(l) !! Rels(r)
    requires Link(HYPER, Rels(l), Rels(r)) == Some(link)
    ensures Admissible(HYPER, false, Node(l, r))
    ensures Stats(HYPER, false, Node(l, r))
            == StatsOf(EstimateJoin(0, 0, Stats(HYPER, false, l), Stats(HYPER, false, r), link))
  {
    hide EstimateJoin, Link;
  }

  lemma CheapTree()
    ensures var t := Node(Node(Node(Leaf(0), Leaf(1)), Leaf(2)), Leaf(3));
            Rels(t) == Members(15) && Admissible(HYPER, false, t) && Stats(HYPER, false, t).cost == 120.0
  {
    hide EstimateJoin, Crosses, LinkSelectivity, HasLink, LinkCommutes, Admissible, Stats;
    var two := Node(Leaf(0), Leaf(1));
    var three := Node(two, Leaf(2));
    assert Rels(two) == {0, 1} && Rels(three) == {0, 1, 2} && Rels(Node(three, Leaf(3))) == {0, 1, 2, 3};
    SmallMasks();
    HyperLeaves();
    CheapLinks();
    var leaf := PlanStats(0.0, 10.0, 0.0);
    JoinNode(Leaf(0), Leaf(1), JoinLink(1.0, true));
    JoinOf(leaf, leaf, JoinLink(1.0, true), 0, 0);
    JoinNode(two, Leaf(2), JoinLink(0.0, true));
    JoinOf(PlanStats(110.0, 100.0, 0.0), leaf, JoinLink(0.0, true), 0, 0);
    JoinNode(three, Leaf(3), JoinLink(1.0, true));
    JoinOf(PlanStats(120.0, 0.0, 0.0), PlanStats(0.0, 1000.0, 0.0), JoinLink(1.0, true), 0, 0);
  }

  lemma HyperLeaves()
    ensures forall i: nat :: i < 4 ==> Admissible(HYPER, false, Leaf(i))
    ensures forall i: nat :: i < 4 ==>
              Stats(HYPER, false, Leaf(i)) == PlanStats(0.0, if i == 3 then 1000.0 else 10.0, 0.0)
  {
  }

  lemma CheapLinks()
    ensures Link(HYPER, {0}, {1}) == Some(JoinLink(1.0, true))
    ensures Link(HYPER, {0, 1}, {2}) == Some(JoinLink(0.0, true))
    ensures Link(HYPER, {0, 1, 2}, {3}) == Some(JoinLink(1.0, true))
  {
    SmallMasks();
    HyperLink({0}, {1});
    HyperLink({0, 1}, {2});
    HyperLink({0, 1, 2}, {3});
  }

  lemma RootSplit(entries: Table)
    requires ValidTable(HYPER, false, entries)
    ensures |entries| == 16 && entries[15].Some? && entries[15].value.cost == 10032.0
  {
    hide EstimateJoin;
    SmallMasks();
    HyperEntries(entries);
    TripleStats(entries);
    HyperLink({0, 1, 2}, {3});
    JoinOf(PlanStats(22.0, 10.0, 0.0), PlanStats(0.0, 1000.0, 0.0), JoinLink(1.0, true), 7, 8);
    assert Lowest(Members(15)) == 0 && IsSplit(15, 7, 8);
    assert EntryOk(HYPER, false, entries, 15);
    assert Candidate(HYPER, false, entries, 7, 8).Some?;
    var l, r := entries[15].value.left, entries[15].value.right;
    RootSides(entries, l, r);
  }

  lemma RootSides(entries: Table, l: RelSet, r: RelSet)
    requires ValidTable(HYPER, false, entries) && |entries| == 16
    requires IsSplit(15, l, r) && l < 15 && r < 15 && entries[l].Some? && entries[r].Some?
    ensures l == 7 && r == 8
  {
    SmallMasks();
    Nonzero(r);
    assert Lowest(Members(15)) == 0 && 0 in Members(l);
    assert l != 0 by { ZeroHasNoBits(0); }
    if 3 in Members(l) {
      NoPartialPlan(entries, l);
    } else if Members(r) != {3} {
      NoPartialPlan(entries, r);
    }
    SplitIs(15, l, r, 7, 8);
  }
}
