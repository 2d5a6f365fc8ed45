/** Join-ordering problems: relations, hyperedges, connectivity, links and the cost recurrence. */
module JoinProblem {
  import opened Common
  import opened Bits

  const WORD_BITS: nat := 64

  type RelSet = nat
  type u64 = n: nat | n <= U64_MAX

  datatype JoinKind = Inner | LeftOuter | RightOuter | FullOuter | Semi | Anti | Cross

  datatype RelStats = RelStats(rows: real, bytes: real)

  datatype Edge = Edge(left: RelSet, right: RelSet, predStart: nat, predLen: nat,
                       kind: JoinKind, commutative: bool, selectivity: real)

  datatype Problem = Problem(rels: seq<RelStats>, edges: seq<Edge>, edgePreds: seq<nat>)

  datatype Config = Config(maxRelations: nat, maxPairs: u64, allowCrossJoins: bool)

  datatype BuildSide = BuildLeft | BuildRight

  datatype PlanStats = PlanStats(cost: real, rows: real, bytes: real)

  datatype JoinLink = JoinLink(selectivity: real, commutative: bool)

  datatype Best = Best(cost: real, rows: real, bytes: real, left: RelSet, right: RelSet, buildSide: BuildSide)

  /** Edges of the kinds the search uses; the others are rejected by validation. */
  predicate Usable(e: Edge) {
    e.kind.Inner? || e.kind.Cross?
  }

  function EdgeRels(e: Edge): set<nat> {
    Members(e.left) + Members(e.right)
  }

  // ---- Validation -------------------------------------------------------

  datatype EdgeFault = RowsNegative | BytesNegative | EmptySide | OverlappingSides | PredicateRange
    | SelectivityNegative

  datatype OptimizeError =
    | EmptyProblem
    | TooManyRelations(relCount: nat, maxRelations: nat)
    | InvalidRelSet(rels: RelSet, universe: RelSet)
    | InvalidEdge(edgeIndex: nat, reason: EdgeFault)
    | UnsupportedJoinKind(edgeIndex: nat, kind: JoinKind)
    | DisconnectedGraph
    | BudgetExceeded(pairs: nat, maxPairs: nat)
    | NoPlan

  predicate GoodStats(s: RelStats) {
    s.rows >= 0.0 && s.bytes >= 0.0
  }

  predicate GoodEdge(p: Problem, e: Edge) {
    && Usable(e)
    && e.left != 0 && e.right != 0
    && Members(e.left) !! Members(e.right)
    && EdgeRels(e) <= Members(FullMask(|p.rels|))
    && e.predStart + e.predLen <= |p.edgePreds|
    && e.selectivity >= 0.0
  }

  /** What a problem must satisfy for the search to start. */
  predicate WellFormed(p: Problem) {
    && 0 < |p.rels| < WORD_BITS
    && (forall i :: 0 <= i < |p.rels| ==> GoodStats(p.rels[i]))
    && (forall i :: 0 <= i < |p.edges| ==> GoodEdge(p, p.edges[i]))
  }

  predicate Accepted(p: Problem, config: Config) {
    WellFormed(p) && |p.rels| <= config.maxRelations
  }

  /** The relations are few enough and their statistics are good. */
  ghost predicate GoodRels(p: Problem, config: Config) {
    && 0 < |p.rels| < WORD_BITS && |p.rels| <= config.maxRelations
    && forall k :: 0 <= k < |p.rels| ==> GoodStats(p.rels[k])
  }

  /** The edge is good as far as the check for this fault. */
  ghost predicate EdgeFaulty(p: Problem, e: Edge, reason: EdgeFault) {
    && Usable(e)
    && match reason
       case EmptySide => Members(e.left) == {} || Members(e.right) == {}
       case OverlappingSides => !(Members(e.left) !! Members(e.right))
       case PredicateRange =>
         SidesFit(p, e) && e.predStart + e.predLen > |p.edgePreds|
       case SelectivityNegative =>
         SidesFit(p, e) && e.predStart + e.predLen <= |p.edgePreds| && e.selectivity < 0.0
       case _ => false
  }

  ghost predicate SidesFit(p: Problem, e: Edge) {
    && Members(e.left) != {} && Members(e.right) != {} && Members(e.left) !! Members(e.right)
    && forall r :: r in EdgeRels(e) ==> r < |p.rels|
  }

  /** What must be wrong with the problem for validation to report this error, everything checked before being right. */
  ghost predicate Blames(p: Problem, config: Config, error: OptimizeError) {
    match error
    case EmptyProblem => p.rels == []
    case TooManyRelations(n, most) =>
      n == |p.rels| > most && most == if n == WORD_BITS && WORD_BITS <= config.maxRelations then WORD_BITS - 1
                                      else if config.maxRelations < WORD_BITS then config.maxRelations else WORD_BITS
    case InvalidEdge(i, RowsNegative) =>
      && 0 < |p.rels| < WORD_BITS && |p.rels| <= config.maxRelations && i < |p.rels|
      && (forall k :: 0 <= k < i ==> GoodStats(p.rels[k])) && p.rels[i].rows < 0.0
    case InvalidEdge(i, BytesNegative) =>
      && 0 < |p.rels| < WORD_BITS && |p.rels| <= config.maxRelations && i < |p.rels|
      && (forall k :: 0 <= k < i ==> GoodStats(p.rels[k])) && p.rels[i].bytes < 0.0 <= p.rels[i].rows
    case InvalidEdge(i, reason) =>
      && GoodRels(p, config) && i < |p.edges| && (forall k :: 0 <= k < i ==> GoodEdge(p, p.edges[k]))
      && EdgeFaulty(p, p.edges[i], reason)
    case InvalidRelSet(rels, universe) =>
      && GoodRels(p, config) && (forall r: nat :: r in Members(universe) <==> r < |p.rels|)
      && exists i :: 0 <= i < |p.edges| && (forall k :: 0 <= k < i ==> GoodEdge(p, p.edges[k]))
                     && OutsideEdge(p, p.edges[i]) && Members(rels) == EdgeRels(p.edges[i])
    case UnsupportedJoinKind(i, kind) =>
      && GoodRels(p, config) && i < |p.edges| && (forall k :: 0 <= k < i ==> GoodEdge(p, p.edges[k]))
      && kind == p.edges[i].kind && kind != Inner && kind != Cross
    case _ => false
  }

  /** Two disjoint sides, one of which names a relation that is not there. */
  ghost predicate OutsideEdge(p: Problem, e: Edge) {
    && Usable(e) && Members(e.left) != {} && Members(e.right) != {} && Members(e.left) !! Members(e.right)
    && exists r :: r in EdgeRels(e) && r >= |p.rels|
  }

  function EdgeError(p: Problem, i: nat): Option<OptimizeError>
    requires i < |p.edges|
  {
    var e := p.edges[i];
    var universe := FullMask(|p.rels|);
    if !Usable(e) then Some(UnsupportedJoinKind(i, e.kind))
    else if e.left == 0 || e.right == 0 then Some(InvalidEdge(i, EmptySide))
    else if And(e.left, e.right) != 0 then Some(InvalidEdge(i, OverlappingSides))
    else if AndNot(Or(e.left, e.right), universe) != 0 then Some(InvalidRelSet(Or(e.left, e.right), universe))
    else if e.predStart + e.predLen > |p.edgePreds| then Some(InvalidEdge(i, PredicateRange))
    else if e.selectivity < 0.0 then Some(InvalidEdge(i, SelectivityNegative))
    else None
  }

  lemma EdgeErrorIffBad(p: Problem, i: nat)
    requires i < |p.edges|
    ensures EdgeError(p, i).None? <==> GoodEdge(p, p.edges[i])
  {
    var e := p.edges[i];
    AndZero(e.left, e.right);
    AndNotZero(Or(e.left, e.right), FullMask(|p.rels|));
    MembersOr(e.left, e.right);
  }

  lemma EdgeErrorBlames(p: Problem, config: Config, i: nat)
    requires GoodRels(p, config) && i < |p.edges| && (forall k :: 0 <= k < i ==> GoodEdge(p, p.edges[k]))
             && EdgeError(p, i).Some?
    ensures Blames(p, config, EdgeError(p, i).value)
  {
    hide GoodEdge, Members, And, AndNot, Or, FullMask;
    var e := p.edges[i];
    var union := Or(e.left, e.right);
    Nonzero(e.left);
    Nonzero(e.right);
    AndZero(e.left, e.right);
    AndNotZero(union, FullMask(|p.rels|));
    MembersOr(e.left, e.right);
    MembersFullMask(|p.rels|);
    if Members(union) <= Members(FullMask(|p.rels|)) {
      forall r | r in EdgeRels(e) ensures r < |p.rels| { assert r in Members(union); }
    } else {
      var r :| r in Members(union) && r !in Members(FullMask(|p.rels|));
      assert r in EdgeRels(e) && r >= |p.rels|;
      assert Members(union) == EdgeRels(p.edges[i]);
      if EdgeError(p, i).value.InvalidRelSet? { assert OutsideEdge(p, p.edges[i]); }
    }
  }

  method Validate(p: Problem, config: Config) returns (error: Option<OptimizeError>)
    ensures error.None? <==> Accepted(p, config)
    ensures error.Some? ==> Blames(p, config, error.value)
    // The first offending edge of an otherwise acceptable problem is the one reported.
    ensures forall i :: (0 < |p.rels| < WORD_BITS && |p.rels| <= config.maxRelations
                && (forall k :: 0 <= k < |p.rels| ==> GoodStats(p.rels[k]))
                && 0 <= i < |p.edges| && !GoodEdge(p, p.edges[i])
                && (forall k :: 0 <= k < i ==> GoodEdge(p, p.edges[k]))) ==> error == EdgeError(p, i)
  {
    var n := |p.rels|;
    if n == 0 { return Some(EmptyProblem); }
    if n > WORD_BITS || n > config.maxRelations {
      return Some(TooManyRelations(n, if config.maxRelations < WORD_BITS then config.maxRelations else WORD_BITS));
    }
    if n >= WORD_BITS { return Some(TooManyRelations(n, WORD_BITS - 1)); }
    for i := 0 to n
      invariant forall k :: 0 <= k < i ==> GoodStats(p.rels[k])
    {
      if p.rels[i].rows < 0.0 { return Some(InvalidEdge(i, RowsNegative)); }
      if p.rels[i].bytes < 0.0 { return Some(InvalidEdge(i, BytesNegative)); }
    }
    for i := 0 to |p.edges|
      invariant forall k :: 0 <= k < i ==> GoodEdge(p, p.edges[k])
    {
      EdgeErrorIffBad(p, i);
      error := EdgeError(p, i);
      if error.Some? {
        EdgeErrorBlames(p, config, i);
        return;
      }
    }
    return None;
  }

  // ---- Connectivity -----------------------------------------------------

  ghost function Lowest(s: set<nat>): (k: nat)
    requires s != {}
    ensures k in s && forall i :: i in s ==> k <= i
  {
    var x :| x in s;
    LowestExists(s, x);
    var k :| k in s && forall i :: i in s ==> k <= i;
    k
  }

  lemma {:induction false} LowestExists(s: set<nat>, x: nat)
    requires x in s
    ensures exists k :: k in s && forall i :: i in s ==> k <= i
    decreases x
  {
    if y :| y in s && y < x {
      LowestExists(s, y);
    }
  }

  /** If the edge lies inside `whole` and touches `part`, then `part` holds all of it. */
  ghost predicate Absorbed(e: Edge, whole: set<nat>, part: set<nat>) {
    Usable(e) && EdgeRels(e) <= whole && !(EdgeRels(e) !! part) ==> EdgeRels(e) <= part
  }

  /** `part` absorbs every usable edge that lies inside `whole` and touches it. */
  ghost predicate ClosedIn(p: Problem, whole: set<nat>, part: set<nat>) {
    forall e :: e in p.edges ==> Absorbed(e, whole, part)
  }

  /** No proper part around the lowest relation is closed. */
  ghost predicate Connected(p: Problem, s: set<nat>) {
    s != {} && forall part :: ClosedIn(p, s, part) && Lowest(s) in part ==> s <= part
  }

  ghost predicate Step(p: Problem, s: set<nat>, a: nat, b: nat) {
    exists e :: e in p.edges && Usable(e) && EdgeRels(e) <= s && a in EdgeRels(e) && b in EdgeRels(e)
  }

  ghost predicate Path(p: Problem, s: set<nat>, path: seq<nat>) {
    |path| > 0 && forall k :: 0 < k < |path| ==> Step(p, s, path[k - 1], path[k])
  }

  ghost predicate Reachable(p: Problem, s: set<nat>, a: nat, b: nat) {
    exists path :: Path(p, s, path) && path[0] == a && path[|path| - 1] == b
  }

  lemma {:induction false} PathStaysClosed(p: Problem, s: set<nat>, part: set<nat>, path: seq<nat>)
    requires ClosedIn(p, s, part) && Path(p, s, path) && path[0] in part
    ensures path[|path| - 1] in part
    decreases |path|
  {
    var n := |path|;
    if n > 1 {
      PathStaysClosed(p, s, part, path[..n - 1]);
      assert Step(p, s, path[n - 2], path[n - 1]);
      var e :| e in p.edges && Usable(e) && EdgeRels(e) <= s && path[n - 2] in EdgeRels(e)
          && path[n - 1] in EdgeRels(e);
      assert Absorbed(e, s, part);
    }
  }

  /** Being connected is exactly: every relation is reachable from the lowest one inside the set. */
  lemma ConnectedIffReachable(p: Problem, s: set<nat>)
    requires s != {}
    ensures Connected(p, s) <==> forall x :: x in s ==> Reachable(p, s, Lowest(s), x)
  {
    var low := Lowest(s);
    if Connected(p, s) {
      var part := set x | x in s && Reachable(p, s, low, x);
      assert Path(p, s, [low]) && [low][0] == low;
      ReachableIsClosed(p, s, low, part);
    }
    if forall x :: x in s ==> Reachable(p, s, low, x) {
      forall part | ClosedIn(p, s, part) && low in part ensures s <= part {
        forall x | x in s ensures x in part {
          var path :| Path(p, s, path) && path[0] == low && path[|path| - 1] == x;
          PathStaysClosed(p, s, part, path);
        }
      }
    }
  }

  lemma ReachableIsClosed(p: Problem, s: set<nat>, low: nat, part: set<nat>)
    requires part == set x | x in s && Reachable(p, s, low, x)
    ensures ClosedIn(p, s, part)
  {
    forall e | e in p.edges && Usable(e) && EdgeRels(e) <= s && !(EdgeRels(e) !! part)
      ensures EdgeRels(e) <= part
    {
      var a :| a in EdgeRels(e) && a in part;
      var path :| Path(p, s, path) && path[0] == low && path[|path| - 1] == a;
      forall b | b in EdgeRels(e) ensures b in part {
        assert Step(p, s, a, b);
        var longer := path + [b];
        assert Path(p, s, longer) && longer[0] == low && longer[|longer| - 1] == b;
      }
    }
  }

  /** A connected set has no closed proper part, wherever that part lies. */
  lemma ConnectedNoCut(p: Problem, s: set<nat>, part: set<nat>)
    requires Connected(p, s)
    requires part <= s && part != {} && ClosedIn(p, s, part)
    ensures part == s
  {
    if Lowest(s) !in part {
      var rest := s - part;
      forall e | e in p.edges ensures Absorbed(e, s, rest) {
        assert Absorbed(e, s, part);
      }
      assert ClosedIn(p, s, rest);
      assert false;
    }
  }

  /** Two connected sets joined by an edge form a connected set. */
  lemma ConnectedUnion(p: Problem, a: set<nat>, b: set<nat>, e: Edge)
    requires Connected(p, a) && Connected(p, b)
    requires e in p.edges && Usable(e) && EdgeRels(e) <= a + b
    requires !(EdgeRels(e) !! a) && !(EdgeRels(e) !! b)
    ensures Connected(p, a + b)
  {
    var s := a + b;
    forall part | ClosedIn(p, s, part) && Lowest(s) in part ensures s <= part {
      assert Absorbed(e, s, part);
      AbsorbConnected(p, s, a, part);
      AbsorbConnected(p, s, b, part);
    }
  }

  lemma AbsorbConnected(p: Problem, s: set<nat>, a: set<nat>, part: set<nat>)
    requires Connected(p, a) && a <= s && ClosedIn(p, s, part)
    ensures !(a !! part) ==> a <= part
  {
    if x :| x in a && x in part {
      forall e | e in p.edges ensures Absorbed(e, a, a * part) {
        assert Absorbed(e, s, part);
      }
      assert x in a * part;
      ConnectedNoCut(p, a, a * part);
    }
  }

  lemma SingletonConnected(p: Problem, k: nat)
    ensures Connected(p, {k})
  {
    assert Lowest({k}) == k;
  }

  // ---- Links ------------------------------------------------------------

  // Products and quotients have names, so that a proof can hide the nonlinear arithmetic behind them.

  function Times(a: real, b: real): real { a * b }

  function Over(a: real, b: real): real
    requires b != 0.0
  {
    a / b
  }

  /** The edge has one whole side in each part, so a join of the parts applies it. */
  ghost predicate Crosses(e: Edge, a: set<nat>, b: set<nat>) {
    && Usable(e)
    && ((Members(e.left) <= a && Members(e.right) <= b) || (Members(e.left) <= b && Members(e.right) <= a))
  }

  /** Product of the selectivities of the first `k` edges that cross. */
  ghost function LinkSelectivity(p: Problem, a: set<nat>, b: set<nat>, k: nat): real
    requires k <= |p.edges|
  {
    if k == 0 then 1.0
    else if Crosses(p.edges[k - 1], a, b) then Times(LinkSelectivity(p, a, b, k - 1), p.edges[k - 1].selectivity)
    else LinkSelectivity(p, a, b, k - 1)
  }

  ghost predicate HasLink(p: Problem, a: set<nat>, b: set<nat>) {
    exists i :: 0 <= i < |p.edges| && Crosses(p.edges[i], a, b)
  }

  ghost predicate LinkCommutes(p: Problem, a: set<nat>, b: set<nat>) {
    forall i :: 0 <= i < |p.edges| && Crosses(p.edges[i], a, b) ==> p.edges[i].commutative
  }

  ghost function Link(p: Problem, a: set<nat>, b: set<nat>): Option<JoinLink> {
    if HasLink(p, a, b)
    then Some(JoinLink(LinkSelectivity(p, a, b, |p.edges|), LinkCommutes(p, a, b)))
    else None
  }

  /** The link used by the search: in cross-join mode an unlinked pair joins with selectivity one. */
  ghost function LinkOrCross(p: Problem, cross: bool, a: set<nat>, b: set<nat>): Option<JoinLink> {
    if Link(p, a, b).Some? then Link(p, a, b)
    else if cross then Some(JoinLink(1.0, true))
    else None
  }

  lemma NoLinkNoSelectivity(p: Problem, a: set<nat>, b: set<nat>, k: nat)
    requires k <= |p.edges| && !HasLink(p, a, b)
    ensures LinkSelectivity(p, a, b, k) == 1.0
  {
  }

  /** `Problem::join_link`. */
  method ComputeLink(p: Problem, left: RelSet, right: RelSet) returns (link: Option<JoinLink>)
    ensures link == Link(p, Members(left), Members(right))
  {
    var selectivity, found, commutative := 1.0, false, true;
    ghost var a, b := Members(left), Members(right);
    for k := 0 to |p.edges|
      invariant selectivity == LinkSelectivity(p, a, b, k)
      invariant found <==> exists i :: 0 <= i < k && Crosses(p.edges[i], a, b)
      invariant commutative <==> forall i :: 0 <= i < k && Crosses(p.edges[i], a, b) ==> p.edges[i].commutative
    {
      var e := p.edges[k];
      if Usable(e) {
        var forward := AndNot(e.left, left) == 0 && AndNot(e.right, right) == 0;
        var reverse := AndNot(e.left, right) == 0 && AndNot(e.right, left) == 0;
        AndNotZero(e.left, left); AndNotZero(e.right, right);
        AndNotZero(e.left, right); AndNotZero(e.right, left);
        if forward || reverse {
          found := true;
          selectivity := Times(selectivity, e.selectivity);
          commutative := commutative && e.commutative;
        }
      }
    }
    link := if found then Some(JoinLink(selectivity, commutative)) else None;
  }

  /** `lowest_bit`. */
  function LowestBit(m: RelSet): RelSet
    requires m < Pow2(WORD_BITS)
  {
    And(m, WrappingNeg(m, WORD_BITS))
  }

  lemma LowestBitIsLowest(m: RelSet)
    requires 0 < m < Pow2(WORD_BITS)
    ensures Members(m) != {} && Members(LowestBit(m)) == {Lowest(Members(m))}
  {
    Nonzero(m);
    LowestBitMembers(m, WORD_BITS);
  }

  predicate IsSingleton(m: RelSet) {
    m != 0 && And(m, m - 1) == 0
  }

  /** `m & (m - 1)` clears exactly the lowest bit. */
  lemma SingletonMask(m: RelSet)
    requires m > 0
    ensures IsSingleton(m) <==> |Members(m)| == 1
  {
    Nonzero(m);
    var low := Lowest(Members(m));
    SingleBit(low);
    SubmaskAtMost(Pow2(low), m);
    if IsSingleton(m) {
      if Members(m) != {low} {
        if Pow2(low) == m { assert false; }
        NextSubmask(m, m, Pow2(low));
        AndCommutes(m - 1, m);
        Nonzero(m);
        assert false;
      }
    } else {
      if |Members(m)| == 1 {
        OneMember(Members(m), low);
        AndAtMost(m - 1, m);
        AndCommutes(m - 1, m);
        var rest := And(m - 1, m);
        Nonzero(rest);
        assert Members(rest) == {low};
        SameMembers(rest, m);
        assert false;
      }
    }
    if Members(m) == {low} { assert |{low}| == 1; }
  }

  lemma OneMember(s: set<nat>, x: nat)
    requires |s| == 1 && x in s
    ensures s == {x}
  {
    assert |s - {x}| == 0;
  }

  lemma AndCommutes(a: nat, b: nat)
    ensures And(a, b) == And(b, a)
  {
    MembersAnd(a, b);
    MembersAnd(b, a);
    SameMembers(And(a, b), And(b, a));
  }

  /** `is_connected`: grow the visited set from the lowest relation to a fixed point. */
  method IsConnected(p: Problem, m: RelSet) returns (r: bool)
    requires 0 < m < Pow2(WORD_BITS)
    ensures r <==> Connected(p, Members(m))
  {
    ghost var s := Members(m);
    Nonzero(m);
    SingletonMask(m);
    if IsSingleton(m) {
      OneMember(s, Lowest(s));
      SingletonConnected(p, Lowest(s));
      return true;
    }
    var visited := LowestBit(m);
    LowestBitIsLowest(m);
    var changed := true;
    while changed
      invariant Members(visited) <= s && Lowest(s) in Members(visited)
      invariant forall part :: ClosedIn(p, s, part) && Lowest(s) in part ==> Members(visited) <= part
      invariant !changed ==> ClosedIn(p, s, Members(visited))
      decreases changed, |s - Members(visited)|
    {
      var before := visited;
      visited := GrowOnce(p, m, visited);
      changed := visited != before;
      if changed {
        if Members(visited) == Members(before) { SameMembers(visited, before); }
        assert s - Members(visited) < s - Members(before);
        SubsetSize(s - Members(visited), s - Members(before));
      }
    }
    r := visited == m;
    if Members(visited) == s { SameMembers(visited, m); }
  }

  /** One pass over the edges. */
  method GrowOnce(p: Problem, m: RelSet, start: RelSet) returns (visited: RelSet)
    requires 0 < m
    requires Members(start) <= Members(m)
    ensures Members(start) <= Members(visited) <= Members(m)
    ensures forall part :: ClosedIn(p, Members(m), part) && Members(start) <= part ==> Members(visited) <= part
    ensures visited == start ==> ClosedIn(p, Members(m), Members(start))
  {
    visited := start;
    for k := 0 to |p.edges|
      invariant Members(start) <= Members(visited) <= Members(m)
      invariant forall part :: ClosedIn(p, Members(m), part) && Members(start) <= part ==> Members(visited) <= part
      invariant visited == start ==> forall i :: 0 <= i < k ==> Absorbed(p.edges[i], Members(m), Members(start))
    {
      var e := p.edges[k];
      if Usable(e) {
        var edgeSet := Or(e.left, e.right);
        MembersOr(e.left, e.right);
        AndNotZero(edgeSet, m);
        AndZero(edgeSet, visited);
        if AndNot(edgeSet, m) == 0 && And(edgeSet, visited) != 0 {
          MembersOr(visited, edgeSet);
          forall part | ClosedIn(p, Members(m), part) && Members(start) <= part ensures EdgeRels(e) <= part {
            assert Absorbed(e, Members(m), part);
          }
          ghost var before := visited;
          visited := Or(visited, edgeSet);
          if visited == start {
            assert Members(before) == Members(start);
            SameMembers(before, start);
          }
        }
      }
    }
  }

  method ConnectedSets(p: Problem, n: nat) returns (connected: seq<bool>)
    requires 0 < n < WORD_BITS
    ensures |connected| == Pow2(n)
    ensures forall m :: 0 < m < Pow2(n) ==> (connected[m] <==> Connected(p, Members(m)))
  {
    connected := [false];
    Pow2Monotone(n, WORD_BITS);
    for m := 1 to Pow2(n)
      invariant |connected| == m
      invariant forall k :: 0 < k < m ==> (connected[k] <==> Connected(p, Members(k)))
    {
      var c := IsConnected(p, m);
      connected := connected + [c];
    }
  }

  lemma {:induction false} Pow2Monotone(a: nat, b: nat)
    requires a <= b
    ensures Pow2(a) <= Pow2(b)
    decreases b - a
  {
    if a < b { Pow2Monotone(a, b - 1); }
  }

  // ---- The cost recurrence ----------------------------------------------

  function Width(s: PlanStats): real {
    if s.rows > 0.0 then Over(s.bytes, s.rows) else 0.0
  }

  function MaxReal(a: real, b: real): real {
    if a < b then b else a
  }

  /** `estimate_join`. */
  function EstimateJoin(left: RelSet, right: RelSet, l: PlanStats, r: PlanStats, link: JoinLink): Best {
    var rows := MaxReal(Times(Times(l.rows, r.rows), link.selectivity), 0.0);
    var bytes := Times(rows, Width(l) + Width(r));
    var leftBuildCost := l.bytes + r.rows;
    var rightBuildCost := r.bytes + l.rows;
    var buildRight := link.commutative && rightBuildCost < leftBuildCost;
    var joinWork := if buildRight then rightBuildCost else leftBuildCost;
    Best(l.cost + r.cost + joinWork + rows + bytes, rows, bytes, left, right,
         if buildRight then BuildRight else BuildLeft)
  }

  function StatsOf(b: Best): PlanStats {
    PlanStats(b.cost, b.rows, b.bytes)
  }
}
