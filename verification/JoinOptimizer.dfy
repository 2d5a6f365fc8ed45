/** The counting prepass, the plan table and the optimality of the plan read off it. */
module JoinOptimizer {
  import opened Common
  import opened Bits
  import opened JoinProblem
  import opened JoinTrees
  import opened JoinSearch

  // ---- The plan table ------------------------------------------------------

  /** The plan for a union built from the table's plans for the two sides. */
  ghost function Candidate(p: Problem, cross: bool, entries: Table, l: RelSet, r: RelSet): Option<Best>
    requires l < |entries| && r < |entries|
  {
    var link := LinkOrCross(p, cross, Members(l), Members(r));
    if link.Some? && entries[l].Some? && entries[r].Some?
    then Some(EstimateJoin(l, r, StatsOf(entries[l].value), StatsOf(entries[r].value), link.value))
    else None
  }

  /** A candidate at least as good as another, whose left side is `l`; of equal ones the larger left side. */
  predicate Wins(best: Best, l: RelSet, cost: real) {
    best.cost < cost || (best.cost == cost && l <= best.left)
  }

  /** `best` is the first of the cheapest candidates among the splits of `m`. */
  ghost predicate IsBest(p: Problem, cross: bool, entries: Table, m: RelSet, best: Option<Best>)
    requires m < |entries|
  {
    && (best.Some? ==>
          && IsSplit(m, best.value.left, best.value.right) && best.value.left < m && best.value.right < m
          && Candidate(p, cross, entries, best.value.left, best.value.right) == best)
    && (forall l: RelSet, r: RelSet :: IsSplit(m, l, r) && l < m && r < m && Candidate(p, cross, entries, l, r).Some?
          ==> best.Some? && Wins(best.value, l, Candidate(p, cross, entries, l, r).value.cost))
  }

  function LeafEntry(s: RelStats): Best {
    Best(0.0, s.rows, s.bytes, 0, 0, BuildRight)
  }

  ghost predicate EntryOk(p: Problem, cross: bool, entries: Table, m: RelSet)
    requires 0 < m < |entries| && |entries| == Pow2(|p.rels|)
  {
    Nonzero(m);
    var low := Lowest(Members(m));
    if Members(m) == {low} then low < |p.rels| && entries[m] == Some(LeafEntry(p.rels[low]))
    else IsBest(p, cross, entries, m, entries[m])
  }

  /** Every entry of the table is settled. */
  ghost predicate ValidTable(p: Problem, cross: bool, entries: Table) {
    && |entries| == Pow2(|p.rels|)
    && forall m :: 0 < m < |entries| ==> EntryOk(p, cross, entries, m)
  }

  /** What the search knows when it is about to visit `next` at size `width`. */
  ghost predicate Progress(p: Problem, cross: bool, entries: Table, width: nat, next: RelSet) {
    && |entries| == Pow2(|p.rels|)
    && (forall m :: 0 < m < |entries| && (Before(m, width, next) || CountOnes(m) == 1) ==>
          EntryOk(p, cross, entries, m))
    && (forall m :: 0 < m < |entries| && !Before(m, width, next) && CountOnes(m) != 1 ==> entries[m].None?)
    && (!cross ==> forall m :: 0 < m < |entries| && entries[m].Some? ==> Connected(p, Members(m)))
    && (cross ==> forall m :: 0 < m < |entries| && (Before(m, width, next) || CountOnes(m) == 1) ==> entries[m].Some?)
  }

  /** Settling one set leaves the entries of earlier sets settled: they only refer to smaller sets. */
  lemma EntryFrame(p: Problem, cross: bool, entries: Table, s: RelSet, best: Option<Best>, m: RelSet)
    requires |entries| == Pow2(|p.rels|) && 0 < s < |entries| && 0 < m < |entries| && m != s
    requires CountOnes(m) <= CountOnes(s) && EntryOk(p, cross, entries, m)
    ensures EntryOk(p, cross, entries[s := best], m)
  {
    hide EstimateJoin, LinkOrCross, CountOnes;
    var entries' := entries[s := best];
    forall l: RelSet, r: RelSet | IsSplit(m, l, r) && l < m && r < m
      ensures Candidate(p, cross, entries', l, r) == Candidate(p, cross, entries, l, r)
    {
      SplitSmaller(m, l, r);
    }
  }

  lemma SettleEntry(p: Problem, cross: bool, entries: Table, width: nat, s: RelSet, best: Option<Best>)
    requires Progress(p, cross, entries, width, s)
    requires 0 < s < |entries| && CountOnes(s) == width >= 2
    requires IsBest(p, cross, entries, s, best)
    requires !cross && best.Some? ==> Connected(p, Members(s))
    requires cross ==> best.Some?
    ensures Progress(p, cross, entries[s := best], width, s + 1)
  {
    hide EntryOk, IsBest;
    var entries' := entries[s := best];
    forall m | 0 < m < |entries|
        && (Before(m, width, s + 1) || CountOnes(m) == 1) ensures EntryOk(p, cross, entries', m) {
      if m == s {
        BestFrame(p, cross, entries, s, best);
      } else {
        EntryFrame(p, cross, entries, s, best, m);
      }
    }
  }

  lemma BestFrame(p: Problem, cross: bool, entries: Table, s: RelSet, best: Option<Best>)
    requires |entries| == Pow2(|p.rels|) && 0 < s < |entries| && CountOnes(s) >= 2
    requires IsBest(p, cross, entries, s, best)
    ensures EntryOk(p, cross, entries[s := best], s)
  {
    hide EstimateJoin, LinkOrCross, CountOnes, IsSplit, Members;
    NotSingle(s);
    var entries' := entries[s := best];
    forall l: RelSet, r: RelSet | IsSplit(s, l, r) && l < s && r < s
      ensures Candidate(p, cross, entries', l, r) == Candidate(p, cross, entries, l, r)
    {
    }
  }

  lemma NotSingle(s: RelSet)
    requires CountOnes(s) >= 2
    ensures Members(s) != {} && Members(s) != {Lowest(Members(s))}
  {
    CountOnesIsSize(s);
  }

  lemma SkipEntry(p: Problem, cross: bool, entries: Table, width: nat, s: RelSet)
    requires Progress(p, cross, entries, width, s) && 0 < s < |entries| && width >= 2
    requires CountOnes(s) != width
    ensures Progress(p, cross, entries, width, s + 1)
  {
    hide EntryOk, CountOnes;
    assert forall m: RelSet :: Before(m, width, s + 1) <==> Before(m, width, s);
  }

  /** A disconnected set has no candidate, so leaving its entry empty settles it. */
  lemma DisconnectedEntry(p: Problem, entries: Table, width: nat, s: RelSet)
    requires WellFormed(p) && Progress(p, false, entries, width, s)
    requires 0 < s < |entries| && CountOnes(s) == width >= 2
    requires !Connected(p, Members(s))
    ensures IsBest(p, false, entries, s, None)
  {
    hide EstimateJoin, EntryOk, WellFormed, Connected, CountOnes;
    forall l: RelSet, r: RelSet | IsSplit(s, l, r) && l < s && r < s && Candidate(p, false, entries, l, r).Some?
      ensures false
    {
      SplitSmaller(s, l, r);
      LinkedConnected(p, Members(l), Members(r));
    }
  }

  lemma ProgressNextWidth(p: Problem, cross: bool, entries: Table, width: nat)
    requires Progress(p, cross, entries, width, Pow2(|p.rels|))
    ensures Progress(p, cross, entries, width + 1, 1)
  {
    hide EntryOk, CountOnes;
    assert forall m :: 0 < m < |entries| ==> (Before(m, width + 1, 1) <==> Before(m, width, Pow2(|p.rels|)));
  }

  lemma ProgressDone(p: Problem, cross: bool, entries: Table)
    requires Progress(p, cross, entries, |p.rels| + 1, 1)
    ensures ValidTable(p, cross, entries)
  {
    forall m | 0 < m < |entries| ensures EntryOk(p, cross, entries, m) {
      SizeAtMost(m, |p.rels|);
    }
  }

  // ---- Visiting one set ------------------------------------------------------

  ghost predicate ConnectedTable(p: Problem, connected: seq<bool>) {
    && |connected| == Pow2(|p.rels|)
    && forall m :: 0 < m < |connected| ==> (connected[m] <==> Connected(p, Members(m)))
  }

  /** The search or the prepass stopped because the pairs seen so far exceed the budget. */
  ghost predicate OverBudget(p: Problem, config: Config, error: OptimizeError) {
    error == BudgetExceeded(config.maxPairs + 1, config.maxPairs) && !WithinBudget(p, config)
  }

  /** The pairs counted once the first `k` splits of `m` are visited. */
  ghost function SeenAt(p: Problem, cross: bool, m: RelSet, splits: seq<(RelSet, RelSet)>, k: nat): set<(RelSet,
        RelSet)>
    requires k <= |splits|
  {
    PairsBefore(p, cross, CountOnes(m), m) + PairsOfSplits(p, cross, splits, k)
  }

  ghost predicate SplitsOf(m: RelSet, splits: seq<(RelSet, RelSet)>) {
    && (forall i :: 0 <= i < |splits| ==> IsSplit(m, splits[i].0, splits[i].1))
    && (forall l: RelSet, r: RelSet :: IsSplit(m, l, r) ==> (l, r) in splits)
    && (forall i, j :: 0 <= i < j < |splits| ==> splits[i].0 > splits[j].0)
  }

  lemma SeenStart(p: Problem, cross: bool, m: RelSet, splits: seq<(RelSet, RelSet)>)
    requires 0 < m < Pow2(|p.rels|) && SplitsOf(m, splits)
    ensures SeenAt(p, cross, m, splits, 0) == PairsBefore(p, cross, CountOnes(m), m)
    ensures SeenAt(p, cross, m, splits, |splits|) == PairsBefore(p, cross, CountOnes(m), m + 1)
  {
    PairsOfSet(p, cross, CountOnes(m), m, splits);
  }

  /** A split is new when it is reached, and counted exactly when it is observed. */
  lemma SeenNext(p: Problem, cross: bool, m: RelSet, splits: seq<(RelSet, RelSet)>, k: nat)
    requires SplitsOf(m, splits) && k < |splits|
    ensures splits[k] !in SeenAt(p, cross, m, splits, k)
    ensures SeenAt(p, cross, m, splits, k + 1)
         == if Observes(p, cross, splits[k].0, splits[k].1) then SeenAt(p, cross, m, splits, k) + {splits[k]}
            else SeenAt(p, cross, m, splits, k)
  {
    SplitUnion(m, splits[k].0, splits[k].1);
    assert splits[..k + 1] == splits[..k] + [splits[k]];
  }

  /** Counted pairs are pairs of the problem, so exceeding the budget now means exceeding it in total. */
  lemma SeenInAll(p: Problem, config: Config, m: RelSet, splits: seq<(RelSet, RelSet)>, k: nat)
    requires 0 < m < Pow2(|p.rels|) && SplitsOf(m, splits) && k <= |splits|
    requires |SeenAt(p, config.allowCrossJoins, m, splits, k)| > config.maxPairs && config.maxPairs < U64_MAX
    ensures OverBudget(p, config, BudgetExceeded(config.maxPairs + 1, config.maxPairs))
  {
    hide SplitsOf, SeenAt, AllPairs, PairsOfSplits;
    var cross := config.allowCrossJoins;
    SeenPairs(p, cross, m, splits, k);
    SubsetSize(SeenAt(p, cross, m, splits, k), AllPairs(p, cross));
  }

  lemma SeenPairs(p: Problem, cross: bool, m: RelSet, splits: seq<(RelSet, RelSet)>, k: nat)
    requires 0 < m < Pow2(|p.rels|) && SplitsOf(m, splits) && k <= |splits|
    ensures SeenAt(p, cross, m, splits, k) <= AllPairs(p, cross)
  {
    hide IsSplit, Observes, Before, AllPairs;
    forall q | q in PairsOfSplits(p, cross, splits, k) ensures q in AllPairs(p, cross) {
      var i :| 0 <= i < k && q == splits[i];
      SplitInAll(p, cross, m, q);
    }
  }

  lemma SplitInAll(p: Problem, cross: bool, m: RelSet, q: (RelSet, RelSet))
    requires m < Pow2(|p.rels|) && IsSplit(m, q.0, q.1) && Observes(p, cross, q.0, q.1)
    ensures q in AllPairs(p, cross)
  {
    hide Members, Observes;
    SplitSmaller(m, q.0, q.1);
    SplitUnion(m, q.0, q.1);
    assert q in MaskPairs(|p.rels|);
  }

  /** The prepass on one set: count its observed splits. */
  method CountSet(p: Problem, config: Config, connected: seq<bool>, reachable: seq<bool>, m: RelSet, ctx: SearchCtx)
    returns (reached: bool, error: Option<OptimizeError>)
    requires WellFormed(p) && ConnectedTable(p, connected) && |reachable| == |connected|
    requires 0 < m < |connected| && CountOnes(m) >= 2
    requires config.allowCrossJoins ==> forall k :: 0 < k < |reachable| && CountOnes(k) < CountOnes(m) ==> reachable[k]
    requires ctx.Valid() && ctx.maxPairs == config.maxPairs
    requires ctx.seen == PairsBefore(p, config.allowCrossJoins, CountOnes(m), m)
    modifies ctx
    ensures error.None? ==> ctx.Valid() && ctx.seen == PairsBefore(p, config.allowCrossJoins, CountOnes(m), m + 1)
    ensures error.None? && config.allowCrossJoins ==> reached
    ensures error.Some? ==> OverBudget(p, config, error.value)
  {
    hide Members, IsSplit, Connected, Link, HasLink, PairsBefore, SeenAt, Observes, OverBudget, WellFormed, CountOnes,
        SplitsOf, ConnectedTable;
    var cross := config.allowCrossJoins;
    NarrowProblem(p);
    Pow2Monotone(|p.rels|, WORD_BITS);
    ConnectedSize(p, connected);
    var splits := AllSplits(m);
    SeenStart(p, cross, m, splits);
    SplitExists(m, splits);
    reached, error := false, None;
    for k := 0 to |splits|
      invariant ctx.Valid() && error.None?
      invariant ctx.seen == SeenAt(p, cross, m, splits, k)
      invariant cross && k > 0 ==> reached
    {
      var (left, right) := splits[k];
      SplitAt(p, connected, m, splits, k);
      ObservesLinked(p, cross, left, right);
      var observed := false;
      if if cross then reachable[left] && reachable[right] else connected[left] && connected[right] {
        var link := ComputeLink(p, left, right);
        observed := link.Some? || cross;
      }
      error := SeeSplit(p, config, m, splits, k, ctx, observed);
      if error.Some? { return; }
      reached := reached || observed;
    }
  }

  /** A split that is observed is counted against the budget. */
  method SeeSplit(p: Problem, config: Config, ghost m: RelSet, ghost splits: seq<(RelSet, RelSet)>, ghost k: nat,
                  ctx: SearchCtx, observed: bool)
    returns (error: Option<OptimizeError>)
    requires 0 < m < Pow2(|p.rels|) && SplitsOf(m, splits) && k < |splits| && ctx.Valid()
             && ctx.maxPairs == config.maxPairs
    requires ctx.seen == SeenAt(p, config.allowCrossJoins, m, splits, k)
    requires observed <==> Observes(p, config.allowCrossJoins, splits[k].0, splits[k].1)
    modifies ctx
    ensures error.None? ==> ctx.Valid() && ctx.seen == SeenAt(p, config.allowCrossJoins, m, splits, k + 1)
    ensures error.Some? ==> OverBudget(p, config, error.value)
  {
    hide SeenAt, Observes, OverBudget, SplitsOf;
    SeenNext(p, config.allowCrossJoins, m, splits, k);
    error := None;
    if observed {
      error := ctx.ObservePair(splits[k]);
      if error.Some? { SeenInAll(p, config, m, splits, k + 1); }
    }
  }

  lemma ObservesLinked(p: Problem, cross: bool, l: RelSet, r: RelSet)
    ensures Observes(p, cross, l, r)
       <==> cross || (Connected(p, Members(l)) && Connected(p, Members(r)) && Link(p, Members(l), Members(r)).Some?)
    ensures LinkOrCross(p, cross, Members(l), Members(r)) ==
            if cross && Link(p, Members(l), Members(r)).None? then Some(JoinLink(1.0, true))
                else Link(p, Members(l), Members(r))
  {
  }

  method AllSplits(m: RelSet) returns (splits: seq<(RelSet, RelSet)>)
    requires 0 < m < Pow2(WORD_BITS)
    ensures SplitsOf(m, splits)
  {
    splits := ForEachSplit(m);
  }

  /** The sides of the k-th split are smaller sets, and their connectedness is in the table. */
  lemma SplitAt(p: Problem, connected: seq<bool>, m: RelSet, splits: seq<(RelSet, RelSet)>, k: nat)
    requires SplitsOf(m, splits) && k < |splits| && ConnectedTable(p, connected) && m < |connected|
    ensures var (l, r) := splits[k];
            && 0 < l < m && 0 < r < m && CountOnes(l) < CountOnes(m) && CountOnes(r) < CountOnes(m) && IsSplit(m, l, r)
            && (connected[l] <==> Connected(p, Members(l))) && (connected[r] <==> Connected(p, Members(r)))
  {
    hide Connected, CountOnes, Members;
    SplitSmaller(m, splits[k].0, splits[k].1);
  }

  lemma ConnectedSize(p: Problem, connected: seq<bool>)
    requires ConnectedTable(p, connected)
    ensures |connected| == Pow2(|p.rels|)
  {
  }

  lemma SplitExists(m: RelSet, splits: seq<(RelSet, RelSet)>)
    requires CountOnes(m) >= 2 && SplitsOf(m, splits)
    ensures |splits| > 0
  {
    CountOnesIsSize(m);
    var l, r := FirstSplit(m);
  }

  /** The search on one set: the cheapest plan over its splits. */
  method BestSplit(p: Problem, config: Config, connected: seq<bool>, entries: Table, m: RelSet, ctx: SearchCtx)
    returns (best: Option<Best>, error: Option<OptimizeError>)
    requires WellFormed(p) && ConnectedTable(p, connected) && CountOnes(m) >= 2 && 0 < m < |connected|
    requires Progress(p, config.allowCrossJoins, entries, CountOnes(m), m)
    requires ctx.Valid() && ctx.maxPairs == config.maxPairs
    requires ctx.seen == PairsBefore(p, config.allowCrossJoins, CountOnes(m), m)
    modifies ctx
    ensures error.None? ==> ctx.Valid() && ctx.seen == PairsBefore(p, config.allowCrossJoins, CountOnes(m), m + 1)
    ensures error.None? ==> IsBest(p, config.allowCrossJoins, entries, m, best)
    ensures error.None? && config.allowCrossJoins ==> best.Some?
    ensures error.Some? ==> OverBudget(p, config, error.value)
  {
    hide EstimateJoin, EntryOk, CountOnes, WellFormed, Members, IsSplit, Connected, Link, LinkOrCross, HasLink;
    hide PairsBefore, SeenAt, Observes, OverBudget, Progress, BestSoFar, Candidate, IsBest, SplitsOf, ConnectedTable;
    var cross := config.allowCrossJoins;
    NarrowProblem(p);
    Pow2Monotone(|p.rels|, WORD_BITS);
    ConnectedSize(p, connected);
    var splits := AllSplits(m);
    SeenStart(p, cross, m, splits);
    SplitExists(m, splits);
    best, error := None, None;
    ProgressSides(p, cross, entries, m);
    NothingBest(p, cross, entries, m, splits);
    for k := 0 to |splits|
      invariant ctx.Valid() && error.None?
      invariant ctx.seen == SeenAt(p, cross, m, splits, k)
      invariant BestSoFar(p, cross, entries, m, splits, k, best)
      invariant cross && k > 0 ==> best.Some?
    {
      var (left, right) := splits[k];
      SplitAt(p, connected, m, splits, k);
      ObservesLinked(p, cross, left, right);
      ghost var bestBefore := best;
      var link := None;
      if if cross then entries[left].Some? && entries[right].Some? else connected[left] && connected[right] {
        link := ComputeLink(p, left, right);
        if link.None? && cross { link := Some(JoinLink(1.0, true)); }
      }
      error := SeeSplit(p, config, m, splits, k, ctx, link.Some?);
      if error.Some? { return; }
      if link.Some? && entries[left].Some? && entries[right].Some? {
        var candidate := EstimateJoin(left, right, StatsOf(entries[left].value), StatsOf(entries[right].value),
                                      link.value);
        if best.None? || candidate.cost < best.value.cost { best := Some(candidate); }
      }
      CandidateIs(p, cross, entries, left, right);
      BetterBest(p, cross, entries, m, splits, k, bestBefore, best);
    }
    BestOverall(p, cross, entries, m, splits, best);
  }

  /** What the search has established about the sides of a split of `m`. */
  lemma ProgressSides(p: Problem, cross: bool, entries: Table, m: RelSet)
    requires Progress(p, cross, entries, CountOnes(m), m)
    ensures |entries| == Pow2(|p.rels|)
    ensures !cross ==> forall k :: 0 < k < |entries| && entries[k].Some? ==> Connected(p, Members(k))
    ensures cross ==> forall k :: 0 < k < |entries| && CountOnes(k) < CountOnes(m) ==> entries[k].Some?
  {
  }

  lemma NothingBest(p: Problem, cross: bool, entries: Table, m: RelSet, splits: seq<(RelSet, RelSet)>)
    requires m < |entries|
    requires SplitsOf(m, splits)
    ensures BestSoFar(p, cross, entries, m, splits, 0, None)
  {
  }

  /** Keeping the cheaper of the best so far and the new candidate. */
  lemma BetterBest(p: Problem, cross: bool, entries: Table, m: RelSet, splits: seq<(RelSet, RelSet)>, k: nat,
                   before: Option<Best>, best: Option<Best>)
    requires m < |entries| && k < |splits|
    requires SplitsOf(m, splits)
    requires BestSoFar(p, cross, entries, m, splits, k, before)
    requires splits[k].0 < m && splits[k].1 < m
    requires var c := Candidate(p, cross, entries, splits[k].0, splits[k].1);
             best == if c.Some? && (before.None? || c.value.cost < before.value.cost) then c else before
    ensures BestSoFar(p, cross, entries, m, splits, k + 1, best)
  {
    hide EstimateJoin, LinkOrCross, Members, IsSplit;
    var c := Candidate(p, cross, entries, splits[k].0, splits[k].1);
    if c.Some? { CandidateSides(p, cross, entries, splits[k].0, splits[k].1); }
  }

  lemma CandidateSides(p: Problem, cross: bool, entries: Table, l: RelSet, r: RelSet)
    requires l < |entries| && r < |entries| && Candidate(p, cross, entries, l, r).Some?
    ensures var c := Candidate(p, cross, entries, l, r).value; c.left == l && c.right == r
  {
    hide Times, Over, Width, LinkOrCross, Members;
  }

  lemma BestOverall(p: Problem, cross: bool, entries: Table, m: RelSet, splits: seq<(RelSet, RelSet)>,
                    best: Option<Best>)
    requires m < |entries|
    requires SplitsOf(m, splits)
    requires BestSoFar(p, cross, entries, m, splits, |splits|, best)
    ensures IsBest(p, cross, entries, m, best)
  {
    hide Candidate, IsSplit;
  }

  lemma CandidateIs(p: Problem, cross: bool, entries: Table, l: RelSet, r: RelSet)
    requires l < |entries| && r < |entries|
    ensures Candidate(p, cross, entries, l, r) ==
      var link := LinkOrCross(p, cross, Members(l), Members(r));
      if link.Some? && entries[l].Some? && entries[r].Some?
      then Some(EstimateJoin(l, r, StatsOf(entries[l].value), StatsOf(entries[r].value), link.value))
      else None
  {
  }

  lemma NarrowProblem(p: Problem)
    requires WellFormed(p)
    ensures 0 < |p.rels| < WORD_BITS
  {
  }

  ghost predicate BestSoFar(p: Problem, cross: bool, entries: Table, m: RelSet, splits: seq<(RelSet, RelSet)>, k: nat,
                            best: Option<Best>)
    requires m < |entries| && k <= |splits|
    requires SplitsOf(m, splits)
  {
    && (best.Some? ==>
          && IsSplit(m, best.value.left, best.value.right) && best.value.left < m && best.value.right < m
          && Candidate(p, cross, entries, best.value.left, best.value.right) == best)
    && (forall i :: 0 <= i < k && splits[i].0 < m && splits[i].1 < m
                    && Candidate(p, cross, entries, splits[i].0, splits[i].1).Some?
          ==> best.Some?
              && Wins(best.value, splits[i].0, Candidate(p, cross, entries, splits[i].0, splits[i].1).value.cost))
    && (best.Some? ==> forall i :: k <= i < |splits| ==> splits[i].0 < best.value.left)
  }

  // ---- Reading a tree off the table ----------------------------------------

  /** The join tree the `left` and `right` fields describe. */
  ghost function TreeOf(p: Problem, cross: bool, entries: Table, m: RelSet): JoinTree
    requires ValidTable(p, cross, entries) && 0 < m < |entries| && entries[m].Some?
    decreases m
  {
    assert EntryOk(p, cross, entries, m);
    Nonzero(m);
    var low := Lowest(Members(m));
    if Members(m) == {low} then Leaf(low)
    else
      var best := entries[m].value;
      SplitSmaller(m, best.left, best.right);
      Node(TreeOf(p, cross, entries, best.left), TreeOf(p, cross, entries, best.right))
  }

  /** The tree read off an entry covers its set, is admissible and has exactly the entry's statistics. */
  lemma {:induction false} TreeAttains(p: Problem, cross: bool, entries: Table, m: RelSet)
    requires ValidTable(p, cross, entries) && 0 < m < |entries| && entries[m].Some?
    ensures var t := TreeOf(p, cross, entries, m);
            Rels(t) == Members(m) && Admissible(p, cross, t) && Anchored(t)
            && Stats(p, cross, t) == StatsOf(entries[m].value)
    decreases m
  {
    hide EstimateJoin;
    assert EntryOk(p, cross, entries, m);
    Nonzero(m);
    if Members(m) != {Lowest(Members(m))} {
      var best := entries[m].value;
      SplitSmaller(m, best.left, best.right);
      TreeAttains(p, cross, entries, best.left);
      TreeAttains(p, cross, entries, best.right);
      var link := LinkOrCross(p, cross, Members(best.left), Members(best.right)).value;
      MasksDoNotMatter(best.left, best.right, StatsOf(entries[best.left].value), StatsOf(entries[best.right].value),
                       link);
    }
  }

  /**
   * A join entry builds its right side exactly if its link commutes and that is strictly less work, and costs what its
   * sides cost, the work, the rows and the bytes.
   */
  lemma BuildSideExactly(p: Problem, cross: bool, entries: Table, m: RelSet)
    requires ValidTable(p, cross, entries) && 0 < m < |entries| && entries[m].Some?
    ensures var e := entries[m].value;
            if |Members(m)| == 1
            then exists r: nat :: r < |p.rels| && Members(m) == {r}
                                  && e == Best(0.0, p.rels[r].rows, p.rels[r].bytes, 0, 0, BuildRight)
            else
              && e.left < m && e.right < m && entries[e.left].Some? && entries[e.right].Some?
              && var (l, r, commutes) :=
                   (entries[e.left].value, entries[e.right].value, LinkCommutes(p, Members(e.left), Members(e.right)));
                 && (e.buildSide.BuildRight? <==> commutes && r.bytes + l.rows < l.bytes + r.rows)
                 && e.cost == l.cost + r.cost + BuildWork(commutes, l.bytes, l.rows, r.bytes, r.rows) + e.rows + e.bytes
  {
    hide Times, Over, Width, LinkSelectivity, Crosses;
    Nonzero(m);
    assert EntryOk(p, cross, entries, m);
    var low := Lowest(Members(m));
    if Members(m) == {low} {
      assert |Members(m)| == 1 && entries[m] == Some(LeafEntry(p.rels[low]));
    } else {
      if |Members(m)| == 1 { OneMember(Members(m), low); }
      var e := entries[m].value;
      if !HasLink(p, Members(e.left), Members(e.right)) { assert LinkCommutes(p, Members(e.left), Members(e.right)); }
    }
  }

  lemma MasksDoNotMatter(l: RelSet, r: RelSet, ls: PlanStats, rs: PlanStats, link: JoinLink)
    ensures StatsOf(EstimateJoin(l, r, ls, rs, link)) == StatsOf(EstimateJoin(0, 0, ls, rs, link))
  {
  }

  // ---- Completeness and optimality ------------------------------------------

  ghost function MaskOf(t: JoinTree): (m: RelSet)
    ensures Members(m) == Rels(t)
  {
    match t
    case Leaf(r) => SingleBit(r); Pow2(r)
    case Node(l, r) => MembersOr(MaskOf(l), MaskOf(r)); Or(MaskOf(l), MaskOf(r))
  }

  lemma MaskInTable(p: Problem, cross: bool, t: JoinTree)
    requires Admissible(p, cross, t)
    ensures 0 < MaskOf(t) < Pow2(|p.rels|)
  {
    RelsInUniverse(p, cross, t);
    Nonzero(MaskOf(t));
    MembersFullMask(|p.rels|);
    BelowFull(MaskOf(t), |p.rels|);
  }

  lemma NodeIsSplit(t: JoinTree)
    requires t.Node? && Anchored(t) && Rels(t.left) !! Rels(t.right)
    ensures IsSplit(MaskOf(t), MaskOf(t.left), MaskOf(t.right))
  {
    Nonzero(MaskOf(t.right));
  }

  /** Every set that has an admissible tree has an entry, for hyperedges too. */
  lemma {:induction false} TreeHasEntry(p: Problem, cross: bool, entries: Table, t: JoinTree)
    requires ValidTable(p, cross, entries) && Admissible(p, cross, t) && Anchored(t)
    ensures 0 < MaskOf(t) < |entries| && entries[MaskOf(t)].Some?
    decreases t
  {
    hide EstimateJoin;
    var m := MaskOf(t);
    MaskInTable(p, cross, t);
    assert EntryOk(p, cross, entries, m);
    if t.Node? {
      TreeHasEntry(p, cross, entries, t.left);
      TreeHasEntry(p, cross, entries, t.right);
      NodeIsSplit(t);
      SplitSmaller(m, MaskOf(t.left), MaskOf(t.right));
      assert Candidate(p, cross, entries, MaskOf(t.left), MaskOf(t.right)).Some?;
    }
  }

  /** Cheaper sides with the same rows and bytes make a cheaper join. */
  lemma EstimateMonotone(l: RelSet, r: RelSet, ls: PlanStats, rs: PlanStats, ls': PlanStats, rs': PlanStats,
                         link: JoinLink)
    requires ls.rows == ls'.rows && ls.bytes == ls'.bytes && ls.cost <= ls'.cost
    requires rs.rows == rs'.rows && rs.bytes == rs'.bytes && rs.cost <= rs'.cost
    ensures EstimateJoin(l, r, ls, rs, link).cost <= EstimateJoin(0, 0, ls', rs', link).cost
  {
    hide Times, Over;
  }

  /** Where rows and bytes depend only on the set, no anchored tree beats its entry. */
  lemma {:induction false} EntryIsOptimal(p: Problem, cross: bool, entries: Table, t: JoinTree)
    requires ValidTable(p, cross, entries) && StatsIndependent(p, cross)
    requires Admissible(p, cross, t) && Anchored(t)
    ensures 0 < MaskOf(t) < |entries| && entries[MaskOf(t)].Some?
    ensures var e := entries[MaskOf(t)].value;
            e.cost <= Stats(p, cross, t).cost && e.rows == Stats(p, cross, t).rows
                && e.bytes == Stats(p, cross, t).bytes
    decreases t
  {
    hide EstimateJoin;
    var m := MaskOf(t);
    TreeHasEntry(p, cross, entries, t);
    TreeAttains(p, cross, entries, m);
    assert EntryOk(p, cross, entries, m);
    if t.Node? {
      var ml, mr := MaskOf(t.left), MaskOf(t.right);
      EntryIsOptimal(p, cross, entries, t.left);
      EntryIsOptimal(p, cross, entries, t.right);
      NodeIsSplit(t);
      SplitSmaller(m, ml, mr);
      var link := LinkOrCross(p, cross, Rels(t.left), Rels(t.right)).value;
      EstimateMonotone(ml, mr, StatsOf(entries[ml].value), StatsOf(entries[mr].value),
                       Stats(p, cross, t.left), Stats(p, cross, t.right), link);
      assert Candidate(p, cross, entries, ml, mr).Some?;
    }
  }

  /** Over every bushy tree: the root entry is the minimum, and the tree read off it attains it. */
  lemma RootIsOptimal(p: Problem, cross: bool, entries: Table, t: JoinTree)
    requires WellFormed(p) && UnitEdges(p) && AllCommutative(p) && ValidTable(p, cross, entries)
    requires Admissible(p, cross, t) && Rels(t) == Members(FullMask(|p.rels|))
    ensures 0 < FullMask(|p.rels|) < |entries| && entries[FullMask(|p.rels|)].Some?
    ensures entries[FullMask(|p.rels|)].value.cost <= Stats(p, cross, t).cost == TreeCost(p, cross, t)
    ensures var best := TreeOf(p, cross, entries, FullMask(|p.rels|));
            Admissible(p, cross, best) && Rels(best) == Rels(t)
            && TreeCost(p, cross, best) == Stats(p, cross, best).cost == entries[FullMask(|p.rels|)].value.cost
  {
    hide EstimateJoin;
    UnitEdgesIndependent(p, cross);
    ReanchorAdmissible(p, cross, t);
    var u := Reanchor(t);
    EntryIsOptimal(p, cross, entries, u);
    SameMembers(MaskOf(u), FullMask(|p.rels|));
    TreeAttains(p, cross, entries, FullMask(|p.rels|));
    CostOfTree(p, cross, t);
    CostOfTree(p, cross, TreeOf(p, cross, entries, FullMask(|p.rels|)));
  }

  // ---- The prepass -------------------------------------------------------------

  lemma SingleMask(m: RelSet, n: nat) returns (i: nat)
    requires m < Pow2(n) && CountOnes(m) == 1
    ensures i < n && m == Pow2(i) && Members(m) == {i}
  {
    CountOnesIsSize(m);
    i :| i in Members(m);
    OneMember(Members(m), i);
    SingleBit(i);
    SameMembers(m, Pow2(i));
    HighBit(m, i, n);
  }

  /** Sets before `next` can be reached; only cross-join mode consults this table. */
  ghost predicate ReachableTable(reachable: seq<bool>, width: nat, next: RelSet) {
    forall k :: 0 < k < |reachable| && (Before(k, width, next) || CountOnes(k) == 1) ==> reachable[k]
  }

  method InitialReachable(n: nat) returns (reachable: seq<bool>)
    requires 0 < n < WORD_BITS
    ensures |reachable| == Pow2(n) && ReachableTable(reachable, 2, 1)
  {
    reachable := seq(Pow2(n), i => false);
    for rel := 0 to n
      invariant |reachable| == Pow2(n)
      invariant forall k :: 0 <= k < rel ==> Pow2(k) < Pow2(n) && reachable[Pow2(k)]
    {
      Pow2Strict(rel, n);
      reachable := reachable[Pow2(rel) := true];
    }
    forall k | 0 < k < |reachable| && (Before(k, 2, 1) || CountOnes(k) == 1) ensures reachable[k] {
      PositiveCount(k);
      var i := SingleMask(k, n);
    }
  }

  lemma {:induction false} Pow2Strict(a: nat, b: nat)
    requires a < b
    ensures Pow2(a) < Pow2(b)
  {
    Pow2Monotone(a + 1, b);
  }

  lemma PositiveCount(m: RelSet)
    requires m > 0
    ensures CountOnes(m) >= 1
  {
    CountOnesIsSize(m);
    Nonzero(m);
  }

  lemma ReachableSkip(reachable: seq<bool>, width: nat, m: RelSet)
    requires ReachableTable(reachable, width, m) && CountOnes(m) != width
    ensures ReachableTable(reachable, width, m + 1)
  {
    hide CountOnes;
  }

  /** `count_partitions`: counts exactly the pairs of the problem, or reports the budget. */
  method CountPartitions(p: Problem, config: Config) returns (r: Result<CountResult>)
    ensures r.Ok? <==> Accepted(p, config) && WithinBudget(p, config)
    ensures r.Ok? ==> r.value == CountResult(|p.rels|, Saturate(|AllPairs(p, config.allowCrossJoins)|), false)
    ensures r.Err? && !Accepted(p, config) ==> Blames(p, config, r.error)
    ensures r.Err? && Accepted(p, config) ==> r.error == BudgetExceeded(config.maxPairs + 1, config.maxPairs)
  {
    var invalid := Validate(p, config);
    if invalid.Some? { return Err(invalid.value); }
    r := CountAccepted(p, config);
  }

  method CountAccepted(p: Problem, config: Config) returns (r: Result<CountResult>)
    requires WellFormed(p)
    ensures r.Ok? <==> WithinBudget(p, config)
    ensures r.Ok? ==> r.value == CountResult(|p.rels|, Saturate(|AllPairs(p, config.allowCrossJoins)|), false)
    ensures r.Err? ==> r.error == BudgetExceeded(config.maxPairs + 1, config.maxPairs)
  {
    hide WellFormed, Connected, CountOnes, PairsBefore, AllPairs, Before, Members, ReachableTable;
    var cross := config.allowCrossJoins;
    var n := |p.rels|;
    NarrowProblem(p);
    var ctx := new SearchCtx(config);
    var connected := ConnectedSets(p, n);
    var reachable := InitialReachable(n);
    NothingVisited(p, cross);
    for width := 2 to n + 1
      invariant ctx.Valid() && ctx.maxPairs == config.maxPairs
      invariant ctx.seen == PairsBefore(p, cross, width, 1)
      invariant |reachable| == Pow2(n) && (cross ==> ReachableTable(reachable, width, 1))
    {
      for m := 1 to Pow2(n)
        invariant ctx.Valid() && ctx.maxPairs == config.maxPairs
        invariant ctx.seen == PairsBefore(p, cross, width, m)
        invariant |reachable| == Pow2(n) && (cross ==> ReachableTable(reachable, width, m))
      {
        if CountOnes(m) != width || (!cross && !connected[m]) {
          SkippedSet(p, cross, width, m);
          if cross { ReachableSkip(reachable, width, m); }
        } else {
          if cross { ReachableSmaller(reachable, m); }
          var reached, error := CountSet(p, config, connected, reachable, m, ctx);
          if error.Some? { return Err(error.value); }
          if cross { ReachableNext(reachable, width, m); }
          reachable := reachable[m := reached];
        }
      }
      NextWidth(p, cross, width);
      if cross { ReachableWidth(reachable, width); }
    }
    AllVisited(p, cross);
    r := Ok(CountResult(n, ctx.pairs, false));
  }

  lemma ReachableSmaller(reachable: seq<bool>, m: RelSet)
    requires ReachableTable(reachable, CountOnes(m), m)
    ensures forall k :: 0 < k < |reachable| && CountOnes(k) < CountOnes(m) ==> reachable[k]
  {
    hide CountOnes;
  }

  lemma ReachableNext(reachable: seq<bool>, width: nat, m: RelSet)
    requires 0 < m < |reachable| && ReachableTable(reachable, width, m) && CountOnes(m) == width
    ensures ReachableTable(reachable[m := true], width, m + 1)
  {
    hide CountOnes;
  }

  lemma ReachableWidth(reachable: seq<bool>, width: nat)
    requires ReachableTable(reachable, width, |reachable|)
    ensures ReachableTable(reachable, width + 1, 1)
  {
    hide CountOnes;
  }

  // ---- The optimizer -------------------------------------------------------------

  ghost predicate HasPlan(p: Problem, cross: bool) {
    exists t :: Admissible(p, cross, t) && Rels(t) == Members(FullMask(|p.rels|))
  }

  method InitialEntries(p: Problem, cross: bool) returns (entries: Table)
    requires WellFormed(p)
    ensures Progress(p, cross, entries, 2, 1)
  {
    hide CountOnes, Pow2, Progress;
    var n := |p.rels|;
    entries := seq(Pow2(n), i => None);
    for rel := 0 to n
      invariant |entries| == Pow2(n)
      invariant forall k :: 0 <= k < rel ==> Pow2(k) < Pow2(n) && entries[Pow2(k)] == Some(LeafEntry(p.rels[k]))
      invariant forall m :: 0 <= m < |entries| && entries[m].Some? ==> CountOnes(m) == 1
    {
      Pow2Strict(rel, n);
      forall k | 0 <= k < rel ensures Pow2(k) < Pow2(rel) { Pow2Strict(k, rel); }
      OneBit(rel);
      entries := entries[Pow2(rel) := Some(LeafEntry(p.rels[rel]))];
    }
    InitialProgress(p, cross, entries);
  }

  lemma OneBit(i: nat)
    ensures CountOnes(Pow2(i)) == 1
  {
    SingleBit(i);
    CountOnesIsSize(Pow2(i));
  }

  lemma InitialProgress(p: Problem, cross: bool, entries: Table)
    requires WellFormed(p) && |entries| == Pow2(|p.rels|)
    requires forall k :: 0 <= k < |p.rels| ==> Pow2(k) < |entries| && entries[Pow2(k)] == Some(LeafEntry(p.rels[k]))
    requires forall m :: 0 <= m < |entries| && entries[m].Some? ==> CountOnes(m) == 1
    ensures Progress(p, cross, entries, 2, 1)
  {
    hide CountOnes, Connected, IsBest, WellFormed;
    forall m | 0 < m < |entries| && (Before(m, 2, 1) || CountOnes(m) == 1)
      ensures EntryOk(p, cross, entries, m) && entries[m].Some? && Connected(p, Members(m))
    {
      PositiveCount(m);
      var i := SingleMask(m, |p.rels|);
      SingletonConnected(p, i);
      assert Lowest(Members(m)) == i;
    }
  }

  /** `optimize`: a settled table, or exactly the reason why there is none. */
  method Optimize(p: Problem, config: Config) returns (r: Result<Solution>)
    ensures r.Ok? <==> Accepted(p, config) && WithinBudget(p, config) && HasPlan(p, config.allowCrossJoins)
    ensures r.Ok? ==>
              && r.value.root == FullMask(|p.rels|) && ValidTable(p, config.allowCrossJoins, r.value.entries)
              && 0 < r.value.root < |r.value.entries| && r.value.entries[r.value.root].Some?
    ensures r.Err? && !Accepted(p, config) ==> Blames(p, config, r.error)
    ensures r.Err? && Accepted(p, config) && !WithinBudget(p, config) ==>
              r.error == BudgetExceeded(config.maxPairs + 1, config.maxPairs)
    ensures r.Err? && Accepted(p, config) && WithinBudget(p, config) ==>
              r.error == if !config.allowCrossJoins
                  && !Connected(p, Members(FullMask(|p.rels|))) then DisconnectedGraph else NoPlan
  {
    var invalid := Validate(p, config);
    if invalid.Some? { return Err(invalid.value); }
    var prepass := CountPartitions(p, config);
    if prepass.Err? { return Err(prepass.error); }
    hide WellFormed, Connected, CountOnes, PairsBefore, AllPairs, Before, Progress, EntryOk, IsBest, HasPlan, Members;
    var cross := config.allowCrossJoins;
    var n := |p.rels|;
    NarrowProblem(p);
    var root := FullMask(n);
    Pow2Strict(0, n);
    var connected := ConnectedSets(p, n);
    if !connected[root] && !cross {
      if HasPlan(p, cross) { PlanConnected(p); }
      return Err(DisconnectedGraph);
    }
    var entries := InitialEntries(p, cross);
    var ctx := new SearchCtx(config);
    NothingVisited(p, cross);
    for width := 2 to n + 1
      invariant ctx.Valid() && ctx.maxPairs == config.maxPairs
      invariant ctx.seen == PairsBefore(p, cross, width, 1)
      invariant Progress(p, cross, entries, width, 1)
    {
      for m := 1 to Pow2(n)
        invariant ctx.Valid() && ctx.maxPairs == config.maxPairs
        invariant ctx.seen == PairsBefore(p, cross, width, m)
        invariant Progress(p, cross, entries, width, m)
      {
        entries := VisitSet(p, config, connected, entries, width, m, ctx);
      }
      NextWidth(p, cross, width);
      ProgressNextWidth(p, cross, entries, width);
    }
    ProgressSize(p, cross, entries, n + 1, 1);
    ProgressDone(p, cross, entries);
    RootEntry(p, cross, entries);
    if entries[root].None? { return Err(NoPlan); }
    r := Ok(Solution(root, entries));
  }

  /** One set of the search: skipped, left empty, or given its cheapest plan. */
  method VisitSet(p: Problem, config: Config, connected: seq<bool>, before: Table, width: nat, m: RelSet,
                  ctx: SearchCtx) returns (entries: Table)
    requires WellFormed(p) && ConnectedTable(p, connected) && 2 <= width && 0 < m < |connected|
    requires Progress(p, config.allowCrossJoins, before, width, m) && WithinBudget(p, config)
    requires ctx.Valid() && ctx.maxPairs == config.maxPairs
             && ctx.seen == PairsBefore(p, config.allowCrossJoins, width, m)
    modifies ctx
    ensures Progress(p, config.allowCrossJoins, entries, width, m + 1)
    ensures ctx.Valid() && ctx.seen == PairsBefore(p, config.allowCrossJoins, width, m + 1)
  {
    hide WellFormed, Connected, CountOnes, PairsBefore, AllPairs, Before, Progress, EntryOk, IsBest, Members;
    var cross := config.allowCrossJoins;
    entries := before;
    ProgressSize(p, cross, entries, width, m);
    if CountOnes(m) != width {
      SkippedSet(p, cross, width, m);
      SkipEntry(p, cross, entries, width, m);
    } else if !cross && !connected[m] {
      SkippedSet(p, cross, width, m);
      DisconnectedEntry(p, entries, width, m);
      SettleEntry(p, cross, entries, width, m, None);
      EmptyAlready(p, cross, entries, width, m);
    } else {
      var best, error := BestSplit(p, config, connected, entries, m, ctx);
      assert error.None?;  // the prepass counted these same pairs, so the early return is dead
      SettleEntry(p, cross, entries, width, m, best);
      entries := entries[m := best];
    }
  }

  lemma ProgressSize(p: Problem, cross: bool, entries: Table, width: nat, next: RelSet)
    requires Progress(p, cross, entries, width, next)
    ensures |entries| == Pow2(|p.rels|)
  {
  }

  lemma EmptyAlready(p: Problem, cross: bool, entries: Table, width: nat, m: RelSet)
    requires Progress(p, cross, entries, width, m) && 0 < m < |entries| && CountOnes(m) == width >= 2
    ensures entries[m := None] == entries
  {
  }

  lemma PlanConnected(p: Problem)
    requires WellFormed(p) && HasPlan(p, false)
    ensures Connected(p, Members(FullMask(|p.rels|)))
  {
    var t :| Admissible(p, false, t) && Rels(t) == Members(FullMask(|p.rels|));
    TreeConnected(p, t);
  }

  /** The root has an entry exactly when some admissible tree covers all the relations. */
  lemma RootEntry(p: Problem, cross: bool, entries: Table)
    requires WellFormed(p) && ValidTable(p, cross, entries)
    ensures 0 < FullMask(|p.rels|) < |entries|
    ensures entries[FullMask(|p.rels|)].Some? <==> HasPlan(p, cross)
  {
    var root := FullMask(|p.rels|);
    Pow2Strict(0, |p.rels|);
    if entries[root].Some? {
      TreeAttains(p, cross, entries, root);
    }
    if HasPlan(p, cross) {
      var t :| Admissible(p, cross, t) && Rels(t) == Members(root);
      ReanchorAdmissible(p, cross, t);
      TreeHasEntry(p, cross, entries, Reanchor(t));
      SameMembers(MaskOf(Reanchor(t)), root);
    }
  }

  /** In cross-join mode every problem has a plan. */
  lemma CrossJoinsHavePlan(p: Problem)
    requires WellFormed(p)
    ensures HasPlan(p, true)
  {
    MembersFullMask(|p.rels|);
    var t := LeftDeep(p, |p.rels|);
    assert Rels(t) == Members(FullMask(|p.rels|));
  }

  lemma {:induction false} LeftDeep(p: Problem, k: nat) returns (t: JoinTree)
    requires 0 < k <= |p.rels|
    ensures Admissible(p, true, t) && forall i: nat :: i in Rels(t) <==> i < k
    decreases k
  {
    if k == 1 { return Leaf(0); }
    var rest := LeftDeep(p, k - 1);
    t := Node(rest, Leaf(k - 1));
  }

  /** With unit edges, `optimize` plans every connected problem that is within its budget. */
  lemma UnitEdgesHavePlan(p: Problem)
    requires WellFormed(p) && UnitEdges(p)
    ensures HasPlan(p, false) <==> Connected(p, Members(FullMask(|p.rels|)))
  {
    var s := Members(FullMask(|p.rels|));
    MembersFullMask(|p.rels|);
    if HasPlan(p, false) { PlanConnected(p); }
    if Connected(p, s) {
      var t := GrowTree(p, s, Leaf(Lowest(s)));
    }
  }
}
