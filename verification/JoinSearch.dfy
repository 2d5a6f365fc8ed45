/** The dynamic program over relation sets: split enumeration, pair budget and the plan table. */
module JoinSearch {
  import opened Common
  import opened Bits
  import opened JoinProblem
  import opened JoinTrees

  datatype Result<+T> = Ok(value: T) | Err(error: OptimizeError)

  datatype CountResult = CountResult(relCount: nat, pairs: nat, exceeded: bool)

  type Table = seq<Option<Best>>

  datatype Solution = Solution(root: RelSet, entries: Table)

  // ---- Two-way splits ----------------------------------------------------

  /** `l` and `r` partition `m` into two non-empty parts with the lowest relation in `l`. */
  ghost predicate IsSplit(m: RelSet, l: RelSet, r: RelSet) {
    && Members(m) != {}
    && Members(l) + Members(r) == Members(m) && Members(l) !! Members(r)
    && r != 0 && Lowest(Members(m)) in Members(l)
  }

  /** `for_each_split`: the splits in the order they are visited, each exactly once. */
  method ForEachSplit(m: RelSet) returns (splits: seq<(RelSet, RelSet)>)
    requires 0 < m < Pow2(WORD_BITS)
    ensures forall k :: 0 <= k < |splits| ==> IsSplit(m, splits[k].0, splits[k].1)
    ensures forall l: RelSet, r: RelSet :: IsSplit(m, l, r) ==> (l, r) in splits
    ensures forall i, j :: 0 <= i < j < |splits| ==> splits[i].0 > splits[j].0
  {
    hide IsSplit, Xor, And, Members, SplitsAbove;
    var anchor := LowestBit(m);
    LowestBitIsLowest(m);
    var left: RelSet := And(m - 1, m);
    AndAtMost(m - 1, m);
    splits := [];
    NoneAbove(m);
    while left != 0
      invariant left < m && Members(left) <= Members(m) && SplitsAbove(m, left, splits)
      decreases left
    {
      ghost var before := splits;
      var right := Xor(m, left);
      if And(left, anchor) != 0 && left != m {
        if right != 0 {
          splits := splits + [(left, right)];
        }
      }
      NextBelow(m, left, anchor, before, splits);
      AndAtMost(left - 1, m);
      left := And(left - 1, m);
    }
    AllAbove(m, splits);
  }

  /** The splits whose left side is above `left`, in falling order. */
  ghost predicate SplitsAbove(m: RelSet, left: RelSet, splits: seq<(RelSet, RelSet)>) {
    && (forall k :: 0 <= k < |splits| ==> IsSplit(m, splits[k].0, splits[k].1) && splits[k].0 > left)
    && (forall l: RelSet, r: RelSet :: IsSplit(m, l, r) && l > left ==> (l, r) in splits)
    && (forall i, j :: 0 <= i < j < |splits| ==> splits[i].0 > splits[j].0)
  }

  lemma NoneAbove(m: RelSet)
    requires 0 < m
    ensures SplitsAbove(m, And(m - 1, m), [])
  {
    hide IsSplit, And;
    forall l: RelSet, r: RelSet | IsSplit(m, l, r) ensures l <= And(m - 1, m) { SplitBelow(m, m, l, r); }
  }

  lemma NextBelow(m: RelSet, left: RelSet, anchor: RelSet, before: seq<(RelSet, RelSet)>, splits: seq<(RelSet, RelSet)>)
    requires 0 < left < m && Members(left) <= Members(m) && SplitsAbove(m, left, before)
    requires Members(m) != {} && Members(anchor) == {Lowest(Members(m))}
    requires splits == if And(left, anchor) != 0 && Xor(m, left) != 0 then before + [(left, Xor(m, left))] else before
    ensures SplitsAbove(m, And(left - 1, m), splits)
  {
    hide IsSplit, And, Xor, Members;
    VisitSplit(m, left, anchor);
    AndAtMost(left - 1, m);
    forall l: RelSet, r: RelSet | IsSplit(m, l, r) && l > And(left - 1, m) ensures (l, r) in splits {
      if l < left { SplitBelow(m, left, l, r); }
      if l == left { SplitRight(m, l, r, Xor(m, left)); }
    }
  }

  lemma AllAbove(m: RelSet, splits: seq<(RelSet, RelSet)>)
    requires SplitsAbove(m, 0, splits)
    ensures forall k :: 0 <= k < |splits| ==> IsSplit(m, splits[k].0, splits[k].1)
    ensures forall l: RelSet, r: RelSet :: IsSplit(m, l, r) ==> (l, r) in splits
    ensures forall i, j :: 0 <= i < j < |splits| ==> splits[i].0 > splits[j].0
  {
    forall l: RelSet, r: RelSet | IsSplit(m, l, r) ensures l > 0 { Nonzero(l); }
  }

  lemma SplitBelow(m: RelSet, left: RelSet, l: RelSet, r: RelSet)
    requires IsSplit(m, l, r) && left > 0 && Members(left) <= Members(m)
    requires l < left || left == m
    ensures l <= And(left - 1, m)
  {
    if left == m {
      SubmaskAtMost(l, m);
      Nonzero(r);
      if l == m { assert false; }
    }
    NextSubmask(left, m, l);
  }

  lemma VisitSplit(m: RelSet, left: RelSet, anchor: RelSet)
    requires Members(left) <= Members(m) && Members(m) != {} && Members(anchor) == {Lowest(Members(m))}
    ensures IsSplit(m, left, Xor(m, left)) <==> And(left, anchor) != 0 && Xor(m, left) != 0
  {
    MembersXor(m, left);
    AndZero(left, anchor);
  }

  lemma SplitRight(m: RelSet, l: RelSet, r: RelSet, right: RelSet)
    requires IsSplit(m, l, r) && right == Xor(m, l)
    ensures r == right
  {
    MembersXor(m, l);
    SameMembers(r, right);
  }

  /** Every two-way partition is visited once, with the part holding the lowest relation on the left. */
  lemma EveryPartitionOnce(m: RelSet, a: RelSet, b: RelSet)
    requires a != 0 && b != 0 && Members(a) !! Members(b) && Members(a) + Members(b) == Members(m)
    ensures IsSplit(m, a, b) != IsSplit(m, b, a)
  {
    Nonzero(a);
    Nonzero(b);
    assert Members(b) + Members(a) == Members(m);
  }

  lemma SplitSmaller(m: RelSet, l: RelSet, r: RelSet)
    requires IsSplit(m, l, r)
    ensures 0 < l < m && 0 < r < m
    ensures CountOnes(l) < CountOnes(m) && CountOnes(r) < CountOnes(m)
  {
    Nonzero(l);
    Nonzero(r);
    SubmaskAtMost(l, m);
    SubmaskAtMost(r, m);
    CountOnesIsSize(l); CountOnesIsSize(r); CountOnesIsSize(m);
    SubsetSize(Members(l), Members(m));
    SubsetSize(Members(r), Members(m));
  }

  /** The split that separates the lowest relation from the rest. */
  lemma FirstSplit(m: RelSet) returns (l: RelSet, r: RelSet)
    requires |Members(m)| >= 2
    ensures IsSplit(m, l, r)
  {
    var low := Lowest(Members(m));
    l := Pow2(low);
    r := AndNot(m, l);
    SingleBit(low);
    MembersAndNot(m, l);
    Nonzero(r);
    assert Members(l) + Members(r) == Members(m);
  }

  // ---- Observed pairs and their budget -----------------------------------

  /** The search looks at this pair: both sides can be built and the two can be joined. */
  ghost predicate Observes(p: Problem, cross: bool, l: RelSet, r: RelSet) {
    cross || (Connected(p, Members(l)) && Connected(p, Members(r)) && HasLink(p, Members(l), Members(r)))
  }

  ghost predicate IsPair(p: Problem, cross: bool, l: RelSet, r: RelSet) {
    IsSplit(Or(l, r), l, r) && Observes(p, cross, l, r)
  }

  /** Every pair of masks over `n` relations. */
  ghost function MaskPairs(n: nat): set<(RelSet, RelSet)> {
    set l, r | 0 <= l < Pow2(n) && 0 <= r < Pow2(n) :: (l, r)
  }

  /** All the pairs a complete search observes. */
  ghost function AllPairs(p: Problem, cross: bool): set<(RelSet, RelSet)> {
    set q | q in MaskPairs(|p.rels|) && IsPair(p, cross, q.0, q.1)
  }

  ghost predicate WithinBudget(p: Problem, config: Config) {
    |AllPairs(p, config.allowCrossJoins)| <= config.maxPairs || config.maxPairs == U64_MAX
  }

  function Saturate(n: nat): nat {
    if n <= U64_MAX then n else U64_MAX
  }

  /** The pair counter; `seen` records which pairs were counted. */
  class SearchCtx {
    var pairs: nat
    const maxPairs: u64
    ghost var seen: set<(RelSet, RelSet)>

    ghost predicate Valid()
      reads this
    {
      pairs == Saturate(|seen|) && pairs <= maxPairs
    }

    constructor (config: Config)
      ensures Valid() && seen == {} && maxPairs == config.maxPairs
    {
      pairs := 0;
      maxPairs := config.maxPairs;
      seen := {};
    }

    /** `observe_pair`, without the clock. */
    method ObservePair(ghost pair: (RelSet, RelSet)) returns (error: Option<OptimizeError>)
      requires Valid() && pair !in seen
      modifies this
      ensures seen == old(seen) + {pair} && pairs == Saturate(|seen|)
      ensures error.None? ==> Valid()
      ensures error.Some? <==> |seen| > maxPairs && maxPairs < U64_MAX
      ensures error.Some? ==> error.value == BudgetExceeded(maxPairs + 1, maxPairs)
    {
      pairs := if pairs + 1 <= U64_MAX then pairs + 1 else U64_MAX;
      seen := seen + {pair};
      if pairs > maxPairs { return Some(BudgetExceeded(pairs, maxPairs)); }
      return None;
    }
  }

  // ---- Visiting order -----------------------------------------------------

  /** Sets are visited by size, and within a size by value. */
  ghost predicate Before(m: RelSet, width: nat, next: RelSet) {
    CountOnes(m) < width || (CountOnes(m) == width && m < next)
  }

  /** The pairs whose union was visited before `next`. */
  ghost function PairsBefore(p: Problem, cross: bool, width: nat, next: RelSet): set<(RelSet, RelSet)> {
    set q | q in AllPairs(p, cross) && Before(Or(q.0, q.1), width, next)
  }

  ghost function PairsOfSplits(p: Problem, cross: bool, splits: seq<(RelSet, RelSet)>, k: nat): set<(RelSet, RelSet)>
    requires k <= |splits|
  {
    set q | q in splits[..k] && Observes(p, cross, q.0, q.1)
  }

  lemma SplitUnion(m: RelSet, l: RelSet, r: RelSet)
    requires Members(l) + Members(r) == Members(m)
    ensures Or(l, r) == m
  {
    MembersOr(l, r);
    SameMembers(Or(l, r), m);
  }

  /** After a set is done, its observed splits are the pairs added. */
  lemma PairsOfSet(p: Problem, cross: bool, width: nat, m: RelSet, splits: seq<(RelSet, RelSet)>)
    requires 0 < m < Pow2(|p.rels|) && CountOnes(m) == width
    requires forall k :: 0 <= k < |splits| ==> IsSplit(m, splits[k].0, splits[k].1)
    requires forall l: RelSet, r: RelSet :: IsSplit(m, l, r) ==> (l, r) in splits
    ensures PairsBefore(p, cross, width, m + 1)
         == PairsBefore(p, cross, width, m) + PairsOfSplits(p, cross, splits, |splits|)
  {
    var done := PairsOfSplits(p, cross, splits, |splits|);
    assert splits[..|splits|] == splits;
    forall q | q in splits ensures 0 < q.0 < m && 0 < q.1 < m && Or(q.0, q.1) == m {
      SplitSmaller(m, q.0, q.1);
      SplitUnion(m, q.0, q.1);
    }
    forall q | q in done ensures q in PairsBefore(p, cross, width, m + 1) {
      assert q in MaskPairs(|p.rels|);
    }
    forall q | q in PairsBefore(p, cross, width, m + 1) && q !in PairsBefore(p, cross, width, m) ensures q in done {
      assert Or(q.0, q.1) == m;
    }
  }

  lemma SkippedSet(p: Problem, cross: bool, width: nat, m: RelSet)
    requires WellFormed(p)
    requires CountOnes(m) != width || (!cross && !Connected(p, Members(m)))
    ensures PairsBefore(p, cross, width, m + 1) == PairsBefore(p, cross, width, m)
  {
    forall q | q in PairsBefore(p, cross, width, m + 1) ensures q in PairsBefore(p, cross, width, m) {
      if Or(q.0, q.1) == m && CountOnes(m) == width {
        MembersOr(q.0, q.1);
        LinkedConnected(p, Members(q.0), Members(q.1));
        assert false;
      }
    }
  }

  lemma NextWidth(p: Problem, cross: bool, width: nat)
    requires width > 0
    ensures PairsBefore(p, cross, width, Pow2(|p.rels|)) == PairsBefore(p, cross, width + 1, 1)
  {
    forall q | q in AllPairs(p, cross)
      ensures Before(Or(q.0, q.1), width, Pow2(|p.rels|)) <==> Before(Or(q.0, q.1), width + 1, 1)
    {
      OrBelow(q.0, q.1, |p.rels|);
      MembersOr(q.0, q.1);
      Nonzero(Or(q.0, q.1));
    }
  }

  lemma OrBelow(a: nat, b: nat, n: nat)
    requires a < Pow2(n) && b < Pow2(n)
    ensures Or(a, b) < Pow2(n)
  {
    MembersOr(a, b);
    MembersFullMask(n);
    BelowFull(a, n);
    BelowFull(b, n);
    SubmaskAtMost(Or(a, b), FullMask(n));
  }

  lemma {:induction false} BelowFull(a: nat, n: nat)
    ensures a < Pow2(n) <==> Members(a) <= Members(FullMask(n))
    decreases n
  {
    MembersFullMask(n);
    if a < Pow2(n) {
      forall i | i in Members(a) ensures i < n { HighBit(a, i, n); }
    } else if Members(a) <= Members(FullMask(n)) {
      SubmaskAtMost(a, FullMask(n));
      assert false;
    }
  }

  lemma {:induction false} HighBit(a: nat, i: nat, n: nat)
    requires a < Pow2(n) && Bit(a, i)
    ensures i < n
    decreases n
  {
    if n == 0 {
      ZeroHasNoBits(i);
    } else if i > 0 {
      HighBit(a / 2, i - 1, n - 1);
    }
  }

  lemma {:induction false} SizeAtMost(m: RelSet, n: nat)
    requires m < Pow2(n)
    ensures CountOnes(m) <= n
    decreases n
  {
    if n > 0 { SizeAtMost(m / 2, n - 1); }
  }

  lemma AllVisited(p: Problem, cross: bool)
    requires 0 < |p.rels|
    ensures PairsBefore(p, cross, |p.rels| + 1, 1) == AllPairs(p, cross)
  {
    forall q | q in AllPairs(p, cross) ensures Before(Or(q.0, q.1), |p.rels| + 1, 1) {
      OrBelow(q.0, q.1, |p.rels|);
      SizeAtMost(Or(q.0, q.1), |p.rels|);
    }
  }

  lemma NothingVisited(p: Problem, cross: bool)
    ensures PairsBefore(p, cross, 2, 1) == {}
  {
    forall q | q in AllPairs(p, cross) ensures !Before(Or(q.0, q.1), 2, 1) {
      SplitSmaller(Or(q.0, q.1), q.0, q.1);
      MembersOr(q.0, q.1);
      CountOnesIsSize(q.0);
      Nonzero(q.0);
    }
  }
}
