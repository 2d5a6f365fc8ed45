/** The adaptive rows-per-page estimator. */
module RowEstimator {
  import opened Common
  import Bits
  import opened Bytes
  import opened ArrowLayout
  import opened ArrowBlock

  datatype EstimateError =
    | NoPhysicalColumns | LayoutCannotFitAnyRows | Layout(error: LayoutError) | ObservationRowsExceedFixedCap
    | ObservationTailTooLarge | ObservationOverflow | BlockSizeMismatch | EstimateColumnCountMismatch | ColumnMismatch
    | EmptyFullBackoffRequiresVariableWidth | InvalidEmptyFullAttempt | SingleRowDoesNotFitPage | ArithmeticOverflow

  datatype Outcome<T> = Good(value: T) | Bad(error: EstimateError)

  // ---- Front and tail room as functions of the row count --------------------------------

  function PoolBase(specs: seq<ColumnSpec>, rows: nat): nat { ColumnStart(specs, rows, |specs|) }

  /** A plan for this many rows exists. */
  ghost predicate PlanFits(specs: seq<ColumnSpec>, blockSize: nat, rows: nat) {
    |specs| <= U16_MAX && PoolBase(specs, rows) <= blockSize
  }

  lemma AlignMonotone(a: nat, b: nat)
    requires a <= b
    ensures AlignUp(a) <= AlignUp(b)
  {
  }

  lemma LensMonotone(tag: TypeTag, a: nat, b: nat)
    requires a <= b
    ensures ValidityLen(a) <= ValidityLen(b) && ValuesLen(tag, a) <= ValuesLen(tag, b)
  {
    var w := RowWidth(tag);
    if a < b { Bits.MulApart(w, a, b); }
    assert a * w <= b * w;
    hide RowWidth;
    AlignMonotone(BitmapBytes(a), BitmapBytes(b));
    AlignMonotone(a * w, b * w);
    hide AlignUp;
  }

  /** More rows never start the tail earlier. */
  lemma {:induction false} StartMonotone(specs: seq<ColumnSpec>, a: nat, b: nat, i: nat)
    requires a <= b && i <= |specs|
    ensures ColumnStart(specs, a, i) <= ColumnStart(specs, b, i)
  {
    hide ValidityLen, ValuesLen, FrontBase;
    if i > 0 {
      StartMonotone(specs, a, b, i - 1);
      LensMonotone(specs[i - 1].tag, a, b);
    }
  }

  /** A block of one column or more holds at most eight rows per byte. */
  lemma RowsBounded(specs: seq<ColumnSpec>, blockSize: nat, rows: nat)
    requires specs != [] && PlanFits(specs, blockSize, rows)
    ensures rows <= 8 * blockSize
  {
    StartsGrow(specs, rows, 1, |specs|);
    hide ValuesLen;
  }

  // ---- The fixed row cap ----------------------------------------------------------------------

  /** `cap` is the greatest row count whose plan fits. */
  ghost predicate IsFixedCap(specs: seq<ColumnSpec>, blockSize: nat, cap: nat) {
    PlanFits(specs, blockSize, cap) && forall rows: nat :: rows > cap ==> !PlanFits(specs, blockSize, rows)
  }

  /** Four rows a byte never fit: validity and values take a bit each. */
  lemma HalfwayNeverFits(specs: seq<ColumnSpec>, blockSize: nat)
    requires specs != []
    ensures !PlanFits(specs, blockSize, 4 * blockSize)
  {
    var rows := 4 * blockSize;
    StartsGrow(specs, rows, 1, |specs|);
    assert ColumnStart(specs, rows, 1) == FrontBase(|specs|) + ValidityLen(rows) + ValuesLen(specs[0].tag, rows);
    ValuesTakeABit(specs[0].tag, rows);
    hide ValidityLen, ValuesLen;
  }

  lemma ValuesTakeABit(tag: TypeTag, rows: nat)
    ensures ValidityLen(rows) * 8 >= rows && ValuesLen(tag, rows) * 8 >= rows
  {
    if !tag.Boolean? { MulMonotone(1, RowWidth(tag), rows); }
  }

  /** An empty plan fits before the block's size is of any concern. */
  lemma {:induction false} EmptyStart(specs: seq<ColumnSpec>, i: nat)
    requires i <= |specs|
    ensures ColumnStart(specs, 0, i) == FrontBase(|specs|)
  {
    hide FrontBase;
    if i > 0 { EmptyStart(specs, i - 1); }
  }

  /** What `compute_fixed_row_cap` needs of a shape: the probe at four rows a byte must be computable. */
  ghost predicate CapComputable(specs: seq<ColumnSpec>, blockSize: nat) {
    && PlanFits(specs, blockSize, 0) && blockSize * 8 <= U32_MAX
    && PoolBase(specs, 4 * blockSize) <= U32_MAX
  }

  /**
   * `compute_fixed_row_cap`: binary search up to eight rows per byte. The first probe, at four rows per byte, never
   * fits; it either overflows 32 bits and ends the search, or no later probe can.
   */
  method ComputeFixedRowCap(specs: seq<ColumnSpec>, blockSize: nat) returns (r: Outcome<nat>)
    requires specs != [] && blockSize <= U32_MAX
    ensures r.Good? <==> CapComputable(specs, blockSize)
    ensures r.Good? ==> IsFixedCap(specs, blockSize, r.value) && r.value <= 8 * blockSize <= U32_MAX
    ensures !PlanFits(specs, blockSize, 0) ==>
              r == Bad(Layout(if |specs| > U16_MAX then TooManyColumns else LayoutDoesNotFit(FrontBase(|specs|))))
    ensures r == Bad(ArithmeticOverflow) <==> PlanFits(specs, blockSize, 0) && blockSize * 8 > U32_MAX
    ensures r == Bad(Layout(SizeOverflow)) <==>
              PlanFits(specs, blockSize, 0) && blockSize * 8 <= U32_MAX && PoolBase(specs, 4 * blockSize) > U32_MAX
  {
    hide FrontBase, ColumnStart;
    EmptyStart(specs, |specs|);
    var empty := NewPlan(specs, 0, blockSize);
    if empty.Err? {
      FrontBaseBounded(|specs|);
      return Bad(Layout(empty.error));
    }
    if blockSize * 8 > U32_MAX { return Bad(ArithmeticOverflow); }
    var low, high := 0, blockSize * 8;
    forall rows: nat | rows > high ensures !PlanFits(specs, blockSize, rows) {
      if PlanFits(specs, blockSize, rows) { RowsBounded(specs, blockSize, rows); }
    }
    HalfwayNeverFits(specs, blockSize);
    while low < high
      invariant 0 <= low <= high <= blockSize * 8 && (low == 0 || high < 4 * blockSize)
      invariant high == blockSize * 8 || (high < 4 * blockSize && PoolBase(specs, 4 * blockSize) <= U32_MAX)
      invariant PlanFits(specs, blockSize, low)
      invariant forall rows: nat :: rows > high ==> !PlanFits(specs, blockSize, rows)
    {
      var mid := low + (high - low + 1) / 2;
      StartMonotone(specs, mid, 4 * blockSize, |specs|);
      var plan := NewPlan(specs, mid, blockSize);
      if plan.Ok? {
        low := mid;
      } else if plan.error.LayoutDoesNotFit? {
        forall rows: nat | rows > mid - 1 ensures !PlanFits(specs, blockSize, rows) {
          StartMonotone(specs, mid, rows, |specs|);
        }
        high := mid - 1;
      } else {
        return Bad(Layout(plan.error));
      }
    }
    r := Good(low);
  }

  lemma FrontBaseBounded(columns: nat)
    ensures columns <= U16_MAX ==> FrontBase(columns) <= U32_MAX
  {
  }

  const SIXTY_FOUR_MIB: nat := 0x400_0000

  /** A 64 MiB block of one string column has room for rows, yet its fixed cap is refused. */
  lemma FittingShapeRefused()
    ensures PlanFits([ColumnSpec(Utf8View, false)], SIXTY_FOUR_MIB, 1)
    ensures !CapComputable([ColumnSpec(Utf8View, false)], SIXTY_FOUR_MIB) && SIXTY_FOUR_MIB * 8 <= U32_MAX
  {
    var specs := [ColumnSpec(Utf8View, false)];
    assert FrontBase(1) == 60;
    assert ColumnStart(specs, 1, 1) == FrontBase(1) + ValidityLen(1) + ValuesLen(Utf8View, 1);
    var rows := 4 * SIXTY_FOUR_MIB;
    assert ColumnStart(specs, rows, 1) == FrontBase(1) + ValidityLen(rows) + ValuesLen(Utf8View, rows);
  }

  // ---- The expected tail --------------------------------------------------------------------------

  function CeilDiv(n: nat, d: nat): nat
    requires d > 0
  {
    (n + d - 1) / d
  }

  /** Rounding up stays within `k` exactly when the product does. */
  lemma CeilDivAtMost(n: nat, d: nat, k: nat)
    requires d > 0
    ensures CeilDiv(n, d) <= k <==> n <= k * d
  {
    var q, m := CeilDiv(n, d), n + d - 1;
    assert m == d * q + m % d;
    assert d * q <= m < d * q + d;
    if q <= k {
      MulMonotone(q, k, d);
    } else {
      MulMonotone(k + 1, q, d);
    }
  }

  lemma MulMonotone(a: nat, b: nat, d: nat)
    requires a <= b
    ensures a * d <= b * d && d * a <= d * b
  {
    if a < b { Bits.MulApart(d, a, b); }
  }

  /** The expected tail of `rows` rows, at `num / den` bytes a row, fits beside their front. */
  ghost predicate TailFits(specs: seq<ColumnSpec>, blockSize: nat, num: nat, den: nat, rows: nat)
    requires den > 0
  {
    PoolBase(specs, rows) <= blockSize && CeilDiv(rows * num, den) <= blockSize - PoolBase(specs, rows)
  }

  /** Fewer rows need less tail and leave more room, so fitting carries over. */
  lemma TailFitsBelow(specs: seq<ColumnSpec>, blockSize: nat, num: nat, den: nat, a: nat, b: nat)
    requires den > 0 && a <= b && TailFits(specs, blockSize, num, den, b)
    ensures TailFits(specs, blockSize, num, den, a)
  {
    hide CeilDiv, ColumnStart;
    StartMonotone(specs, a, b, |specs|);
    var roomA, roomB := blockSize - PoolBase(specs, a), blockSize - PoolBase(specs, b);
    CeilDivAtMost(b * num, den, roomB);
    CeilDivAtMost(a * num, den, roomA);
    MulMonotone(a, b, num);
    MulMonotone(roomB, roomA, den);
  }

  function ExpectedTail(rows: nat, ratio: (nat, nat)): nat
    requires ratio.1 > 0
  {
    CeilDiv(rows * ratio.0, ratio.1)
  }

  /** `low` is the greatest row count within `cap` whose expected tail fits. */
  ghost predicate IsEstimate(specs: seq<ColumnSpec>, blockSize: nat, num: nat, den: nat, cap: nat, low: nat)
    requires den > 0
  {
    && low <= cap && TailFits(specs, blockSize, num, den, low)
    && forall rows: nat :: low < rows <= cap ==> !TailFits(specs, blockSize, num, den, rows)
  }

  method CheckedCeilDiv(n: nat, d: nat) returns (r: Outcome<nat>)
    ensures r.Good? ==> d > 0 && r.value == CeilDiv(n, d)
    ensures r.Bad? <==> d == 0 || n + d - 1 > U64_MAX
    ensures r.Bad? ==> r.error == ArithmeticOverflow
  {
    if d == 0 || n + d - 1 > U64_MAX { return Bad(ArithmeticOverflow); }
    r := Good(CeilDiv(n, d));
  }

  datatype Estimate = Estimate(rowsPerPage: nat, fixedRowCap: nat, tailBytesPerRow: nat, expectedTailBytes: nat)

  // ---- When the estimate overflows --------------------------------------------------------------------

  function Halfway(low: nat, high: nat): (mid: nat)
    requires low < high
    ensures low < mid <= high
  {
    low + (high - low + 1) / 2
  }

  /** A binary search for `best` between `low` and `high` looks at `m`. */
  ghost predicate Visits(low: nat, high: nat, best: nat, m: nat)
    decreases high - low
  {
    low < high &&
    var mid := Halfway(low, high);
    m == mid || (if mid <= best then Visits(mid, high, best, m) else Visits(low, mid - 1, best, m))
  }

  /** The rounded quotient for `m` rows does not fit 64-bit arithmetic. */
  ghost predicate Over(num: nat, den: nat, m: nat) { m * num + den - 1 > U64_MAX }

  ghost predicate SearchOverflows(num: nat, den: nat, cap: nat, best: nat) {
    exists m :: Visits(0, cap, best, m) && Over(num, den, m)
  }

  lemma {:induction false} VisitsWithin(low: nat, high: nat, best: nat, m: nat)
    requires Visits(low, high, best, m)
    ensures low < m <= high
    decreases high - low
  {
    var mid := Halfway(low, high);
    if m != mid {
      if mid <= best { VisitsWithin(mid, high, best, m); } else { VisitsWithin(low, mid - 1, best, m); }
    }
  }

  lemma OverMonotone(num: nat, den: nat, a: nat, b: nat)
    requires a <= b && Over(num, den, a)
    ensures Over(num, den, b)
  {
    MulMonotone(a, b, num);
  }

  /** Bounds a caller can check: nothing overflows if the cap itself does not, and it fails if half the cap does. */
  lemma OverflowBounds(num: nat, den: nat, cap: nat, best: nat)
    requires cap > 0
    ensures !Over(num, den, cap) ==> !SearchOverflows(num, den, cap, best)
    ensures Over(num, den, (cap + 1) / 2) ==> SearchOverflows(num, den, cap, best)
  {
    hide Over;
    if m :| Visits(0, cap, best, m) && Over(num, den, m) {
      VisitsWithin(0, cap, best, m);
      OverMonotone(num, den, m, cap);
    }
    assert Visits(0, cap, best, Halfway(0, cap));
  }

  /** With 32-bit factors, as before the first observation, nothing overflows. */
  lemma SmallNeverOver(num: nat, m: nat)
    requires num <= U32_MAX && m <= U32_MAX
    ensures !Over(num, 1, m)
  {
    MulMonotone(m, U32_MAX, num);
    MulMonotone(num, U32_MAX, U32_MAX);
  }

  lemma {:induction false} BestExists(specs: seq<ColumnSpec>, blockSize: nat, num: nat, den: nat, cap: nat)
      returns (best: nat)
    requires den > 0 && TailFits(specs, blockSize, num, den, 0)
    ensures IsEstimate(specs, blockSize, num, den, cap, best)
  {
    hide TailFits;
    if TailFits(specs, blockSize, num, den, cap) {
      best := cap;
    } else {
      best := BestExists(specs, blockSize, num, den, cap - 1);
    }
  }

  /** The greatest row count within `cap` whose expected tail fits, as a function. */
  ghost function BestRows(specs: seq<ColumnSpec>, blockSize: nat, ratio: (nat, nat), cap: nat): nat
    requires ratio.1 > 0
  {
    if cap == 0 || TailFits(specs, blockSize, ratio.0, ratio.1, cap) then cap
    else BestRows(specs, blockSize, ratio, cap - 1)
  }

  lemma {:induction false} BestIsUnique(specs: seq<ColumnSpec>, blockSize: nat, ratio: (nat, nat), cap: nat, best: nat)
    requires ratio.1 > 0 && IsEstimate(specs, blockSize, ratio.0, ratio.1, cap, best)
    ensures best == BestRows(specs, blockSize, ratio, cap)
  {
    hide TailFits;
    if best < cap { BestIsUnique(specs, blockSize, ratio, cap - 1, best); }
  }

  lemma FitsUpToBest(specs: seq<ColumnSpec>, blockSize: nat, num: nat, den: nat, cap: nat, best: nat, rows: nat)
    requires den > 0 && IsEstimate(specs, blockSize, num, den, cap, best) && rows <= cap
    ensures TailFits(specs, blockSize, num, den, rows) <==> rows <= best
  {
    hide TailFits;
    if rows <= best { TailFitsBelow(specs, blockSize, num, den, rows, best); }
  }

  class Estimator {
    const specs: seq<ColumnSpec>
    const blockSize: nat
    const fixedRowCap: nat
    const hasVariableWidth: bool
    const initialTail: nat
    var observedRows: nat
    var observedTail: nat
    var backoff: Option<nat>

    ghost predicate Valid()
      reads this
    {
      && specs != [] && blockSize <= U32_MAX && 0 < fixedRowCap <= U32_MAX && IsFixedCap(specs, blockSize, fixedRowCap)
      && (hasVariableWidth <==> exists s :: s in specs && IsView(s.tag))
      && initialTail <= U32_MAX && observedRows <= U64_MAX && observedTail <= U64_MAX
      && observedTail <= observedRows * blockSize
      && (backoff.Some? ==> 0 < backoff.value <= fixedRowCap)
    }

    /** The cap the next estimate starts from. */
    function Cap(): nat
      reads this
    {
      if backoff.Some? then backoff.value else fixedRowCap
    }

    function Ratio(): (r: (nat, nat))
      reads this
      ensures r.1 > 0
    {
      if observedRows == 0 then (initialTail, 1) else (observedTail, observedRows)
    }

    /** `PageRowEstimator::new`, once the fixed cap is known. */
    constructor (specs: seq<ColumnSpec>, blockSize: nat, cap: nat, initialTail: nat)
      requires specs != [] && blockSize <= U32_MAX && 0 < cap <= U32_MAX && IsFixedCap(specs, blockSize, cap)
               && initialTail <= U32_MAX
      ensures Valid() && this.specs == specs && this.blockSize == blockSize && fixedRowCap == cap && backoff == None
              && observedRows == 0 && this.initialTail == initialTail
    {
      this.specs, this.blockSize, this.fixedRowCap, this.initialTail := specs, blockSize, cap, initialTail;
      observedRows, observedTail, backoff := 0, 0, None;
      var found := false;
      for i := 0 to |specs|
        invariant found <==> exists j :: 0 <= j < i && IsView(specs[j].tag)
      {
        if IsView(specs[i].tag) { found := true; }
      }
      hasVariableWidth := found;
    }

    /** The search for the best row count meets a product beyond 64 bits. */
    ghost predicate Stuck()
      reads this
    {
      && hasVariableWidth && observedRows > 0
      && exists best :: IsEstimate(specs, blockSize, Ratio().0, Ratio().1, Cap(), best)
                        && SearchOverflows(Ratio().0, Ratio().1, Cap(), best)
    }

    /** No more than a block of tail was ever seen per row. */
    lemma RatioBounded()
      requires Valid()
      ensures CeilDiv(Ratio().0, Ratio().1) <= U32_MAX
    {
      MulMonotone(blockSize, U32_MAX, observedRows);
      CeilDivAtMost(Ratio().0, Ratio().1, U32_MAX);
    }

    /** `estimate`: the greatest row count within the cap whose expected tail fits, or one. */
    method EstimateRows() returns (r: Outcome<Estimate>, ghost best: nat)
      requires Valid()
      ensures hasVariableWidth ==> IsEstimate(specs, blockSize, Ratio().0, Ratio().1, Cap(), best)
      ensures hasVariableWidth ==>
                if observedRows == 0 then IsEstimate(specs, blockSize, initialTail, 1, Cap(), best)
                else IsEstimate(specs, blockSize, observedTail, observedRows, Cap(), best)
      ensures r.Bad? <==> hasVariableWidth && SearchOverflows(Ratio().0, Ratio().1, Cap(), best)
      ensures r.Bad? ==> r.error == ArithmeticOverflow && Over(Ratio().0, Ratio().1, Cap()) && observedRows > 0
      ensures r.Bad? ==> Stuck()
      ensures r.Good? ==> 1 <= r.value.rowsPerPage <= Cap() <= fixedRowCap || !hasVariableWidth
      ensures r.Good? && !hasVariableWidth ==> r.value.rowsPerPage == fixedRowCap && r.value.expectedTailBytes == 0
      ensures r.Good? && hasVariableWidth ==> r.value.rowsPerPage == if best == 0 then 1 else best
      ensures r.Good? && hasVariableWidth ==> r.value.expectedTailBytes == ExpectedTail(r.value.rowsPerPage, Ratio())
      ensures r.Good? ==> r.value.fixedRowCap == fixedRowCap
      ensures r.Good? ==>
                r.value.tailBytesPerRow
                == if !hasVariableWidth then 0
                   else if Ratio().0 + Ratio().1 - 1 > U64_MAX then U32_MAX
                   else CeilDiv(Ratio().0, Ratio().1)
    {
      hide CeilDiv, TailFits, ColumnStart, IsFixedCap, Over;
      best := 0;
      if !hasVariableWidth { return Good(Estimate(fixedRowCap, fixedRowCap, 0, 0)), 0; }
      var (num, den) := Ratio();
      NoRowsFit(specs, blockSize, num, den, fixedRowCap);
      best := BestExists(specs, blockSize, num, den, Cap());
      OverflowBounds(num, den, Cap(), best);
      if observedRows == 0 { SmallNeverOver(num, Cap()); }
      var found := Search(num, den, best);
      if found.Bad? { return Bad(found.error), best; }
      var rowsPerPage := if found.value == 0 then 1 else found.value;
      var expected := Tail(rowsPerPage, num, den);
      assert expected.Good?;
      LastFits(num, den, best, rowsPerPage);
      assert expected.value <= U32_MAX;
      var perRow := CheckedCeilDiv(num, den);
      RatioBounded();
      var shown := if perRow.Good? && perRow.value <= U32_MAX then perRow.value else U32_MAX;
      r := Good(Estimate(rowsPerPage, fixedRowCap, shown, expected.value));
    }

    /** The binary search of `estimate`. */
    method Search(num: nat, den: nat, ghost best: nat) returns (r: Outcome<nat>)
      requires Valid() && den > 0 && IsEstimate(specs, blockSize, num, den, Cap(), best)
      ensures r == if SearchOverflows(num, den, Cap(), best) then Bad(ArithmeticOverflow) else Good(best)
      ensures r.Good? ==> !Over(num, den, if best == 0 then 1 else best)
    {
      hide CeilDiv, IsEstimate, ColumnStart, IsFixedCap, Over;
      var low: nat, high: nat := 0, Cap();
      BestWithin(num, den, best);
      while low < high
        invariant 0 <= low <= best <= high <= Cap()
        invariant low > 0 ==> !Over(num, den, low)
        invariant high < Cap() ==> !Over(num, den, high + 1)
        invariant forall m :: Visits(low, high, best, m) ==> Visits(0, Cap(), best, m)
        invariant forall m :: Visits(0, Cap(), best, m) ==> Visits(low, high, best, m) || !Over(num, den, m)
      {
        var mid := Halfway(low, high);
        assert Visits(low, high, best, mid);
        var expected := Probe(mid, num, den, best);
        if expected.Bad? { return Bad(expected.error); }
        if expected.value { low := mid; } else { high := mid - 1; }
      }
      r := Good(low);
    }

    lemma BestWithin(num: nat, den: nat, best: nat)
      requires den > 0 && IsEstimate(specs, blockSize, num, den, Cap(), best)
      ensures best <= Cap()
    {
    }

    /** The expected tail of `rows` rows, with the checks of 64-bit arithmetic. */
    method Tail(rows: nat, num: nat, den: nat) returns (r: Outcome<nat>)
      requires den > 0
      ensures r.Bad? <==> Over(num, den, rows)
      ensures r == if Over(num, den, rows) then Bad(ArithmeticOverflow) else Good(ExpectedTail(rows, (num, den)))
    {
      if rows * num > U64_MAX { return Bad(ArithmeticOverflow); }
      r := CheckedCeilDiv(rows * num, den);
    }

    /** One probe of the search: whether the expected tail of `mid` rows fits beside their front. */
    method Probe(mid: nat, num: nat, den: nat, ghost best: nat) returns (r: Outcome<bool>)
      requires Valid() && den > 0 && 0 < mid <= Cap() && IsEstimate(specs, blockSize, num, den, Cap(), best)
      ensures r == if Over(num, den, mid) then Bad(ArithmeticOverflow) else Good(mid <= best)
    {
      hide CeilDiv, TailFits, ColumnStart, IsFixedCap, Over;
      PlanBelowCap(specs, blockSize, fixedRowCap, mid);
      var plan := NewPlan(specs, mid, blockSize);
      assert plan.Ok?;
      var expected := Tail(mid, num, den);
      if expected.Bad? { return Bad(expected.error); }
      FitsIf(specs, blockSize, num, den, mid);
      FitsUpToBest(specs, blockSize, num, den, Cap(), best, mid);
      r := Good(expected.value <= plan.value.blockSize - plan.value.poolBase);
    }

    lemma LastFits(num: nat, den: nat, best: nat, rows: nat)
      requires Valid() && (num, den) == Ratio() && IsEstimate(specs, blockSize, num, den, Cap(), best)
      requires rows == if best == 0 then 1 else best
      ensures ExpectedTail(rows, (num, den)) <= U32_MAX
    {
      RatioBounded();
      hide CeilDiv, ColumnStart, IsFixedCap;
    }

    /** `observe_empty_full_page`: the cap at least halves, so the attempted row count strictly falls. */
    method ObserveEmptyFullPage(attempted: nat) returns (r: Outcome<()>)
      requires Valid()
      modifies this`backoff
      ensures Valid()
      ensures r.Good? <==> hasVariableWidth && 1 < attempted <= fixedRowCap
      ensures r.Good? ==> Cap() <= (attempted + 1) / 2 < attempted && Cap() <= old(Cap())
      ensures r.Good? ==> Cap() == (attempted + 1) / 2 || (Cap() == old(Cap()) && old(backoff).Some?)
      ensures r.Good? && attempted <= old(Cap()) ==> Cap() == (attempted + 1) / 2
      ensures r.Bad? ==> backoff == old(backoff)
      ensures r == Bad(SingleRowDoesNotFitPage) <==> hasVariableWidth && attempted == 1
      ensures r == Bad(EmptyFullBackoffRequiresVariableWidth) <==> !hasVariableWidth
      ensures r == Bad(InvalidEmptyFullAttempt) <==> hasVariableWidth && !(1 <= attempted <= fixedRowCap)
    {
      if !hasVariableWidth { return Bad(EmptyFullBackoffRequiresVariableWidth); }
      if attempted == 0 || attempted > fixedRowCap { return Bad(InvalidEmptyFullAttempt); }
      if attempted == 1 { return Bad(SingleRowDoesNotFitPage); }
      var next := (attempted + 1) / 2;
      backoff := Some(if backoff.Some? && backoff.value < next then backoff.value else next);
      r := Good(());
    }

    /** `observe_page`: accumulates a page and lifts the backoff. */
    method ObservePage(rowCount: nat, tailUsed: nat) returns (r: Outcome<()>)
      requires Valid() && rowCount <= U32_MAX && tailUsed <= U32_MAX
      modifies this`observedRows, this`observedTail, this`backoff
      ensures Valid()
      ensures rowCount == 0 || !hasVariableWidth ==>
                r.Good? && observedRows == old(observedRows) && observedTail == old(observedTail)
                    && backoff == old(backoff)
      ensures rowCount > 0 && hasVariableWidth ==>
                (r == Bad(ObservationRowsExceedFixedCap) <==> rowCount > fixedRowCap)
                && (r == Bad(ObservationTailTooLarge) <==>
                      rowCount <= fixedRowCap && PoolBase(specs, rowCount) + tailUsed > blockSize)
                && (r == Bad(ObservationOverflow) <==>
                      && rowCount <= fixedRowCap && PoolBase(specs, rowCount) + tailUsed <= blockSize
                      && (old(observedRows) + rowCount > U64_MAX || old(observedTail) + tailUsed > U64_MAX))
                && (r.Bad? ==>
                      r.error.ObservationRowsExceedFixedCap? || r.error.ObservationTailTooLarge?
                          || r.error.ObservationOverflow?)
                && (r.Good? ==>
                      observedRows == old(observedRows) + rowCount && observedTail == old(observedTail) + tailUsed
                          && backoff == None)
      ensures r.Bad? ==> observedTail == old(observedTail) && backoff == old(backoff)
      ensures r.Bad? ==>
                observedRows == old(observedRows)
                || (r.error == ObservationOverflow && observedRows == old(observedRows) + rowCount <= U64_MAX)
    {
      if rowCount == 0 || !hasVariableWidth { return Good(()); }
      if rowCount > fixedRowCap { return Bad(ObservationRowsExceedFixedCap); }
      PlanBelowCap(specs, blockSize, fixedRowCap, rowCount);
      hide ColumnStart;
      var plan := NewPlan(specs, rowCount, blockSize);
      assert plan.Ok?;
      if tailUsed > plan.value.blockSize - plan.value.poolBase { return Bad(ObservationTailTooLarge); }
      TailStaysBounded(observedTail, observedRows, tailUsed, rowCount, blockSize);
      if observedRows + rowCount > U64_MAX { return Bad(ObservationOverflow); }
      observedRows := observedRows + rowCount;
      if observedTail + tailUsed > U64_MAX { return Bad(ObservationOverflow); }
      observedTail := observedTail + tailUsed;
      backoff := None;
      r := Good(());
    }

    /** A block this full no longer fits the 64-bit counters. */
    static ghost predicate Overflowed(rows: nat, tail: nat, h: BlockHeader) {
      rows + h.rowCount > U64_MAX || tail + (h.blockSize - h.tailCursor) > U64_MAX
    }

    /** `observe_encoded_block`: a block of the right shape is never turned down for its row count or its tail. */
    method ObserveEncodedBlock(block: seq<byte>) returns (r: Outcome<()>)
      requires Valid()
      modifies this`observedRows, this`observedTail, this`backoff
      ensures Valid()
      ensures r.Good? || r == Bad(ObservationOverflow) <==>
                Opens(block) && LaidOut(block, HeaderAt(block), specs) && HeaderAt(block).blockSize == blockSize
      ensures r == Bad(ObservationOverflow) <==>
                && Opens(block) && LaidOut(block, HeaderAt(block), specs) && HeaderAt(block).blockSize == blockSize
                && hasVariableWidth && HeaderAt(block).rowCount > 0
                && Overflowed(old(observedRows), old(observedTail), HeaderAt(block))
      ensures r.Good? && hasVariableWidth && HeaderAt(block).rowCount > 0 ==>
                && observedRows == old(observedRows) + HeaderAt(block).rowCount && backoff == None
                && observedTail == old(observedTail) + HeaderAt(block).blockSize - HeaderAt(block).tailCursor
      ensures r != Bad(ObservationRowsExceedFixedCap) && r != Bad(ObservationTailTooLarge)
      ensures !Opens(block) <==> r.Bad? && r.error.Layout?
      ensures Opens(block) ==>
                var h := HeaderAt(block);
                && (r == Bad(BlockSizeMismatch) <==> h.blockSize != blockSize)
                && (r == Bad(EstimateColumnCountMismatch) <==> h.blockSize == blockSize && h.colCount != |specs|)
                && (r == Bad(ColumnMismatch) <==>
                      h.blockSize == blockSize && h.colCount == |specs| && !LaidOut(block, h, specs))
      ensures r.Bad? || !hasVariableWidth || HeaderAt(block).rowCount == 0 ==>
                observedTail == old(observedTail) && backoff == old(backoff)
                && (r != Bad(ObservationOverflow) ==> observedRows == old(observedRows))
    {
      hide ColumnStart, DescPlanned, DecodeHeader, IsFixedCap, LaidOut, DescAt, PoolBase;
      var reopened := Open(block);
      if reopened.Err? { return Bad(Layout(reopened.error)); }
      var h := reopened.value;
      ghost var found :| LaidOut(block, h, found);
      LaidOutFacts(block, h, found);
      HeaderBounded(block);
      if h.blockSize != blockSize { return Bad(BlockSizeMismatch); }
      if h.colCount != |specs| {
        CountDiffers(block, h, specs);
        return Bad(EstimateColumnCountMismatch);
      }
      for i := 0 to |specs|
        invariant forall j :: 0 <= j < i ==> found[j] == specs[j]
        invariant observedRows == old(observedRows) && observedTail == old(observedTail) && backoff == old(backoff)
      {
        SpecsRecovered(block, h, found, i);
        var d := DescAt(block, i);
        hide FromRaw;
        var tag := FromRaw(d.tag);
        if tag != Some(specs[i].tag) || IsNullable(d.flags) != specs[i].nullable {
          ShapeDiffers(block, h, specs, i);
          return Bad(ColumnMismatch);
        }
      }
      assert found == specs;
      BlockWithinCap(block, h, specs, fixedRowCap);
      r := ObservePage(h.rowCount, h.blockSize - h.tailCursor);
    }
  }

  /** A page adds at most a block of tail and at least one row. */
  lemma TailStaysBounded(tail: nat, rows: nat, tailUsed: nat, rowCount: nat, blockSize: nat)
    requires tail <= rows * blockSize && tailUsed <= blockSize && rowCount > 0
    ensures tail + tailUsed <= (rows + rowCount) * blockSize && tail <= (rows + rowCount) * blockSize
  {
    MulMonotone(rows + 1, rows + rowCount, blockSize);
    assert (rows + 1) * blockSize == rows * blockSize + blockSize;
  }

  lemma LaidOutFacts(block: seq<byte>, h: BlockHeader, specs: seq<ColumnSpec>)
    requires LaidOut(block, h, specs)
    ensures h.colCount == |specs| && h.tailCursor <= h.blockSize && |block| >= DescOffset(|specs|)
            && h.rowCount <= h.maxRows
  {
  }

  lemma HeaderBounded(block: seq<byte>)
    requires |block| >= HEADER_LEN
    ensures HeaderFits(HeaderAt(block))
  {
    DecodedFits(block[..HEADER_LEN]);
  }

  lemma CountDiffers(block: seq<byte>, h: BlockHeader, specs: seq<ColumnSpec>)
    requires h.colCount != |specs|
    ensures !LaidOut(block, h, specs)
  {
  }

  lemma ShapeDiffers(block: seq<byte>, h: BlockHeader, specs: seq<ColumnSpec>, i: nat)
    requires i < |specs| && |block| >= DescOffset(|specs|)
    requires FromRaw(DescAt(block, i).tag) != Some(specs[i].tag)
             || IsNullable(DescAt(block, i).flags) != specs[i].nullable
    ensures !LaidOut(block, h, specs)
  {
    if LaidOut(block, h, specs) { SpecsRecovered(block, h, specs, i); }
  }

  /** A laid-out block fits its own plan, so its rows and its tail are within what the estimator allows. */
  lemma BlockWithinCap(block: seq<byte>, h: BlockHeader, specs: seq<ColumnSpec>, cap: nat)
    requires LaidOut(block, h, specs) && IsFixedCap(specs, h.blockSize, cap)
    ensures h.rowCount <= cap && PoolBase(specs, h.rowCount) + (h.blockSize - h.tailCursor) <= h.blockSize
  {
    hide ColumnStart, DescPlanned;
    assert PlanFits(specs, h.blockSize, h.maxRows);
    StartMonotone(specs, h.rowCount, h.maxRows, |specs|);
  }

  lemma PlanBelowCap(specs: seq<ColumnSpec>, blockSize: nat, cap: nat, rows: nat)
    requires IsFixedCap(specs, blockSize, cap) && rows <= cap
    ensures PlanFits(specs, blockSize, rows)
  {
    StartMonotone(specs, rows, cap, |specs|);
  }

  lemma NoRowsFit(specs: seq<ColumnSpec>, blockSize: nat, num: nat, den: nat, cap: nat)
    requires den > 0 && IsFixedCap(specs, blockSize, cap)
    ensures TailFits(specs, blockSize, num, den, 0)
  {
    PlanBelowCap(specs, blockSize, cap, 0);
    hide ColumnStart;
    CeilDivAtMost(0, den, 0);
  }

  lemma FitsIf(specs: seq<ColumnSpec>, blockSize: nat, num: nat, den: nat, rows: nat)
    requires den > 0 && PoolBase(specs, rows) <= blockSize
    ensures TailFits(specs, blockSize, num, den, rows) <==>
              CeilDiv(rows * num, den) <= blockSize - PoolBase(specs, rows)
  {
  }
}
