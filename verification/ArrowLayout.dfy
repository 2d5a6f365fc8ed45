/** The raw page block: planning, descriptors, opening and initialization. */
module ArrowLayout {
  import opened Common
  import Bits
  import opened Bytes

  datatype Result<T> = Ok(value: T) | Err(error: LayoutError)

  datatype LayoutError =
    | TooManyColumns | SizeOverflow | LayoutDoesNotFit(required: nat)
    | InvalidMagic | InvalidVersion | RowCountExceedsMaxRows | ColumnCountMismatch | FrontBaseMismatch
    | InvalidHeaderBounds | MisalignedFrontRegion | BlockSliceTooSmall | InvalidTypeTag | InconsistentViewFlag
    | ColumnDescMismatch | PoolBaseMismatch | InvalidViewOffsetEncoding | InvalidByteViewLength
    | NegativeByteViewLength | InvalidViewBufferIndex | NegativeViewOffset | ViewOffsetOutOfBounds

  const BLOCK_MAGIC: nat := 0x3242_4150
  const BLOCK_VERSION: nat := 1
  const ALIGNMENT: nat := 16
  const BIAS: nat := 12
  const HEADER_LEN: nat := 40
  const DESC_LEN: nat := 20
  const VIEW_LEN: nat := 16
  const INLINE_LEN: nat := 12

  // ---- Alignment ----------------------------------------------------------------

  /** `align_up_u32` for the one alignment in use, where the sum does not overflow. */
  function AlignUp(v: nat): (r: nat)
    ensures v <= r < v + ALIGNMENT && r % ALIGNMENT == 0
  {
    (v + ALIGNMENT - 1) / ALIGNMENT * ALIGNMENT
  }

  /** Clearing the low bits is what the code does. */
  lemma AlignUpIsMask(v: nat)
    ensures AlignUp(v) == Bits.AndNot(v + ALIGNMENT - 1, ALIGNMENT - 1)
  {
    assert Bits.Pow2(4) == 16 && Bits.FullMask(4) == 15;
    Bits.AndNotLowMask(v + 15, 4);
  }

  function CheckedAlignUp(v: nat): (r: Result<nat>)
    ensures v <= U32_MAX ==> (r.Ok? <==> AlignUp(v) <= U32_MAX)
    ensures r.Ok? ==> r.value == AlignUp(v)
  {
    if v + ALIGNMENT - 1 > U32_MAX then Err(SizeOverflow) else Ok(AlignUp(v))
  }

  /** `align_up_u32_with_bias` for alignment 16 and bias 12. */
  function AlignUpBiased(v: nat): (r: nat)
    ensures v <= r < v + ALIGNMENT && r % ALIGNMENT == BIAS
  {
    AlignUp(v + (ALIGNMENT - BIAS)) - (ALIGNMENT - BIAS)
  }

  // ---- Types ----------------------------------------------------------------------

  datatype TypeTag =
    | Boolean | Int16 | Int32 | Int64 | Float32 | Float64 | Uuid | Utf8View | BinaryView
    | Decimal128 | IntervalMonthDayNano | Date32 | Time64Microsecond | TimestampMicrosecond

  function ToRaw(tag: TypeTag): nat {
    match tag
    case Boolean => 1 case Int16 => 2 case Int32 => 3 case Int64 => 4 case Float32 => 5 case Float64 => 6
    case Uuid => 7 case Utf8View => 8 case BinaryView => 9 case Decimal128 => 10 case IntervalMonthDayNano => 11
    case Date32 => 12 case Time64Microsecond => 13 case TimestampMicrosecond => 14
  }

  function FromRaw(raw: nat): (tag: Option<TypeTag>)
    ensures tag.Some? <==> 1 <= raw <= 14
    ensures tag.Some? ==> ToRaw(tag.value) == raw
  {
    match raw
    case 1 => Some(Boolean) case 2 => Some(Int16) case 3 => Some(Int32) case 4 => Some(Int64)
    case 5 => Some(Float32) case 6 => Some(Float64) case 7 => Some(Uuid) case 8 => Some(Utf8View)
    case 9 => Some(BinaryView) case 10 => Some(Decimal128) case 11 => Some(IntervalMonthDayNano)
    case 12 => Some(Date32) case 13 => Some(Time64Microsecond) case 14 => Some(TimestampMicrosecond)
    case _ => None
  }

  predicate IsView(tag: TypeTag) { tag.Utf8View? || tag.BinaryView? }

  /** Bytes per row; booleans are packed instead. */
  function RowWidth(tag: TypeTag): (w: nat)
    ensures w in {0, 2, 4, 8, 16} && (w == 0 <==> tag.Boolean?) && (IsView(tag) ==> w == VIEW_LEN)
  {
    match tag
    case Boolean => 0
    case Int16 => 2
    case Int32 => 4 case Float32 => 4 case Date32 => 4
    case Int64 => 8 case Float64 => 8 case Time64Microsecond => 8 case TimestampMicrosecond => 8
    case _ => 16
  }

  function BitmapBytes(rows: nat): nat { (rows + 7) / 8 }

  /** Reserved bytes of a validity bitmap and of a values buffer for `rows` rows. */
  function ValidityLen(rows: nat): (r: nat)
    ensures r % ALIGNMENT == 0 && r >= BitmapBytes(rows)
  {
    AlignUp(BitmapBytes(rows))
  }

  function ValuesLen(tag: TypeTag, rows: nat): (r: nat)
    ensures r % ALIGNMENT == 0 && r >= (if tag.Boolean? then BitmapBytes(rows) else rows * RowWidth(tag))
  {
    AlignUp(if tag.Boolean? then BitmapBytes(rows) else rows * RowWidth(tag))
  }

  lemma ValidityFits(rows: nat)
    requires rows <= U32_MAX
    ensures ValidityLen(rows) <= U32_MAX
  {
  }

  /** `values_reserved_len` with its overflow checks. */
  function CheckedValuesLen(tag: TypeTag, rows: nat): (r: Result<nat>)
    requires rows <= U32_MAX
    ensures r.Ok? <==> ValuesLen(tag, rows) <= U32_MAX
    ensures r.Ok? ==> r.value == ValuesLen(tag, rows)
    ensures r.Err? ==> r.error == SizeOverflow
  {
    if tag.Boolean? then CheckedAlignUp(BitmapBytes(rows))
    else if rows * RowWidth(tag) > U32_MAX then Err(SizeOverflow)
    else CheckedAlignUp(rows * RowWidth(tag))
  }

  datatype ColumnSpec = ColumnSpec(tag: TypeTag, nullable: bool)

  const NULLABLE: nat := 1
  const VIEW: nat := 2

  function SpecFlags(spec: ColumnSpec): nat {
    (if spec.nullable then NULLABLE else 0) + (if IsView(spec.tag) then VIEW else 0)
  }

  predicate IsNullable(flags: nat) { flags % 2 == 1 }

  predicate HasViewFlag(flags: nat) { flags / 2 % 2 == 1 }

  // ---- Planning -------------------------------------------------------------------------

  datatype ColumnLayout = ColumnLayout(
    tag: TypeTag, flags: nat, validityOff: nat, valuesOff: nat, validityLen: nat, valuesLen: nat)

  datatype LayoutPlan = LayoutPlan(blockSize: nat, maxRows: nat, frontBase: nat, poolBase: nat,
                                   columns: seq<ColumnLayout>)

  function FrontBase(columns: nat): (r: nat)
    ensures r % ALIGNMENT == BIAS && r >= HEADER_LEN + DESC_LEN * columns
  {
    AlignUpBiased(HEADER_LEN + DESC_LEN * columns)
  }

  /** Where the buffers of column `i` begin; column `|specs|` stands for the shared tail. */
  function ColumnStart(specs: seq<ColumnSpec>, rows: nat, i: nat): (r: nat)
    requires i <= |specs|
  {
    if i == 0 then FrontBase(|specs|)
    else ColumnStart(specs, rows, i - 1) + ValidityLen(rows) + ValuesLen(specs[i - 1].tag, rows)
  }

  function PlannedColumn(specs: seq<ColumnSpec>, rows: nat, i: nat): ColumnLayout
    requires i < |specs|
  {
    var start := ColumnStart(specs, rows, i);
    ColumnLayout(specs[i].tag, SpecFlags(specs[i]), start, start + ValidityLen(rows), ValidityLen(rows),
                 ValuesLen(specs[i].tag, rows))
  }

  ghost predicate IsPlan(plan: LayoutPlan, specs: seq<ColumnSpec>) {
    && plan.frontBase == FrontBase(|specs|) && plan.poolBase == ColumnStart(specs, plan.maxRows, |specs|)
    && |specs| <= U16_MAX && plan.maxRows <= U32_MAX && plan.poolBase <= plan.blockSize <= U32_MAX
    && |plan.columns| == |specs|
    && forall i :: 0 <= i < |specs| ==> plan.columns[i] == PlannedColumn(specs, plan.maxRows, i)
  }

  lemma {:induction false} StartsGrow(specs: seq<ColumnSpec>, rows: nat, i: nat, j: nat)
    requires i <= j <= |specs|
    ensures ColumnStart(specs, rows, i) <= ColumnStart(specs, rows, j)
    decreases j - i
  {
    hide AlignUp, ValidityLen, ValuesLen, FrontBase;
    if i < j { StartsGrow(specs, rows, i, j - 1); }
  }

  /** `LayoutPlan::new`: exactly what fits is planned, and the error says why not. */
  method NewPlan(specs: seq<ColumnSpec>, maxRows: nat, blockSize: nat) returns (r: Result<LayoutPlan>)
    requires maxRows <= U32_MAX && blockSize <= U32_MAX
    ensures r.Ok? <==> |specs| <= U16_MAX && ColumnStart(specs, maxRows, |specs|) <= blockSize
    ensures r.Ok? ==> IsPlan(r.value, specs) && r.value.maxRows == maxRows && r.value.blockSize == blockSize
    ensures r == Err(TooManyColumns) <==> |specs| > U16_MAX
    ensures r == Err(SizeOverflow) <==> |specs| <= U16_MAX && ColumnStart(specs, maxRows, |specs|) > U32_MAX
    ensures r.Err? && r.error.LayoutDoesNotFit? ==> r.error.required == ColumnStart(specs, maxRows, |specs|)
    ensures r.Err? ==> r.error.TooManyColumns? || r.error.SizeOverflow? || r.error.LayoutDoesNotFit?
  {
    hide AlignUp, ValidityLen, ValuesLen;
    if |specs| > U16_MAX { return Err(TooManyColumns); }
    ValidityFits(maxRows);
    var frontBase := AlignUpBiased(HEADER_LEN + DESC_LEN * |specs|);
    var cursor := frontBase;
    var columns: seq<ColumnLayout> := [];
    for i := 0 to |specs|
      invariant cursor == ColumnStart(specs, maxRows, i) <= U32_MAX
      invariant |columns| == i && forall j :: 0 <= j < i ==> columns[j] == PlannedColumn(specs, maxRows, j)
    {
      StartsGrow(specs, maxRows, i + 1, |specs|);
      var validityLen := ValidityLen(maxRows);
      var valuesLen := CheckedValuesLen(specs[i].tag, maxRows);
      if valuesLen.Err? { return Err(valuesLen.error); }
      var validityOff := cursor;
      if cursor + validityLen > U32_MAX { return Err(SizeOverflow); }
      cursor := cursor + validityLen;
      var valuesOff := cursor;
      if cursor + valuesLen.value > U32_MAX { return Err(SizeOverflow); }
      cursor := cursor + valuesLen.value;
      columns := columns + [ColumnLayout(specs[i].tag, SpecFlags(specs[i]), validityOff, valuesOff, validityLen,
                                         valuesLen.value)];
    }
    if cursor > blockSize { return Err(LayoutDoesNotFit(cursor)); }
    r := Ok(LayoutPlan(blockSize, maxRows, frontBase, cursor, columns));
  }

  function RegionStart(c: ColumnLayout): nat { c.validityOff }

  function RegionEnd(c: ColumnLayout): nat { c.valuesOff + c.valuesLen }

  lemma FrontBaseAfterPrefix(columns: nat)
    ensures FrontBase(columns) >= HEADER_LEN + DESC_LEN * columns
  {
  }

  predicate Biased(v: nat) { v % ALIGNMENT == BIAS }

  predicate Aligned(v: nat) { v % ALIGNMENT == 0 }

  lemma BiasedSum(x: nat, y: nat)
    requires Biased(x) && Aligned(y)
    ensures Biased(x + y)
  {
  }

  lemma {:induction false} StartAligned(specs: seq<ColumnSpec>, rows: nat, i: nat)
    requires i <= |specs|
    ensures Biased(ColumnStart(specs, rows, i)) && ColumnStart(specs, rows, i) >= FrontBase(|specs|)
    ensures i < |specs| ==> Biased(ColumnStart(specs, rows, i) + ValidityLen(rows))
  {
    assert Biased(FrontBase(|specs|)) && Aligned(ValidityLen(rows))
           && (i > 0 ==> Aligned(ValuesLen(specs[i - 1].tag, rows)));
    hide AlignUp, AlignUpBiased, ValidityLen, ValuesLen, FrontBase, Biased, Aligned;
    if i > 0 {
      StartAligned(specs, rows, i - 1);
      BiasedSum(ColumnStart(specs, rows, i - 1), ValidityLen(rows));
      BiasedSum(ColumnStart(specs, rows, i - 1) + ValidityLen(rows), ValuesLen(specs[i - 1].tag, rows));
    }
    BiasedSum(ColumnStart(specs, rows, i), ValidityLen(rows));
  }

  lemma StartsAtFront(specs: seq<ColumnSpec>, rows: nat)
    ensures ColumnStart(specs, rows, 0) == FrontBase(|specs|)
  {
  }

  lemma StartStep(specs: seq<ColumnSpec>, rows: nat, i: nat)
    requires i < |specs|
    ensures ColumnStart(specs, rows, i + 1)
            == ColumnStart(specs, rows, i) + ValidityLen(rows) + ValuesLen(specs[i].tag, rows)
  {
  }

  /** The regions tile the front, each buffer sits at 12 modulo 16, and any two regions are disjoint. */
  lemma PlanTiles(plan: LayoutPlan, specs: seq<ColumnSpec>, i: nat, j: nat)
    requires IsPlan(plan, specs) && i < j <= |specs|
    ensures HEADER_LEN + DESC_LEN * |specs| <= plan.frontBase <= RegionStart(plan.columns[i])
    ensures RegionEnd(plan.columns[i]) <= if j < |specs| then RegionStart(plan.columns[j]) else plan.poolBase
    ensures j == i + 1 ==>
              RegionEnd(plan.columns[i]) == if j < |specs| then RegionStart(plan.columns[j]) else plan.poolBase
    ensures i == 0 ==> RegionStart(plan.columns[i]) == plan.frontBase
    ensures Biased(plan.columns[i].validityOff) && Biased(plan.columns[i].valuesOff) && Biased(plan.poolBase)
    ensures plan.columns[i].valuesOff == plan.columns[i].validityOff + plan.columns[i].validityLen
    ensures plan.poolBase <= plan.blockSize
  {
    hide AlignUp, ValidityLen, ValuesLen, FrontBase, Biased, ColumnStart;
    FrontBaseAfterPrefix(|specs|);
    StartsAtFront(specs, plan.maxRows);
    StartStep(specs, plan.maxRows, i);
    StartsGrow(specs, plan.maxRows, 0, i);
    StartsGrow(specs, plan.maxRows, i + 1, j);
    StartAligned(specs, plan.maxRows, i);
    StartAligned(specs, plan.maxRows, |specs|);
  }
}
