/** The batch encoder: planning a row prefix row by row, then filling the shared tail column by column. */
module BatchEncoder {
  import opened Common
  import opened Bits
  import opened Bytes
  import opened Bitmaps
  import opened ArrowLayout
  import opened ArrowBlock
  import opened RowCells
  import opened ColumnWrites
  import RowEncoder

  // ---- Setting a run of bits ---------------------------------------------------------

  /** `((1 << take) - 1) << first` has exactly the bits from `first` to `first + take`. */
  lemma {:induction false} MaskBits(take: nat, first: nat, j: nat)
    ensures Bit(FullMask(take) * Pow2(first), j) <==> first <= j < first + take
    decreases first, j
  {
    if first == 0 {
      FullMaskBit(take, j);
    } else {
      assert FullMask(take) * Pow2(first) == 2 * (FullMask(take) * Pow2(first - 1));
      if j > 0 { MaskBits(take, first - 1, j - 1); }
    }
  }

  lemma {:induction false} MaskBelow(take: nat, first: nat, w: nat)
    requires first + take <= w
    ensures FullMask(take) * Pow2(first) < Pow2(w)
    decreases first
  {
    if first == 0 {
      Pow2AtMost(take, w);
    } else {
      MaskBelow(take, first - 1, w - 1);
      assert FullMask(take) * Pow2(first) == 2 * (FullMask(take) * Pow2(first - 1));
    }
  }

  lemma {:induction false} Pow2AtMost(a: nat, b: nat)
    requires a <= b
    ensures Pow2(a) <= Pow2(b)
    decreases b
  {
    if a < b { Pow2AtMost(a, b - 1); }
  }

  /** `byte |= mask` for a run of bits inside one byte. */
  function OrMask(b: byte, take: nat, first: nat): (r: byte)
    requires first + take <= 8
    ensures forall j: nat :: Bit(r, j) <==> Bit(b, j) || first <= j < first + take
  {
    assert Pow2(8) == 256;
    MaskBelow(take, first, 8);
    OrBelow(b, FullMask(take) * Pow2(first), 8);
    OrMaskBits(b, take, first);
    Or(b, FullMask(take) * Pow2(first))
  }

  lemma OrMaskBits(b: nat, take: nat, first: nat)
    ensures forall j: nat :: Bit(Or(b, FullMask(take) * Pow2(first)), j) <==> Bit(b, j) || first <= j < first + take
  {
    forall j: nat ensures Bit(Or(b, FullMask(take) * Pow2(first)), j) <==> Bit(b, j) || first <= j < first + take {
      OrBit(b, FullMask(take) * Pow2(first), j);
      MaskBits(take, first, j);
    }
  }

  lemma AllOnes(j: nat)
    requires j < 8
    ensures Bit(255, j)
  {
    assert FullMask(8) == 255;
    FullMaskBit(8, j);
  }

  /**
   * Every bit of the bitmap at `base` is set where it was or lies between `from` and `to`; other bytes are as before.
   */
  ghost predicate BitsFilled(before: seq<byte>, after: seq<byte>, base: nat, from: nat, to: nat) {
    && |after| == |before|
    && (forall i: nat :: i < |before| && !(base <= i < base + BitmapBytes(to)) ==> after[i] == before[i])
    && (forall i: nat :: base + i / 8 < |before| ==>
          (BitOf(after, base, i) <==> BitOf(before, base, i) || from <= i < to))
  }

  lemma FillOne(before: seq<byte>, mid: seq<byte>, base: nat, from: nat, bit: nat, take: nat)
    requires BitsFilled(before, mid, base, from, bit) && from <= bit && 0 < take && bit % 8 + take <= 8
             && base + bit / 8 < |mid|
    ensures BitsFilled(before, mid[base + bit / 8 := OrMask(mid[base + bit / 8], take, bit % 8)], base, from,
                       bit + take)
  {
    var after := mid[base + bit / 8 := OrMask(mid[base + bit / 8], take, bit % 8)];
    forall i: nat | base + i / 8 < |before| ensures BitOf(after, base, i) <==>
        BitOf(before, base, i) || from <= i < bit + take {
      assert BitOf(mid, base, i) <==> BitOf(before, base, i) || from <= i < bit;
      if i / 8 == bit / 8 { assert i - bit == i % 8 - bit % 8; }
    }
  }

  lemma FillByte(before: seq<byte>, mid: seq<byte>, base: nat, from: nat, bit: nat)
    requires BitsFilled(before, mid, base, from, bit) && from <= bit && bit % 8 == 0 && base + bit / 8 < |mid|
    ensures BitsFilled(before, mid[base + bit / 8 := 255], base, from, bit + 8)
  {
    var after := mid[base + bit / 8 := 255];
    forall i: nat | base + i / 8 < |before| ensures BitOf(after, base, i) <==>
        BitOf(before, base, i) || from <= i < bit + 8 {
      assert BitOf(mid, base, i) <==> BitOf(before, base, i) || from <= i < bit;
      if i / 8 == bit / 8 { AllOnes(i % 8); }
    }
  }

  lemma InsideBitmap(bit: nat, last: nat, length: nat)
    requires bit <= last && last / 8 < length
    ensures bit / 8 < length
  {
  }

  lemma NothingFilled(bytes: seq<byte>, base: nat, at: nat)
    ensures BitsFilled(bytes, bytes, base, at, at)
  {
  }

  /** `fill_bits_true` on the bitmap at `base`: a partial first byte, whole bytes, a partial last byte. */
  method FillBitsTrue(dst: array<byte>, base: nat, offset: nat, len: nat)
    requires len == 0 || base + (offset + len - 1) / 8 < dst.Length
    modifies dst
    ensures BitsFilled(old(dst[..]), dst[..], base, offset, offset + len)
  {
    hide Bit, OrMask, BitsFilled;
    ghost var before := dst[..];
    NothingFilled(before, base, offset);
    if len == 0 { return; }
    var bit: nat, remaining: nat := offset, len;
    var firstBit := bit % 8;
    InsideBitmap(bit, offset + len - 1, dst.Length - base);
    if firstBit != 0 {
      var take := if remaining < 8 - firstBit then remaining else 8 - firstBit;
      FillOne(before, dst[..], base, offset, bit, take);
      assert (bit + (8 - firstBit)) % 8 == 0;
      dst[base + bit / 8] := OrMask(dst[base + bit / 8], take, firstBit);
      bit, remaining := bit + take, remaining - take;
    }
    while remaining >= 8
      invariant 0 <= remaining && offset <= bit && bit + remaining == offset + len && (bit % 8 == 0 || remaining == 0)
      invariant BitsFilled(before, dst[..], base, offset, bit)
    {
      InsideBitmap(bit, offset + len - 1, dst.Length - base);
      FillByte(before, dst[..], base, offset, bit);
      dst[base + bit / 8] := 255;
      bit, remaining := bit + 8, remaining - 8;
    }
    if remaining != 0 {
      InsideBitmap(bit, offset + len - 1, dst.Length - base);
      FillOne(before, dst[..], base, offset, bit, remaining);
      dst[base + bit / 8] := OrMask(dst[base + bit / 8], remaining, 0);
    }
  }

  function Trues(n: nat): (bits: seq<bool>)
    ensures |bits| == n && forall i :: 0 <= i < n ==> bits[i]
  {
    seq(n, _ => true)
  }

  lemma FilledIsWritten(before: seq<byte>, after: seq<byte>, base: nat, rows: nat, from: nat, to: nat)
    requires BitsFilled(before, after, base, from, to) && from <= to <= rows && base + BitmapBytes(rows) <= |before|
    ensures BitsWritten(before, after, base, rows, from, to, Trues(to - from))
  {
    assert BitmapBytes(to) <= BitmapBytes(rows);
    forall r: nat | r < rows ensures BitOf(after, base, r) == if from <= r < to then true else BitOf(before, base, r) {
      assert base + r / 8 < |before|;
    }
  }

  function CountFalse(bits: seq<bool>): (n: nat)
    ensures n <= |bits|
  {
    if bits == [] then 0 else CountFalse(bits[..|bits| - 1]) + (if bits[|bits| - 1] then 0 else 1)
  }

  /** Arrow's `set_bits`, as documented: the bits of the run become the given ones, and the clear ones are counted. */
  method CopyBits(dst: array<byte>, base: nat, rows: nat, from: nat, bits: seq<bool>) returns (clear: nat)
    requires from + |bits| <= rows && base + BitmapBytes(rows) <= dst.Length
    modifies dst
    ensures BitsWritten(old(dst[..]), dst[..], base, rows, from, from + |bits|, bits)
    ensures clear == CountFalse(bits)
  {
    clear := 0;
    for i := 0 to |bits|
      invariant BitsWritten(old(dst[..]), dst[..], base, rows, from, from + i, bits[..i])
      invariant clear == CountFalse(bits[..i])
    {
      CopyOne(old(dst[..]), dst[..], base, rows, from, bits, i);
      assert bits[..i + 1][..i] == bits[..i];
      SetRaw(dst, base, from + i, bits[i]);
      clear := clear + if bits[i] then 0 else 1;
    }
    assert bits[..|bits|] == bits;
  }

  lemma CopyOne(before: seq<byte>, mid: seq<byte>, base: nat, rows: nat, from: nat, bits: seq<bool>, i: nat)
    requires i < |bits| && from + |bits| <= rows && BitsWritten(before, mid, base, rows, from, from + i, bits[..i])
    ensures base + (from + i) / 8 < |mid|
    ensures BitsWritten(before, WithBit(mid, base, from + i, bits[i]), base, rows, from, from + i + 1, bits[..i + 1])
  {
    hide BitOf;
    var after := WithBit(mid, base, from + i, bits[i]);
    forall r: nat | r < rows
      ensures base + r / 8 < |mid|
              && BitOf(after, base, r) == if from <= r < from + i + 1 then bits[..i + 1][r - from]
                  else BitOf(before, base, r)
    {
      WithBitReads(mid, base, from + i, bits[i], r);
    }
  }

  // ---- Arrow columns -----------------------------------------------------------------------

  /** An Arrow array: its values, and which of them are valid if it has a null buffer. */
  datatype Column =
    | Bools(values: seq<bool>, validity: Option<seq<bool>>)
    | Slots(slots: seq<seq<byte>>, validity: Option<seq<bool>>)
    | Strings(texts: seq<seq<byte>>, validity: Option<seq<bool>>)

  datatype Batch = Batch(schema: seq<ColumnSpec>, columns: seq<Column>, rows: nat)

  /** What Arrow guarantees of a column of a record batch. */
  ghost predicate Conforms(column: Column, spec: ColumnSpec, rows: nat) {
    && (column.validity.Some? ==> |column.validity.value| == rows)
    && (!spec.nullable && column.validity.Some? ==> forall r :: 0 <= r < rows ==> column.validity.value[r])
    && match column
       case Bools(values, _) => spec.tag.Boolean? && |values| == rows
       case Slots(slots, _) => !spec.tag.Boolean? && !IsView(spec.tag) && |slots| == rows
                               && forall r :: 0 <= r < rows ==> |slots[r]| == RowWidth(spec.tag)
       case Strings(texts, _) => IsView(spec.tag) && |texts| == rows
  }

  ghost predicate WellFormed(batch: Batch) {
    |batch.columns| == |batch.schema|
        && forall c :: 0 <= c < |batch.schema| ==> Conforms(batch.columns[c], batch.schema[c], batch.rows)
  }

  predicate IsValid(column: Column, r: nat)
    requires column.validity.Some? ==> r < |column.validity.value|
  {
    column.validity.None? || column.validity.value[r]
  }

  /** The cell at row `r` of a column. */
  ghost function CellOf(column: Column, spec: ColumnSpec, rows: nat, r: nat): (cell: Cell)
    requires Conforms(column, spec, rows) && r < rows
    ensures Matches(spec.tag, cell) && (cell.NullCell? ==> spec.nullable)
  {
    if !IsValid(column, r) then NullCell
    else match column
         case Bools(values, _) => BoolCell(values[r])
         case Slots(slots, _) => if spec.tag.Uuid? then UuidCell(slots[r]) else FixedCell(spec.tag, slots[r])
         case Strings(texts, _) => if spec.tag.Utf8View? then Utf8Cell(texts[r]) else BinaryCell(texts[r])
  }

  type Row = seq<Cell>

  ghost function RowOf(batch: Batch, r: nat): (row: Row)
    requires WellFormed(batch) && r < batch.rows
    ensures |row| == |batch.schema|
    ensures forall c :: 0 <= c < |row| ==> row[c] == CellOf(batch.columns[c], batch.schema[c], batch.rows, r)
  {
    seq(|batch.schema|, c requires 0 <= c < |batch.schema| => CellOf(batch.columns[c], batch.schema[c], batch.rows, r))
  }

  /** The rows of a batch. */
  ghost function Table(batch: Batch): (table: seq<Row>)
    requires WellFormed(batch)
    ensures |table| == batch.rows && forall r :: 0 <= r < |table| ==> table[r] == RowOf(batch, r)
  {
    seq(batch.rows, r requires 0 <= r < batch.rows => RowOf(batch, r))
  }

  // ---- What rows need of the tail --------------------------------------------------------

  /** The tail bytes one cell takes: short values stay in their slot. */
  function Need(cell: Cell): nat { if IsLong(cell) then |cell.bytes| else 0 }

  function RowNeed(row: Row, c: nat): nat
    requires c <= |row|
  {
    if c == 0 then 0 else RowNeed(row, c - 1) + Need(row[c - 1])
  }

  ghost predicate Rectangular(batch: seq<Row>, columns: nat) {
    forall r :: 0 <= r < |batch| ==> |batch[r]| == columns
  }

  /** Tail bytes of rows `start` to `start + k`, by rows. */
  function PrefixNeed(batch: seq<Row>, start: nat, k: nat): nat
    requires start + k <= |batch|
  {
    if k == 0 then 0 else PrefixNeed(batch, start, k - 1) + RowNeed(batch[start + k - 1], |batch[start + k - 1]|)
  }

  /** Tail bytes of one column of those rows. */
  function ColumnNeed(batch: seq<Row>, start: nat, k: nat, c: nat): nat
    requires start + k <= |batch| && forall r :: 0 <= r < |batch| ==> c < |batch[r]|
  {
    if k == 0 then 0 else ColumnNeed(batch, start, k - 1, c) + Need(batch[start + k - 1][c])
  }

  function ColumnsNeed(batch: seq<Row>, start: nat, k: nat, c: nat): nat
    requires start + k <= |batch| && forall r :: 0 <= r < |batch| ==> c <= |batch[r]|
  {
    if c == 0 then 0 else ColumnsNeed(batch, start, k, c - 1) + ColumnNeed(batch, start, k, c - 1)
  }

  /** Summing by columns or by rows comes to the same. */
  lemma {:induction false} RowsAreColumns(batch: seq<Row>, start: nat, k: nat, columns: nat)
    requires start + k <= |batch| && Rectangular(batch, columns)
    ensures ColumnsNeed(batch, start, k, columns) == PrefixNeed(batch, start, k)
    decreases k
  {
    if k == 0 {
      NoRowsNoNeed(batch, start, columns);
    } else {
      RowsAreColumns(batch, start, k - 1, columns);
      AddRow(batch, start, k, columns);
    }
  }

  lemma {:induction false} NoRowsNoNeed(batch: seq<Row>, start: nat, c: nat)
    requires start <= |batch| && forall r :: 0 <= r < |batch| ==> c <= |batch[r]|
    ensures ColumnsNeed(batch, start, 0, c) == 0
  {
    if c > 0 { NoRowsNoNeed(batch, start, c - 1); }
  }

  lemma {:induction false} AddRow(batch: seq<Row>, start: nat, k: nat, c: nat)
    requires 0 < k && start + k <= |batch| && forall r :: 0 <= r < |batch| ==> c <= |batch[r]|
    ensures ColumnsNeed(batch, start, k, c) == ColumnsNeed(batch, start, k - 1, c) + RowNeed(batch[start + k - 1], c)
    decreases c
  {
    if c > 0 { AddRow(batch, start, k, c - 1); }
  }

  lemma {:induction false} ColumnsGrow(batch: seq<Row>, start: nat, k: nat, c: nat, columns: nat)
    requires start + k <= |batch| && c <= columns && Rectangular(batch, columns)
    ensures ColumnsNeed(batch, start, k, c) <= ColumnsNeed(batch, start, k, columns)
    decreases columns - c
  {
    if c < columns { ColumnsGrow(batch, start, k, c + 1, columns); }
  }

  lemma {:induction false} ColumnGrows(batch: seq<Row>, start: nat, i: nat, k: nat, c: nat)
    requires i <= k && start + k <= |batch| && forall r :: 0 <= r < |batch| ==> c < |batch[r]|
    ensures ColumnNeed(batch, start, i, c) <= ColumnNeed(batch, start, k, c)
    decreases k - i
  {
    if i < k { ColumnGrows(batch, start, i, k - 1, c); }
  }

  lemma {:induction false} PrefixGrows(batch: seq<Row>, start: nat, i: nat, k: nat)
    requires i <= k && start + k <= |batch|
    ensures PrefixNeed(batch, start, i) <= PrefixNeed(batch, start, k)
    decreases k - i
  {
    if i < k { PrefixGrows(batch, start, i, k - 1); }
  }

  // ---- The first value in the tail -------------------------------------------------------------

  /** The length of the first long value among the first `i` rows of column `c`. */
  function FirstIn(batch: seq<Row>, start: nat, c: nat, i: nat): Option<nat>
    requires start + i <= |batch| && forall r :: 0 <= r < |batch| ==> c < |batch[r]|
  {
    if i == 0 then None
    else if FirstIn(batch, start, c, i - 1).Some? then FirstIn(batch, start, c, i - 1)
    else if IsLong(batch[start + i - 1][c]) then Some(|batch[start + i - 1][c].bytes|) else None
  }

  /** The length of the first long value of the first `c` columns, column by column. */
  function First(batch: seq<Row>, start: nat, k: nat, c: nat): Option<nat>
    requires start + k <= |batch| && forall r :: 0 <= r < |batch| ==> c <= |batch[r]|
  {
    if c == 0 then None
    else if First(batch, start, k, c - 1).Some? then First(batch, start, k, c - 1)
    else FirstIn(batch, start, c - 1, k)
  }

  function Upto(batch: seq<Row>, start: nat, k: nat, c: nat, i: nat): Option<nat>
    requires start + k <= |batch| && i <= k && forall r :: 0 <= r < |batch| ==> c < |batch[r]|
  {
    if First(batch, start, k, c).Some? then First(batch, start, k, c) else FirstIn(batch, start, c, i)
  }

  lemma {:induction false} FirstInStays(batch: seq<Row>, start: nat, c: nat, i: nat, k: nat)
    requires i <= k && start + k <= |batch| && forall r :: 0 <= r < |batch| ==> c < |batch[r]|
    ensures FirstIn(batch, start, c, i).Some? ==> FirstIn(batch, start, c, k) == FirstIn(batch, start, c, i)
    decreases k - i
  {
    if i < k { FirstInStays(batch, start, c, i, k - 1); }
  }

  lemma {:induction false} FirstStays(batch: seq<Row>, start: nat, k: nat, c: nat, columns: nat)
    requires start + k <= |batch| && c <= columns && Rectangular(batch, columns)
    ensures First(batch, start, k, c).Some? ==> First(batch, start, k, columns) == First(batch, start, k, c)
    decreases columns - c
  {
    if c < columns { FirstStays(batch, start, k, c + 1, columns); }
  }

  /** The first long value, or the offset it gets at the top of the free tail, does not fit 31 bits. */
  ghost predicate Unencodable(batch: seq<Row>, start: nat, k: nat, columns: nat, room: int)
    requires start + k <= |batch| && Rectangular(batch, columns)
  {
    var first := First(batch, start, k, columns);
    first.Some? && (first.value > I32_MAX || room - first.value > I32_MAX)
  }

  // ---- A batch under construction ----------------------------------------------------------------

  /** Cell (k, c) reads back, with its long payload inside the allocated tail. */
  ghost predicate Reads(block: seq<byte>, h: BlockHeader, specs: seq<ColumnSpec>, all: RowEncoder.Committed, k: nat,
                        c: nat)
    requires RowEncoder.Shaped(all, specs) && k < |all.rows| && c < |specs|
             && InRange(block, specs, h.maxRows, c, all.base + k)
  {
    var cell, start := all.rows[k][c], RowEncoder.StartOf(all, k, c);
    && CellReads(block, specs, h.maxRows, c, all.base + k, cell, start)
    && (IsLong(cell) ==> h.tailCursor <= start && start + |cell.bytes| <= h.blockSize)
  }

  ghost predicate Separate(all: RowEncoder.Committed, specs: seq<ColumnSpec>, k: nat, c: nat, k': nat, c': nat)
    requires RowEncoder.Shaped(all, specs) && k < |all.rows| && c < |specs| && k' < |all.rows| && c' < |specs|
  {
    var cell, cell' := all.rows[k][c], all.rows[k'][c'];
    var start, start' := RowEncoder.StartOf(all, k, c), RowEncoder.StartOf(all, k', c');
    IsLong(cell) && IsLong(cell') ==> start + |cell.bytes| <= start' || start' + |cell'.bytes| <= start
  }

  /** The cells in place: `kept` committed rows, and of the new rows the columns before `col` and `i` cells of `col`. */
  predicate InPlace(kept: nat, col: nat, i: nat, k: nat, c: nat) { k < kept || c < col || (c == col && k < kept + i) }

  ghost predicate Framed(block: seq<byte>, h: BlockHeader, specs: seq<ColumnSpec>, all: RowEncoder.Committed,
                         kept: nat) {
    && LaidOut(block, h, specs) && HeaderFits(h) && Holds(block, specs, h.maxRows) && HeaderAt(block) == h
    && RowEncoder.Shaped(all, specs) && kept <= |all.rows| && h.rowCount == all.base + kept
    && all.base + |all.rows| <= h.maxRows
  }

  ghost predicate Progress(block: seq<byte>, h: BlockHeader, specs: seq<ColumnSpec>, all: RowEncoder.Committed,
                           kept: nat, col: nat, i: nat) {
    && Framed(block, h, specs, all, kept) && i <= |all.rows| - kept
    && (forall k: nat, c: nat :: k < |all.rows| && c < |specs| && InPlace(kept, col, i, k, c) ==>
          Reads(block, h, specs, all, k, c))
    && (forall k: nat, c: nat, k': nat, c': nat ::
          (k < |all.rows| && c < |specs| && k' < |all.rows| && c' < |specs|
           && (k, c) != (k', c') && InPlace(kept, col, i, k, c) && InPlace(kept, col, i, k', c')) ==>
               Separate(all, specs, k, c, k', c'))
  }

  /** Null counts of the columns before `col` include the new rows. */
  ghost predicate Counted(block: seq<byte>, specs: seq<ColumnSpec>, all: RowEncoder.Committed, kept: nat, col: nat)
    requires RowEncoder.Shaped(all, specs) && kept <= |all.rows| && DescOffset(|specs|) <= |block|
  {
    forall c: nat :: c < |specs| ==>
      DescAt(block, c).nullCount
          == all.nullBase[c] + RowEncoder.NullsIn(if c < col then all.rows else all.rows[..kept], c)
  }

  lemma FramedFacts(block: seq<byte>, h: BlockHeader, specs: seq<ColumnSpec>, all: RowEncoder.Committed, kept: nat)
    requires Framed(block, h, specs, all, kept)
    ensures h.poolBase == ColumnStart(specs, h.maxRows, |specs|) <= h.tailCursor <= h.blockSize <= |block|
            && h.blockSize <= U32_MAX
    ensures HEADER_LEN <= DescOffset(|specs|) <= |block| && Holds(block, specs, h.maxRows)
            && h.rowCount == all.base + kept
    ensures RowEncoder.Shaped(all, specs) && kept <= |all.rows| && all.base + |all.rows| <= h.maxRows
  {
    hide ColumnStart;
  }

  lemma ProgressFacts(block: seq<byte>, h: BlockHeader, specs: seq<ColumnSpec>, all: RowEncoder.Committed, kept: nat,
                      col: nat, i: nat)
    requires Progress(block, h, specs, all, kept, col, i)
    ensures h.poolBase == ColumnStart(specs, h.maxRows, |specs|) <= h.tailCursor <= h.blockSize <= |block|
            && h.blockSize <= U32_MAX
    ensures HEADER_LEN <= DescOffset(|specs|) <= |block| && Holds(block, specs, h.maxRows)
            && h.rowCount == all.base + kept
    ensures RowEncoder.Shaped(all, specs) && kept <= |all.rows| && all.base + |all.rows| <= h.maxRows
  {
    FramedFacts(block, h, specs, all, kept);
  }

  /** The frame after a write inside column `col`, whose descriptor may only count more nulls. */
  lemma FrameKept(block: seq<byte>, block': seq<byte>, h: BlockHeader, specs: seq<ColumnSpec>,
                  all: RowEncoder.Committed, kept: nat,
                  col: nat, from: nat, to: nat, next: nat)
    requires Framed(block, h, specs, all, kept) && col < |specs| && h.poolBase <= next <= h.tailCursor
    requires OnlyColumn(block, block', specs, h.maxRows, col, from, to, next, h.tailCursor)
    requires |block'| >= HEADER_LEN && HeaderAt(block') == h.(tailCursor := next) && DescOffset(|specs|) <= |block'|
    requires DescAt(block', col) == DescAt(block, col).(nullCount := DescAt(block', col).nullCount)
    ensures Framed(block', h.(tailCursor := next), specs, all, kept)
    ensures forall j: nat :: j < |specs| && j != col ==> DescAt(block', j) == DescAt(block, j)
  {
    hide ColumnStart, DecodeDesc, DecodeHeader, PlannedColumn, FrontOf;
    forall j: nat | j < |specs| && j != col ensures DescAt(block', j) == DescAt(block, j) {
      OtherDescs(block, block', specs, h.maxRows, col, from, to, next, h.tailCursor, j);
    }
    hide DescAt;
    forall j | 0 <= j < |specs| ensures DescPlanned(DescAt(block', j), specs, h.maxRows, j) {
      assert DescPlanned(DescAt(block, j), specs, h.maxRows, j);
    }
  }

  /** The cells in place stay in place under a write to rows of `col` that are not. */
  lemma ProgressKept(block: seq<byte>, block': seq<byte>, h: BlockHeader, specs: seq<ColumnSpec>,
                     all: RowEncoder.Committed, kept: nat,
                     col: nat, i: nat, at: nat, from: nat, to: nat, next: nat)
    requires Progress(block, h, specs, all, kept, col, i) && at < |specs| && h.poolBase <= next <= h.tailCursor
    requires OnlyColumn(block, block', specs, h.maxRows, at, from, to, next, h.tailCursor)
    requires from == to || (at == col && all.base + kept + i <= from)
    requires |block'| >= HEADER_LEN && HeaderAt(block') == h.(tailCursor := next) && DescOffset(|specs|) <= |block'|
    requires DescAt(block', at) == DescAt(block, at).(nullCount := DescAt(block', at).nullCount)
    ensures Progress(block', h.(tailCursor := next), specs, all, kept, col, i)
    ensures forall j: nat :: j < |specs| && j != at ==> DescAt(block', j) == DescAt(block, j)
  {
    FrameKept(block, block', h, specs, all, kept, at, from, to, next);
    FramedFacts(block, h, specs, all, kept);
    hide Framed, OnlyColumn, Reads, Separate, DescAt, HeaderAt;
    FramedFacts(block', h.(tailCursor := next), specs, all, kept);
    forall k: nat, c: nat | k < |all.rows| && c < |specs| && InPlace(kept, col, i, k, c)
      ensures Reads(block', h.(tailCursor := next), specs, all, k, c)
    {
      ReadKept(block, block', h, specs, all, at, from, to, next, k, c);
    }
  }

  lemma ReadKept(block: seq<byte>, block': seq<byte>, h: BlockHeader, specs: seq<ColumnSpec>, all: RowEncoder.Committed,
                 col: nat, from: nat, to: nat, next: nat, k: nat, c: nat)
    requires RowEncoder.Shaped(all, specs) && k < |all.rows| && c < |specs|
             && InRange(block, specs, h.maxRows, c, all.base + k)
    requires Reads(block, h, specs, all, k, c) && col < |specs| && |block'| == |block|
    requires OnlyColumn(block, block', specs, h.maxRows, col, from, to, next, h.tailCursor)
    requires ColumnStart(specs, h.maxRows, |specs|) <= next <= h.tailCursor
             && (c != col || !(from <= all.base + k < to))
    ensures Reads(block', h.(tailCursor := next), specs, all, k, c)
  {
    hide OnlyColumn, ColumnStart, CellReads;
    ReadsKept(block, block', specs, h.maxRows, col, from, to, next, h.tailCursor, c, all.base + k, all.rows[k][c],
              RowEncoder.StartOf(all, k, c));
  }

  /** The record of where the next payload starts. */
  ghost function Placed(all: RowEncoder.Committed, k: nat, c: nat, start: nat): RowEncoder.Committed {
    all.(starts := all.starts[(k, c) := start])
  }

  /** One more cell of the column comes into place; a long payload lies right below all others. */
  lemma ProgressCell(block: seq<byte>, block': seq<byte>, h: BlockHeader, specs: seq<ColumnSpec>,
                     all: RowEncoder.Committed, kept: nat,
                     col: nat, i: nat, next: nat)
    requires Progress(block, h, specs, all, kept, col, i) && col < |specs| && i < |all.rows| - kept
             && h.poolBase <= next <= h.tailCursor
    requires OnlyColumn(block, block', specs, h.maxRows, col, all.base + kept + i, all.base + kept + i + 1, next,
                        h.tailCursor)
    requires |block'| >= HEADER_LEN && HeaderAt(block') == h.(tailCursor := next) && DescOffset(|specs|) <= |block'|
    requires DescAt(block', col) == DescAt(block, col)
    requires InRange(block', specs, h.maxRows, col, all.base + kept + i)
    requires CellReads(block', specs, h.maxRows, col, all.base + kept + i, all.rows[kept + i][col], next)
    requires IsLong(all.rows[kept + i][col]) ==> next + |all.rows[kept + i][col].bytes| == h.tailCursor
    ensures Progress(block', h.(tailCursor := next), specs, Placed(all, kept + i, col, next), kept, col, i + 1)
    ensures forall j: nat :: j < |specs| ==> DescAt(block', j) == DescAt(block, j)
  {
    ProgressKept(block, block', h, specs, all, kept, col, i, col, all.base + kept + i, all.base + kept + i + 1, next);
    FramedFacts(block, h, specs, all, kept);
    assert h.(tailCursor := next).blockSize == h.blockSize;
    hide LaidOut, OnlyColumn, ColumnStart, CellReads, HeaderFits, DescAt, HeaderAt;
    PlaceOne(block, h, block', h.(tailCursor := next), specs, all, kept, col, i, next);
  }

  lemma PlaceOne(block: seq<byte>, h: BlockHeader, block': seq<byte>, h': BlockHeader, specs: seq<ColumnSpec>,
                 all: RowEncoder.Committed,
                 kept: nat, col: nat, i: nat, next: nat)
    requires Progress(block, h, specs, all, kept, col, i) && Progress(block', h', specs, all, kept, col, i)
    requires col < |specs| && i < |all.rows| - kept
             && h'.tailCursor == next <= h.tailCursor <= h.blockSize == h'.blockSize
    requires InRange(block', specs, h'.maxRows, col, all.base + kept + i)
    requires CellReads(block', specs, h'.maxRows, col, all.base + kept + i, all.rows[kept + i][col], next)
    requires IsLong(all.rows[kept + i][col]) ==> next + |all.rows[kept + i][col].bytes| == h.tailCursor
    ensures Progress(block', h', specs, Placed(all, kept + i, col, next), kept, col, i + 1)
  {
    hide LaidOut, ColumnStart, CellReads, HeaderFits, DescAt, HeaderAt;
    var all' := Placed(all, kept + i, col, next);
    forall k: nat,
        c: nat | (k, c) != (kept + i, col) ensures RowEncoder.StartOf(all', k, c) == RowEncoder.StartOf(all, k, c) {}
    assert Framed(block', h', specs, all', kept);
    forall k: nat, c: nat | k < |all'.rows| && c < |specs| && InPlace(kept, col, i + 1, k, c)
      ensures Reads(block', h', specs, all', k, c)
    {
      if (k, c) != (kept + i, col) { assert InPlace(kept, col, i, k, c) && Reads(block', h', specs, all, k, c); }
    }
    forall k: nat, c: nat, k': nat, c': nat | k < |all'.rows| && c < |specs| && k' < |all'.rows| && c' < |specs|
        && (k, c) != (k', c') && InPlace(kept, col, i + 1, k, c) && InPlace(kept, col, i + 1, k', c')
      ensures Separate(all', specs, k, c, k', c')
    {
      if (k, c) == (kept + i, col) {
        assert InPlace(kept, col, i, k', c') && Reads(block, h, specs, all, k', c');
      } else if (k', c') == (kept + i, col) {
        assert InPlace(kept, col, i, k, c) && Reads(block, h, specs, all, k, c);
      } else {
        assert Separate(all, specs, k, c, k', c');
      }
    }
  }

  /** A whole column of values that need no tail comes into place. */
  lemma ProgressColumn(block: seq<byte>, h: BlockHeader, specs: seq<ColumnSpec>, all: RowEncoder.Committed, kept: nat,
                       col: nat)
    requires Progress(block, h, specs, all, kept, col, 0) && col < |specs|
    requires forall k: nat :: kept <= k < |all.rows| ==>
               !IsLong(all.rows[k][col])
                   && CellReads(block, specs, h.maxRows, col, all.base + k, all.rows[k][col],
                                RowEncoder.StartOf(all, k, col))
    ensures Progress(block, h, specs, all, kept, col + 1, 0)
  {
    hide LaidOut, ColumnStart, CellReads, HeaderFits, DescAt, HeaderAt;
    forall k: nat, c: nat | k < |all.rows| && c < |specs|
        && InPlace(kept, col + 1, 0, k, c) ensures Reads(block, h, specs, all, k, c) {
      if k < kept || c != col { assert InPlace(kept, col, 0, k, c); }
    }
    forall k: nat, c: nat, k': nat, c': nat | k < |all.rows| && c < |specs| && k' < |all.rows| && c' < |specs|
        && (k, c) != (k', c') && InPlace(kept, col + 1, 0, k, c) && InPlace(kept, col + 1, 0, k', c')
      ensures Separate(all, specs, k, c, k', c')
    {
      if InPlace(kept, col, 0, k, c) && InPlace(kept, col, 0, k', c') { assert Separate(all, specs, k, c, k', c'); }
    }
  }

  /** The column is complete. */
  lemma ColumnDone(block: seq<byte>, h: BlockHeader, specs: seq<ColumnSpec>, all: RowEncoder.Committed, kept: nat,
                   col: nat, i: nat)
    requires Progress(block, h, specs, all, kept, col, i) && kept + i == |all.rows|
    ensures Progress(block, h, specs, all, kept, col + 1, 0)
  {
    hide Framed, Separate, Reads;
    assert forall k: nat, c: nat :: k < |all.rows| && InPlace(kept, col + 1, 0, k, c) ==> InPlace(kept, col, i, k, c);
  }

  // ---- Starting, committing and giving up ---------------------------------------------------------

  ghost function Extended(done: RowEncoder.Committed,
                          rows: seq<Row>): RowEncoder.Committed { done.(rows := done.rows + rows) }

  /** `all` is `done` with the new rows, and agrees with it on where committed payloads are. */
  ghost predicate Extends(all: RowEncoder.Committed, done: RowEncoder.Committed, rows: seq<Row>) {
    && all.base == done.base && all.nullBase == done.nullBase && all.rows == done.rows + rows
    && forall k: nat, c: nat :: k < |done.rows| ==> RowEncoder.StartOf(all, k, c) == RowEncoder.StartOf(done, k, c)
  }

  lemma Begins(block: seq<byte>, h: BlockHeader, specs: seq<ColumnSpec>, done: RowEncoder.Committed, rows: seq<Row>)
    requires RowEncoder.EncoderOk(block, h, specs, done) && |block| >= HEADER_LEN && HeaderAt(block) == h
    requires h.rowCount + |rows| <= h.maxRows && forall r :: 0 <= r < |rows| ==> |rows[r]| == |specs|
    ensures var all := Extended(done, rows);
            Extends(all, done, rows) && Progress(block, h, specs, all, |done.rows|, 0, 0)
                && Counted(block, specs, all, |done.rows|, 0)
  {
    hide CellReads, ColumnStart, DescPlanned, DescAt, HeaderAt;
    var all, kept := Extended(done, rows), |done.rows|;
    assert all.rows[..kept] == done.rows;
    forall k: nat, c: nat | k < |all.rows| && c < |specs|
        && InPlace(kept, 0, 0, k, c) ensures Reads(block, h, specs, all, k, c) {
      assert RowEncoder.RowReads(block, h, specs, done, k, c);
    }
  }

  /** All columns in place and counted, the rows are committed by the row count alone. */
  lemma Commits(block: seq<byte>, h: BlockHeader, specs: seq<ColumnSpec>, all: RowEncoder.Committed, kept: nat)
    requires Progress(block, h, specs, all, kept, |specs|, 0) && Counted(block, specs, all, kept, |specs|)
    ensures RowEncoder.EncoderOk(block, h.(rowCount := all.base + |all.rows|), specs, all)
  {
    hide CellReads, ColumnStart, DescPlanned, DescAt, HeaderAt;
    var h' := h.(rowCount := all.base + |all.rows|);
    forall k: nat, c: nat | k < |all.rows| && c < |specs| ensures RowEncoder.RowReads(block, h', specs, all, k, c) {
      assert InPlace(kept, |specs|, 0, k, c) && Reads(block, h, specs, all, k, c);
    }
    forall k: nat, c: nat, k': nat, c': nat | k < |all.rows| && c < |specs| && k' < |all.rows| && c' < |specs|
        && (k, c) != (k', c')
      ensures Separate(all, specs, k, c, k', c')
    {
      assert InPlace(kept, |specs|, 0, k, c) && InPlace(kept, |specs|, 0, k', c');
    }
    hide Reads;
    assert RowEncoder.PayloadsApart(all, specs) by { SeparateAll(all, specs); }
  }

  lemma SeparateAll(all: RowEncoder.Committed, specs: seq<ColumnSpec>)
    requires RowEncoder.Shaped(all, specs)
    requires forall k: nat, c: nat, k': nat, c': nat ::
               k < |all.rows| && c < |specs| && k' < |all.rows| && c' < |specs| && (k, c) != (k', c') ==>
                   Separate(all, specs, k, c, k', c')
    ensures RowEncoder.PayloadsApart(all, specs)
  {
    forall k: nat, c: nat, k': nat, c': nat |
      k < |all.rows| && k' < |all.rows| && c < |specs| && c' < |specs| && (k, c) != (k', c')
      && IsLong(all.rows[k][c]) && IsLong(all.rows[k'][c'])
      ensures RowEncoder.StartOf(all, k, c) + |all.rows[k][c].bytes| <= RowEncoder.StartOf(all, k', c')
              || RowEncoder.StartOf(all, k', c') + |all.rows[k'][c'].bytes| <= RowEncoder.StartOf(all, k, c)
    {
      assert Separate(all, specs, k, c, k', c');
    }
  }

  /**
   * The committed rows, with the nulls of the first `col` columns of the new rows counted though they are not
   * committed.
   */
  ghost function Leaked(done: RowEncoder.Committed, rows: seq<Row>, col: nat): RowEncoder.Committed
    requires forall r :: 0 <= r < |rows| ==> |rows[r]| == |done.nullBase|
  {
    done.(nullBase := seq(|done.nullBase|, c requires 0 <= c < |done.nullBase| =>
            done.nullBase[c] + if c < col then RowEncoder.NullsIn(rows, c) else 0))
  }

  ghost predicate IsLeak(after: RowEncoder.Committed, done: RowEncoder.Committed, rows: seq<Row>, counted: nat) {
    (forall r :: 0 <= r < |rows| ==> |rows[r]| == |done.nullBase|) && after == Leaked(done, rows, counted)
  }

  lemma {:induction false} NullsSplit(a: seq<Row>, b: seq<Row>, c: nat)
    requires forall k :: 0 <= k < |a + b| ==> c < |(a + b)[k]|
    ensures forall k :: 0 <= k < |a| ==> c < |a[k]|
    ensures forall k :: 0 <= k < |b| ==> c < |b[k]|
    ensures RowEncoder.NullsIn(a + b, c) == RowEncoder.NullsIn(a, c) + RowEncoder.NullsIn(b, c)
    decreases |b|
  {
    forall k | 0 <= k < |a| ensures c < |a[k]| { assert (a + b)[k] == a[k]; }
    forall k | 0 <= k < |b| ensures c < |b[k]| { assert (a + b)[|a| + k] == b[k]; }
    if b == [] {
      assert a + b == a;
    } else {
      var front, last := b[..|b| - 1], b[|b| - 1];
      assert a + b == (a + front) + [last] && (a + b)[..|a + b| - 1] == a + front;
      forall k | 0 <= k < |a + front| ensures c < |(a + front)[k]| { assert (a + front)[k] == (a + b)[k]; }
      NullsSplit(a, front, c);
    }
  }

  /** A batch given up with `counted` columns counted leaves the committed rows readable. */
  lemma GivesUp(block: seq<byte>, h: BlockHeader, specs: seq<ColumnSpec>, all: RowEncoder.Committed,
                done: RowEncoder.Committed, rows: seq<Row>,
                col: nat, i: nat, counted: nat)
    requires Extends(all, done, rows) && Progress(block, h, specs, all, |done.rows|, col, i)
             && Counted(block, specs, all, |done.rows|, counted)
    ensures |done.nullBase| == |specs| && forall r :: 0 <= r < |rows| ==> |rows[r]| == |specs|
    ensures RowEncoder.EncoderOk(block, h, specs, Leaked(done, rows, counted))
  {
    LeakedShape(all, done, rows, specs);
    var leaked, kept := Leaked(done, rows, counted), |done.rows|;
    assert all.rows[..kept] == done.rows;
    LeakedReads(block, h, specs, all, done, rows, col, i, counted);
    hide CellReads, ColumnStart, DescPlanned, DescAt, HeaderAt, LaidOut, Reads, Separate;
    forall c: nat | c < |specs| ensures DescAt(block, c).nullCount
        == leaked.nullBase[c] + RowEncoder.NullsIn(done.rows, c) {
      NullsSplit(done.rows, rows, c);
    }
  }

  lemma LeakedReads(block: seq<byte>, h: BlockHeader, specs: seq<ColumnSpec>, all: RowEncoder.Committed,
                    done: RowEncoder.Committed, rows: seq<Row>,
                    col: nat, i: nat, counted: nat)
    requires Extends(all, done, rows) && Progress(block, h, specs, all, |done.rows|, col, i)
    requires RowEncoder.Shaped(done, specs) && forall r :: 0 <= r < |rows| ==> |rows[r]| == |specs|
    ensures RowEncoder.Shaped(Leaked(done, rows, counted), specs)
            && RowEncoder.AllRead(block, h, specs, Leaked(done, rows, counted))
    ensures RowEncoder.PayloadsApart(Leaked(done, rows, counted), specs)
  {
    var leaked, kept := Leaked(done, rows, counted), |done.rows|;
    hide CellReads, ColumnStart, DescPlanned, DescAt, HeaderAt, LaidOut;
    forall k: nat, c: nat | k < kept && c < |specs| ensures RowEncoder.RowReads(block, h, specs, leaked, k, c) {
      assert InPlace(kept, col, i, k, c) && Reads(block, h, specs, all, k, c);
      assert all.rows[k] == done.rows[k];
    }
    forall k: nat, c: nat, k': nat, c': nat | k < kept && c < |specs| && k' < kept && c' < |specs| && (k, c) != (k', c')
      ensures Separate(leaked, specs, k, c, k', c')
    {
      assert InPlace(kept, col, i, k, c) && InPlace(kept, col, i, k', c') && Separate(all, specs, k, c, k', c');
      assert all.rows[k] == done.rows[k] && all.rows[k'] == done.rows[k'];
    }
    hide Reads, RowEncoder.RowReads, Separate;
    SeparateAll(leaked, specs);
  }

  lemma LeakedShape(all: RowEncoder.Committed, done: RowEncoder.Committed, rows: seq<Row>, specs: seq<ColumnSpec>)
    requires Extends(all, done, rows) && RowEncoder.Shaped(all, specs)
    ensures RowEncoder.Shaped(done, specs) && forall r :: 0 <= r < |rows| ==> |rows[r]| == |specs|
  {
    forall k | 0 <= k < |done.rows| ensures |done.rows[k]| == |specs| { assert all.rows[k] == done.rows[k]; }
    forall r | 0 <= r < |rows| ensures |rows[r]| == |specs| { assert all.rows[|done.rows| + r] == rows[r]; }
  }

  lemma BitmapFits(block: seq<byte>, specs: seq<ColumnSpec>, rows: nat, c: nat)
    requires c < |specs| && Holds(block, specs, rows)
    ensures ValidityOff(specs, rows, c) + BitmapBytes(rows) <= |block|
  {
    StartsGrow(specs, rows, c + 1, |specs|);
    hide ValuesLen;
  }

  lemma BoolsFit(block: seq<byte>, specs: seq<ColumnSpec>, rows: nat, c: nat)
    requires c < |specs| && Holds(block, specs, rows) && specs[c].tag.Boolean?
    ensures ValuesOff(specs, rows, c) + BitmapBytes(rows) <= |block|
  {
    StartsGrow(specs, rows, c + 1, |specs|);
    hide ValidityLen;
  }

  lemma LastBit(base: nat, from: nat, n: nat, rows: nat, length: nat)
    requires from + n <= rows && base + BitmapBytes(rows) <= length
    ensures n == 0 || base + (from + n - 1) / 8 < length
  {
  }

  lemma BitsOutside(block: seq<byte>, block': seq<byte>, base: nat, rows: nat, from: nat, to: nat, bits: seq<bool>,
                    n: nat)
    requires BitsWritten(block, block', base, rows, from, to, bits) && DescOffset(n) <= base
    ensures |block'| == |block| && HEADER_LEN <= DescOffset(n) <= |block| && HeaderAt(block') == HeaderAt(block)
    ensures forall j: nat :: j < n ==> DescAt(block', j) == DescAt(block, j)
  {
    hide HeaderAt, DescAt;
    PrefixSame(block, block', n, base);
  }

  lemma {:induction false} AllValid(bits: seq<bool>)
    requires forall i :: 0 <= i < |bits| ==> bits[i]
    ensures CountFalse(bits) == 0
  {
    if bits != [] { AllValid(bits[..|bits| - 1]); }
  }

  /** The cell of a column without tail reads back once its bit and its value are in. */
  lemma PlainReads(before: seq<byte>, block: seq<byte>, specs: seq<ColumnSpec>, rows: nat, c: nat, row: nat,
                   batch: Batch, r: nat, start: nat)
    requires InRange(before, specs, rows, c, row) && |block| == |before|
    requires WellFormed(batch) && batch.schema == specs && r < batch.rows && !batch.columns[c].Strings?
    requires specs[c].nullable ==> FrontOf(before, specs, rows, c, row).valid == !Table(batch)[r][c].NullCell?
    requires var front := FrontOf(before, specs, rows, c, row);
             FrontOf(block, specs, rows, c, row)
             == if batch.columns[c].Bools? then front.(value := batch.columns[c].values[r])
                 else front.(slot := batch.columns[c].slots[r])
    ensures !IsLong(Table(batch)[r][c]) && CellReads(block, specs, rows, c, row, Table(batch)[r][c], start)
  {
    hide ColumnStart, RowWidth, ValidBit, BoolBit, Slot;
    assert Conforms(batch.columns[c], specs[c], batch.rows);
    assert Table(batch)[r][c] == CellOf(batch.columns[c], specs[c], batch.rows, r);
  }

  /** A string cell reads back once its bit and its view are in. */
  lemma TextReads(block: seq<byte>, specs: seq<ColumnSpec>, rows: nat, c: nat, row: nat, batch: Batch, r: nat,
                  start: nat)
    requires InRange(block, specs, rows, c, row)
    requires WellFormed(batch) && batch.schema == specs && r < batch.rows && batch.columns[c].Strings?
    requires specs[c].nullable ==> FrontOf(block, specs, rows, c, row).valid == !Table(batch)[r][c].NullCell?
    requires IsValid(batch.columns[c], r) ==> ViewHolds(block, specs, rows, c, row, batch.columns[c].texts[r], start)
    ensures CellReads(block, specs, rows, c, row, Table(batch)[r][c], start)
    ensures Table(batch)[r][c].NullCell? <==> !IsValid(batch.columns[c], r)
  {
    hide ColumnStart, RowWidth, ValidBit, BoolBit, Slot, ViewReads;
    assert Conforms(batch.columns[c], specs[c], batch.rows);
    assert Table(batch)[r][c] == CellOf(batch.columns[c], specs[c], batch.rows, r);
  }

  lemma TextNeed(batch: Batch, r: nat, c: nat)
    requires WellFormed(batch) && r < batch.rows && c < |batch.schema| && batch.columns[c].Strings?
    ensures batch.columns[c].validity.Some? ==> |batch.columns[c].validity.value| == batch.rows
    ensures var cell, text := Table(batch)[r][c], batch.columns[c].texts[r];
            if !IsValid(batch.columns[c], r) then cell.NullCell? && !IsLong(cell) && Need(cell) == 0
            else (cell.Utf8Cell? || cell.BinaryCell?) && cell.bytes == text && (IsLong(cell) <==> |text| > INLINE_LEN)
    ensures IsView(batch.schema[c].tag) && |batch.columns[c].texts| == batch.rows
  {
    assert Conforms(batch.columns[c], batch.schema[c], batch.rows);
    assert Table(batch)[r][c] == CellOf(batch.columns[c], batch.schema[c], batch.rows, r);
  }

  /** The first long value once one more cell is seen. */
  ghost function Later(first: Option<nat>, cell: Cell): Option<nat> {
    if first.Some? then first else if IsLong(cell) then Some(|cell.bytes|) else None
  }

  /** `all'` is `all` but for where payloads of new rows are. */
  ghost predicate Follows(all': RowEncoder.Committed, all: RowEncoder.Committed, kept: nat) {
    && all'.base == all.base && all'.nullBase == all.nullBase && all'.rows == all.rows
    && forall k: nat, c: nat :: k < kept ==> RowEncoder.StartOf(all', k, c) == RowEncoder.StartOf(all, k, c)
  }

  /** The clear bits of a run of validity bits are the nulls of its rows. */
  lemma {:induction false} NullsAreClear(batch: Batch, c: nat, start: nat, n: nat)
    requires WellFormed(batch) && c < |batch.schema| && start + n <= batch.rows
    ensures batch.columns[c].validity.Some? ==> |batch.columns[c].validity.value| == batch.rows
    ensures RowEncoder.NullsIn(Table(batch)[start..start + n], c)
            == if batch.columns[c].validity.None? then 0
                else CountFalse(batch.columns[c].validity.value[start..start + n])
  {
    var column, table := batch.columns[c], Table(batch);
    assert Conforms(column, batch.schema[c], batch.rows);
    hide Conforms;
    if n > 0 {
      NullsAreClear(batch, c, start, n - 1);
      assert table[start..start + n][..n - 1] == table[start..start + n - 1];
      if column.validity.Some? {
        assert column.validity.value[start..start + n][..n - 1] == column.validity.value[start..start + n - 1];
      }
      NullIsClear(batch, c, start + n - 1);
    }
  }

  lemma NullIsClear(batch: Batch, c: nat, r: nat)
    requires WellFormed(batch) && c < |batch.schema| && r < batch.rows
    ensures batch.columns[c].validity.Some? ==> |batch.columns[c].validity.value| == batch.rows
    ensures Table(batch)[r][c].NullCell? <==> !IsValid(batch.columns[c], r)
  {
    assert Conforms(batch.columns[c], batch.schema[c], batch.rows);
    assert Table(batch)[r][c] == CellOf(batch.columns[c], batch.schema[c], batch.rows, r);
  }

  /** One more column is counted. */
  lemma CountsColumn(block: seq<byte>, block': seq<byte>, specs: seq<ColumnSpec>, all: RowEncoder.Committed,
                     kept: nat, c: nat, delta: nat)
    requires RowEncoder.Shaped(all, specs) && kept <= |all.rows| && DescOffset(|specs|) <= |block| == |block'|
             && c < |specs|
    requires Counted(block, specs, all, kept, c) && delta == RowEncoder.NullsIn(all.rows[kept..], c)
    requires forall j: nat :: j < |specs| && j != c ==> DescAt(block', j) == DescAt(block, j)
    requires DescAt(block', c).nullCount == DescAt(block, c).nullCount + delta
    ensures Counted(block', specs, all, kept, c + 1)
  {
    hide DescAt;
    assert all.rows == all.rows[..kept] + all.rows[kept..];
    NullsSplit(all.rows[..kept], all.rows[kept..], c);
  }

  /** Storing a descriptor of column `c`. */
  lemma DescMoves(block: seq<byte>, specs: seq<ColumnSpec>, rows: nat, c: nat, at: nat, cursor: nat, d: ColumnDesc)
    requires c < |specs| && Holds(block, specs, rows) && DescOffset(|specs|) <= |block| && DescFits(d)
    ensures DescOffset(c) + |EncodeDesc(d)| <= |block|
    ensures var block' := Splice(block, DescOffset(c), EncodeDesc(d));
            && HeaderAt(block') == HeaderAt(block) && DescAt(block', c) == d
            && (forall j: nat :: j < |specs| && j != c ==> DescAt(block', j) == DescAt(block, j))
            && OnlyColumn(block, block', specs, rows, c, at, at, cursor, cursor)
  {
    PrefixHeld(block, specs, rows);
    hide ColumnStart, OnlyColumn, HeaderAt, DescAt, EncodeDesc, DescFits;
    DescStored(block, |specs|, c, d);
    OutsideFront(block, specs, rows, c, at, at, cursor, cursor, DescOffset(c), EncodeDesc(d));
  }

  /** The first value in the tail once row `i` of column `c` is seen, and once the column is. */
  lemma UptoNext(batch: seq<Row>, start: nat, k: nat, c: nat, i: nat)
    requires start + k <= |batch| && i < k && forall r :: 0 <= r < |batch| ==> c < |batch[r]|
    ensures Upto(batch, start, k, c, i + 1) == Later(Upto(batch, start, k, c, i), batch[start + i][c])
  {
  }

  /** No other value comes first once one did. */
  lemma UptoDecides(batch: seq<Row>, start: nat, k: nat, c: nat, i: nat, columns: nat)
    requires start + k <= |batch| && i <= k && c < columns && Rectangular(batch, columns)
    ensures Upto(batch, start, k, c, i).Some? ==> First(batch, start, k, columns) == Upto(batch, start, k, c, i)
  {
    FirstInStays(batch, start, c, i, k);
    FirstStays(batch, start, k, c + 1, columns);
    FirstStays(batch, start, k, c, columns);
  }

  /** The first long value of the batch is the one that fails. */
  lemma FirstFails(table: seq<Row>, start: nat, n: nat, c: nat, i: nat, columns: nat, room: int)
    requires start + n <= |table| && i < n && c < columns && Rectangular(table, columns)
    requires Upto(table, start, n, c, i).None? && IsLong(table[start + i][c])
    requires |table[start + i][c].bytes| > I32_MAX || room - |table[start + i][c].bytes| > I32_MAX
    ensures Unencodable(table, start, n, columns, room)
  {
    UptoNext(table, start, n, c, i);
    UptoDecides(table, start, n, c, i + 1, columns);
  }

  lemma DescGrows(block: seq<byte>, specs: seq<ColumnSpec>, c: nat, delta: nat)
    requires c < |specs| && DescOffset(|specs|) <= |block|
    ensures var d := DescAt(block, c);
            && d.nullCount <= U32_MAX
            && (d.nullCount + delta <= U32_MAX ==> DescFits(d.(nullCount := d.nullCount + delta)))
  {
    DecodedFits(block[DescOffset(c)..DescOffset(c) + DESC_LEN]);
    hide DecodeDesc;
  }

  lemma HeaderIs(block: seq<byte>, h: BlockHeader, specs: seq<ColumnSpec>, all: RowEncoder.Committed, kept: nat,
                 col: nat, i: nat)
    requires Progress(block, h, specs, all, kept, col, i)
    ensures |block| >= HEADER_LEN && HeaderAt(block) == h
  {
  }

  lemma PlainCell(batch: Batch, r: nat, c: nat)
    requires WellFormed(batch) && r < batch.rows && c < |batch.schema| && !batch.columns[c].Strings?
    ensures !IsLong(Table(batch)[r][c])
  {
    assert Conforms(batch.columns[c], batch.schema[c], batch.rows);
    assert Table(batch)[r][c] == CellOf(batch.columns[c], batch.schema[c], batch.rows, r);
  }

  /** A column without strings needs no tail. */
  lemma {:induction false} PlainColumn(table: seq<Row>, start: nat, n: nat, c: nat)
    requires start + n <= |table| && forall r :: 0 <= r < |table| ==> c < |table[r]| && !IsLong(table[r][c])
    ensures ColumnNeed(table, start, n, c) == 0 && FirstIn(table, start, c, n) == None
  {
    if n > 0 { PlainColumn(table, start, n - 1, c); }
  }

  lemma UptoEnds(table: seq<Row>, start: nat, n: nat, c: nat)
    requires start + n <= |table| && forall r :: 0 <= r < |table| ==> c < |table[r]|
    ensures Upto(table, start, n, c, 0) == First(table, start, n, c)
            && Upto(table, start, n, c, n) == First(table, start, n, c + 1)
  {
  }

  // ---- The encoder -----------------------------------------------------------------------------

  datatype EncodeError =
    | BatchSchemaMismatch | StartRowOutOfBounds | RowValueTooLarge | NeedOverflow | RowTooLargeForPage
    | UnexpectedFull | TailOverflow
    | ViewTooLong | OffsetTooLarge | CountOverflow

  datatype Outcome<T> = Good(value: T) | Bad(error: EncodeError)

  datatype AppendResult = AppendResult(rowsWritten: nat, full: bool)

  /** `k` is the longest prefix within `cap` whose tail bytes fit. */
  ghost predicate IsLongest(batch: seq<Row>, start: nat, cap: nat, tail: nat, k: nat)
    requires start + cap <= |batch|
  {
    && k <= cap && PrefixNeed(batch, start, k) <= tail
    && forall j: nat :: k < j <= cap ==> PrefixNeed(batch, start, j) > tail
  }

  lemma CellNeed(batch: Batch, r: nat, c: nat)
    requires WellFormed(batch) && r < batch.rows && c < |batch.schema|
    ensures var column := batch.columns[c];
            Need(RowOf(batch, r)[c]) == if column.Strings? && IsValid(column, r)
                && |column.texts[r]| > INLINE_LEN then |column.texts[r]| else 0
  {
  }

  /** A view into the tail, or the whole value, as the slot of a view column has it. */
  ghost predicate ViewHolds(block: seq<byte>, specs: seq<ColumnSpec>, rows: nat, c: nat, row: nat, text: seq<byte>,
                            start: nat)
    requires InRange(block, specs, rows, c, row)
  {
    ViewReads(block, ColumnStart(specs, rows, |specs|), Slot(block, specs, rows, c, row), text, start)
  }

  lemma PrefixKept(block: seq<byte>, n: nat, at: nat, bytes: seq<byte>)
    requires DescOffset(n) <= at && at + |bytes| <= |block|
    ensures HeaderAt(Splice(block, at, bytes)) == HeaderAt(block)
    ensures forall j: nat :: j < n ==> DescAt(Splice(block, at, bytes), j) == DescAt(block, j)
  {
    hide DecodeHeader, DecodeDesc;
    assert Splice(block, at, bytes)[..HEADER_LEN] == block[..HEADER_LEN];
    forall j: nat | j < n ensures DescAt(Splice(block, at, bytes), j) == DescAt(block, j) {
      SpliceApart(block, at, bytes, DescOffset(j), DescOffset(j) + DESC_LEN);
    }
  }

  lemma PrefixSame(block: seq<byte>, block': seq<byte>, n: nat, base: nat)
    requires |block'| == |block| && DescOffset(n) <= base <= |block|
             && forall i: nat :: i < base ==> block'[i] == block[i]
    ensures HeaderAt(block') == HeaderAt(block) && forall j: nat :: j < n ==> DescAt(block', j) == DescAt(block, j)
  {
    hide DecodeHeader, DecodeDesc;
    assert block'[..HEADER_LEN] == block[..HEADER_LEN];
    forall j: nat | j < n ensures DescAt(block', j) == DescAt(block, j) {
      assert block'[DescOffset(j)..DescOffset(j) + DESC_LEN] == block[DescOffset(j)..DescOffset(j) + DESC_LEN];
    }
  }

  /** Storing the header with another cursor. */
  lemma HeaderMoves(block: seq<byte>, h: BlockHeader, specs: seq<ColumnSpec>, c: nat, from: nat, to: nat, lo: nat,
                    hi: nat)
    requires c < |specs| && Holds(block, specs, h.maxRows) && DescOffset(|specs|) <= |block| && HeaderFits(h)
    ensures var block' := Splice(block, 0, EncodeHeader(h));
            && HeaderAt(block') == h && (forall j: nat :: j < |specs| ==> DescAt(block', j) == DescAt(block, j))
            && OnlyColumn(block, block', specs, h.maxRows, c, from, to, lo, hi)
  {
    hide ColumnStart, EncodeHeader, DecodeHeader, HeaderFits, OnlyColumn;
    HeaderStored(block, |specs|, h);
    OutsideFront(block, specs, h.maxRows, c, from, to, lo, hi, 0, EncodeHeader(h));
  }

  /** Storing a payload in the free tail. */
  lemma TailMoves(block: seq<byte>, specs: seq<ColumnSpec>, rows: nat, c: nat, from: nat, to: nat, lo: nat, hi: nat,
                  bytes: seq<byte>)
    requires c < |specs| && Holds(block, specs, rows) && ColumnStart(specs, rows, |specs|) <= lo
             && lo + |bytes| == hi <= |block|
    ensures var block' := Splice(block, lo, bytes);
            && HEADER_LEN <= DescOffset(|specs|) <= |block| && HeaderAt(block') == HeaderAt(block)
            && (forall j: nat :: j < |specs| ==> DescAt(block', j) == DescAt(block, j))
            && OnlyColumn(block, block', specs, rows, c, from, to, lo, hi) && block'[lo..hi] == bytes
  {
    hide ColumnStart, OnlyColumn;
    PrefixHeld(block, specs, rows);
    PrefixKept(block, |specs|, lo, bytes);
    OutsideFront(block, specs, rows, c, from, to, lo, hi, lo, bytes);
  }

  /** Storing a view in its slot. */
  lemma SlotMoves(block: seq<byte>, specs: seq<ColumnSpec>, rows: nat, c: nat, row: nat, lo: nat, hi: nat,
                  slot: seq<byte>)
    requires InRange(block, specs, rows, c, row) && !specs[c].tag.Boolean? && |slot| == RowWidth(specs[c].tag)
    requires ColumnStart(specs, rows, |specs|) <= hi <= |block|
    ensures SlotStart(specs, rows, c, row) + |slot| <= |block|
    ensures var block' := Splice(block, SlotStart(specs, rows, c, row), slot);
            && HEADER_LEN <= DescOffset(|specs|) <= |block| && HeaderAt(block') == HeaderAt(block)
            && (forall j: nat :: j < |specs| ==> DescAt(block', j) == DescAt(block, j))
            && OnlyColumn(block, block', specs, rows, c, row, row + 1, lo, hi)
            && FrontOf(block', specs, rows, c, row) == FrontOf(block, specs, rows, c, row).(slot := slot)
            && (forall from: nat :: ColumnStart(specs, rows, |specs|) <= from <= hi ==>
                  block'[from..hi] == block[from..hi])
  {
    hide ColumnStart, OnlyColumn, RowWidth, FrontOf;
    assert Concat([slot]) == slot by { assert [slot][..0] == []; }
    SlotsWritten(block, specs, rows, c, row, row + 1, [slot], lo, hi);
    CellPlaces(specs, rows, c, row);
    PrefixHeld(block, specs, rows);
    PrefixKept(block, |specs|, SlotStart(specs, rows, c, row), slot);
  }

  lemma FreshView(block: seq<byte>, specs: seq<ColumnSpec>, rows: nat, c: nat, row: nat, text: seq<byte>, start: nat)
    requires InRange(block, specs, rows, c, row) && IsView(specs[c].tag)
    requires |text| <= INLINE_LEN ==> Slot(block, specs, rows, c, row) == EncodeView(InlineView(text))
    requires |text| > INLINE_LEN ==>
               && |text| <= I32_MAX && ColumnStart(specs, rows, |specs|) <= start
               && start - ColumnStart(specs, rows, |specs|) <= I32_MAX
               && start + |text| <= |block| && block[start..start + |text|] == text
               && Slot(block, specs, rows, c, row)
                   == EncodeView(OutlineView(text, start - ColumnStart(specs, rows, |specs|)))
    ensures ViewHolds(block, specs, rows, c, row, text, start)
  {
    hide ColumnStart, Slot, EncodeView, DecodeView, InlineView, OutlineView;
    if |text| <= INLINE_LEN { ViewRoundTrip(InlineView(text)); }
    else { ViewRoundTrip(OutlineView(text, start - ColumnStart(specs, rows, |specs|))); }
  }

  class Encoder {
    const schema: seq<ColumnSpec>
    const payload: array<byte>
    var header: BlockHeader
    ghost var done: RowEncoder.Committed

    /** The same as for the row encoder, with the header in the block up to date. */
    ghost predicate Valid()
      reads this, payload
    {
      RowEncoder.EncoderOk(payload[..], header, schema, done) && payload.Length >= HEADER_LEN
          && HeaderAt(payload[..]) == header
    }

    /** `BatchPageEncoder::new` on a block laid out for the schema. */
    constructor (schema: seq<ColumnSpec>, payload: array<byte>)
      requires payload.Length >= HEADER_LEN && LaidOut(payload[..], HeaderAt(payload[..]), schema)
      ensures Valid() && this.payload == payload && this.schema == schema && header == HeaderAt(payload[..])
      ensures done.rows == [] && done.base == header.rowCount && done.nullBase == RowEncoder.Counts(payload[..], schema)
    {
      RowEncoder.Started(payload[..], HeaderAt(payload[..]), schema);
      this.schema, this.payload, header := schema, payload, HeaderAt(payload[..]);
      done := RowEncoder.Committed(HeaderAt(payload[..]).rowCount, RowEncoder.Counts(payload[..], schema), [], map[]);
    }

    // ---- Planning ------------------------------------------------------------------------------

    /** `row_tail_need`. */
    method RowTailNeed(batch: Batch, row: nat) returns (r: Outcome<nat>)
      requires WellFormed(batch) && row < batch.rows
      ensures r.Good? <==> RowNeed(RowOf(batch, row), |batch.schema|) <= U32_MAX
      ensures r.Good? ==> r.value == RowNeed(RowOf(batch, row), |batch.schema|)
      ensures r.Bad? ==> r.error == RowValueTooLarge || r.error == NeedOverflow
    {
      hide RowOf, CellOf, Need;
      var need: nat := 0;
      ghost var cells := RowOf(batch, row);
      for c := 0 to |batch.columns|
        invariant need == RowNeed(cells, c) <= U32_MAX
      {
        RowGrows(cells, c + 1, |cells|);
        CellNeed(batch, row, c);
        var column := batch.columns[c];
        if column.Strings? && IsValid(column, row) && |column.texts[row]| > INLINE_LEN {
          var extra := |column.texts[row]|;
          if extra > U32_MAX { return Bad(RowValueTooLarge); }
          if need + extra > U32_MAX { return Bad(NeedOverflow); }
          need := need + extra;
        }
      }
      r := Good(need);
    }

    /** `rows_that_fit`: the longest prefix whose rows fit one after the other. */
    method RowsThatFit(batch: Batch, start: nat, cap: nat) returns (r: Outcome<nat>, ghost fit: nat)
      requires WellFormed(batch) && start + cap <= batch.rows && header.poolBase <= header.tailCursor <= U32_MAX
      ensures IsLongest(Table(batch), start, cap, header.tailCursor - header.poolBase, fit)
      ensures r.Bad? <==> fit < cap && RowNeed(Table(batch)[start + fit], |batch.schema|) > U32_MAX
      ensures r.Bad? ==> r.error == RowValueTooLarge || r.error == NeedOverflow
      ensures r.Good? ==> r.value == fit
    {
      hide RowNeed;
      ghost var table := Table(batch);
      var room := header.tailCursor - header.poolBase;
      var remaining: int, rows: nat := room, 0;
      while rows < cap
        invariant rows <= cap && remaining == room - PrefixNeed(table, start, rows) && 0 <= remaining
      {
        var need := RowTailNeed(batch, start + rows);
        assert PrefixNeed(table, start, rows + 1)
               == PrefixNeed(table, start, rows) + RowNeed(table[start + rows], |batch.schema|);
        if need.Bad? || need.value > remaining {
          fit := rows;
          forall j: nat | rows < j <= cap ensures PrefixNeed(table, start, j) > room {
            PrefixGrows(table, start, rows + 1, j);
          }
          return if need.Bad? then Bad(need.error) else Good(rows), rows;
        }
        remaining, rows := remaining - need.value, rows + 1;
      }
      r, fit := Good(rows), rows;
    }

    // ---- Writing ----------------------------------------------------------------------------------

    /** The block is in shape for a write to row `row` of column `c`. */
    ghost predicate Ready(c: nat, row: nat)
      reads this, payload
    {
      && LaidOut(payload[..], header, schema) && HeaderFits(header) && payload.Length >= HEADER_LEN
      && HeaderAt(payload[..]) == header
      && InRange(payload[..], schema, header.maxRows, c, row)
    }

    lemma ReadyFacts(c: nat, row: nat)
      requires Ready(c, row)
      ensures header.poolBase
              == ColumnStart(schema, header.maxRows,
                             |schema|) <= header.tailCursor <= header.blockSize <= payload.Length
      ensures header.blockSize <= U32_MAX && HEADER_LEN <= DescOffset(|schema|) <= payload.Length
      ensures forall cursor: nat :: header.poolBase <= cursor <= header.tailCursor ==>
                HeaderFits(header.(tailCursor := cursor))
      ensures DescPlanned(DescAt(payload[..], c), schema, header.maxRows, c) && HeaderAt(payload[..]) == header
    {
      hide ColumnStart;
    }

    /** What every write to a cell keeps. */
    twostate predicate Steady()
      reads this, payload
    {
      && header == old(header).(tailCursor := header.tailCursor)
      && header.poolBase <= header.tailCursor <= old(header).tailCursor
      && HEADER_LEN <= DescOffset(|schema|) <= payload.Length && HeaderAt(payload[..]) == header
      && (forall j: nat :: j < |schema| ==> DescAt(payload[..], j) == DescAt(old(payload[..]), j))
    }

    /** `write_view_value`: short values go to their slot, long ones reserve tail first. */
    method WriteViewValue(c: nat, row: nat, text: seq<byte>) returns (error: Option<EncodeError>)
      requires Ready(c, row) && IsView(schema[c].tag)
      modifies payload, this`header
      ensures Steady()
      ensures error == Some(RowValueTooLarge) <==> |text| > U32_MAX
      ensures error == Some(TailOverflow) <==> INLINE_LEN < |text| <= U32_MAX && |text| > old(header).tailCursor
      ensures error == Some(UnexpectedFull) <==>
                INLINE_LEN < |text| <= old(header).tailCursor && old(header).tailCursor - |text| < header.poolBase
      ensures error == Some(ViewTooLong) <==> |text| > I32_MAX && |text| <= old(header).tailCursor - header.poolBase
      ensures error == Some(OffsetTooLarge) <==>
                INLINE_LEN < |text| <= I32_MAX && old(header).tailCursor - |text| - header.poolBase > I32_MAX
      ensures error.Some? ==>
                error.value in {RowValueTooLarge, TailOverflow, UnexpectedFull, ViewTooLong, OffsetTooLarge}
      ensures error.None? ==> header.tailCursor == old(header).tailCursor - if |text| > INLINE_LEN then |text| else 0
      ensures InRange(old(payload[..]), schema, header.maxRows, c, row)
              && InRange(payload[..], schema, header.maxRows, c, row)
      ensures error.None? ==>
                && ViewHolds(payload[..], schema, header.maxRows, c, row, text, header.tailCursor)
                && FrontOf(payload[..], schema, header.maxRows, c, row).valid
                    == FrontOf(old(payload[..]), schema, header.maxRows, c, row).valid
                && OnlyColumn(old(payload[..]), payload[..], schema, header.maxRows, c, row, row + 1,
                              header.tailCursor, old(header).tailCursor)
      ensures error.Some? ==>
                OnlyColumn(old(payload[..]), payload[..], schema, header.maxRows, c, row, row, header.tailCursor,
                           old(header).tailCursor)
    {
      hide ColumnStart, LaidOut, OnlyColumn, FrontOf, EncodeView, InlineView, OutlineView, DescAt, HeaderAt,
          ViewHolds, HeaderFits, DescPlanned, Slot;
      ReadyFacts(c, row);
      ghost var b0, rows, hi := payload[..], header.maxRows, header.tailCursor;
      OnlyColumnSelf(b0, schema, rows, c, row, row, hi, hi);
      if |text| <= INLINE_LEN {
        StoreSlot(c, row, EncodeView(InlineView(text)), hi);
        FreshSlot(payload[..], b0, c, row, EncodeView(InlineView(text)));
        FreshView(payload[..], schema, rows, c, row, text, hi);
        return None;
      }
      if |text| > U32_MAX { return Some(RowValueTooLarge); }
      if |text| > header.tailCursor { return Some(TailOverflow); }
      var start := header.tailCursor - |text|;
      if start < header.poolBase { return Some(UnexpectedFull); }
      Reserve(c, row, text);
      ghost var b2 := payload[..];
      if |text| > I32_MAX { return Some(ViewTooLong); }
      if start - header.poolBase > I32_MAX { return Some(OffsetTooLarge); }
      StoreSlot(c, row, EncodeView(OutlineView(text, start - header.poolBase)), hi);
      assert payload[..][start..start + |text|] == payload[start..hi];
      FreshSlot(payload[..], b2, c, row, EncodeView(OutlineView(text, start - header.poolBase)));
      FreshView(payload[..], schema, rows, c, row, text, start);
      Widened(b0, b2, c, row, start, hi);
      OnlyColumnTrans(b0, b2, payload[..], schema, rows, c, row, row + 1, start, hi);
      error := None;
    }

    /** `reserve_tail` with room for the bytes, and the bytes copied there. */
    method Reserve(c: nat, row: nat, text: seq<byte>)
      requires Ready(c, row) && header.poolBase + |text| <= header.tailCursor
      modifies payload, this`header
      ensures Steady() && header.tailCursor == old(header).tailCursor - |text|
      ensures InRange(old(payload[..]), schema, header.maxRows, c, row)
              && InRange(payload[..], schema, header.maxRows, c, row)
      ensures OnlyColumn(old(payload[..]), payload[..], schema, header.maxRows, c, row, row, header.tailCursor,
                         old(header).tailCursor)
      ensures header.tailCursor + |text| <= payload.Length
              && payload[header.tailCursor..header.tailCursor + |text|] == text
    {
      hide ColumnStart, LaidOut, OnlyColumn, EncodeHeader, DescAt, HeaderAt, HeaderFits, DescPlanned;
      ReadyFacts(c, row);
      ghost var b0, rows, hi := payload[..], header.maxRows, header.tailCursor;
      var start := header.tailCursor - |text|;
      header := header.(tailCursor := start);
      HeaderMoves(b0, header, schema, c, row, row, start, hi);
      Store(payload, 0, EncodeHeader(header));
      ghost var b1 := payload[..];
      TailMoves(b1, schema, rows, c, row, row, start, hi, text);
      Store(payload, start, text);
      OnlyColumnTrans(b0, b1, payload[..], schema, rows, c, row, row, start, hi);
      assert payload[..][start..hi] == payload[start..hi];
    }

    lemma Widened(b0: seq<byte>, b1: seq<byte>, c: nat, row: nat, lo: nat, hi: nat)
      requires InRange(b0, schema, header.maxRows, c, row)
               && OnlyColumn(b0, b1, schema, header.maxRows, c, row, row, lo, hi)
      ensures OnlyColumn(b0, b1, schema, header.maxRows, c, row, row + 1, lo, hi)
      ensures |b1| == |b0| && FrontOf(b1, schema, header.maxRows, c, row) == FrontOf(b0, schema, header.maxRows, c, row)
    {
      hide ColumnStart, FrontOf;
    }

    lemma FreshSlot(block': seq<byte>, block: seq<byte>, c: nat, row: nat, slot: seq<byte>)
      requires InRange(block, schema, header.maxRows, c, row) && |block'| == |block|
      requires FrontOf(block', schema, header.maxRows, c, row)
               == FrontOf(block, schema, header.maxRows, c, row).(slot := slot)
      ensures Slot(block', schema, header.maxRows, c, row) == slot
    {
    }

    /** A view goes to its slot. */
    method StoreSlot(c: nat, row: nat, slot: seq<byte>, ghost hi: nat)
      requires InRange(payload[..], schema, header.maxRows, c, row) && IsView(schema[c].tag) && |slot| == VIEW_LEN
      requires DescOffset(|schema|) <= payload.Length && DescPlanned(DescAt(payload[..], c), schema, header.maxRows, c)
      requires header.poolBase
               == ColumnStart(schema, header.maxRows, |schema|) <= header.tailCursor <= hi <= payload.Length
      modifies payload
      ensures HEADER_LEN <= DescOffset(|schema|) && HeaderAt(payload[..]) == HeaderAt(old(payload[..]))
      ensures forall j: nat :: j < |schema| ==> DescAt(payload[..], j) == DescAt(old(payload[..]), j)
      ensures InRange(payload[..], schema, header.maxRows, c, row)
      ensures FrontOf(payload[..], schema, header.maxRows, c, row)
              == FrontOf(old(payload[..]), schema, header.maxRows, c, row).(slot := slot)
      ensures OnlyColumn(old(payload[..]), payload[..], schema, header.maxRows, c, row, row + 1, header.tailCursor, hi)
      ensures payload[header.tailCursor..hi] == old(payload[header.tailCursor..hi])
    {
      hide ColumnStart, OnlyColumn, FrontOf, DecodeDesc, DecodeHeader;
      SlotMoves(payload[..], schema, header.maxRows, c, row, header.tailCursor, hi, slot);
      var d := DescAt(payload[..], c);
      assert d.valuesOff + row * VIEW_LEN == SlotStart(schema, header.maxRows, c, row);
      assert payload[..][header.tailCursor..hi] == payload[header.tailCursor..hi];
      Store(payload, d.valuesOff + row * VIEW_LEN, slot);
      assert payload[..][header.tailCursor..hi] == payload[header.tailCursor..hi];
    }

    // ---- Columns ----------------------------------------------------------------------------------

    /** The batch under construction: cells in place, and null counts of the columns before `col` up to date. */
    ghost predicate At(all: RowEncoder.Committed, kept: nat, col: nat, i: nat)
      reads this, payload
    {
      && payload.Length >= HEADER_LEN && Progress(payload[..], header, schema, all, kept, col, i)
      && Counted(payload[..], schema, all, kept, col)
    }

    lemma AtFacts(all: RowEncoder.Committed, kept: nat, col: nat, i: nat, c: nat, row: nat)
      requires At(all, kept, col, i) && c < |schema| && row < header.maxRows
      ensures Ready(c, row) && RowEncoder.Shaped(all, schema) && kept <= |all.rows|
              && header.rowCount == all.base + kept
      ensures all.base + |all.rows| <= header.maxRows && DescOffset(|schema|) <= payload.Length
    {
      FramedFacts(payload[..], header, schema, all, kept);
      hide LaidOut, Reads, Separate, ColumnStart, HeaderFits;
    }

    /** The cells of `col` from row `from` on have their validity bits, if the column has any. */
    ghost predicate Marked(all: RowEncoder.Committed, from: nat, col: nat)
      requires RowEncoder.Shaped(all, schema) && col < |schema| && Holds(payload[..], schema, header.maxRows)
      requires all.base + |all.rows| <= header.maxRows
      reads this, payload
    {
      schema[col].nullable ==>
        forall k: nat :: from <= k < |all.rows| ==>
          FrontOf(payload[..], schema, header.maxRows, col, all.base + k).valid == !all.rows[k][col].NullCell?
    }

    /** The validity bits of the run are the given ones. */
    twostate predicate BitsSet(c: nat, bits: seq<bool>)
      reads this, payload
    {
      && InRange(old(payload[..]), schema, header.maxRows, c, header.rowCount) && |payload[..]| == |old(payload[..])|
      && header.rowCount + |bits| <= header.maxRows
      && OnlyColumn(old(payload[..]), payload[..], schema, header.maxRows, c, header.rowCount, header.rowCount + |bits|,
                    header.tailCursor, header.tailCursor)
      && forall r: nat :: header.rowCount <= r < header.rowCount + |bits| ==>
           FrontOf(payload[..], schema, header.maxRows, c, r).valid == bits[r - header.rowCount]
    }

    /** The null buffer is copied. */
    method CopyMarks(c: nat, bits: seq<bool>) returns (nulls: nat)
      requires Ready(c, header.rowCount) && header.rowCount + |bits| <= header.maxRows
      modifies payload
      ensures Steady() && BitsSet(c, bits) && nulls == CountFalse(bits)
    {
      hide ColumnStart, LaidOut, OnlyColumn, DescAt, HeaderAt, HeaderFits, DescPlanned, BitsWritten;
      ReadyFacts(c, header.rowCount);
      ghost var b0, rows, to := payload[..], header.maxRows, header.rowCount + |bits|;
      var off := ValidityAt(c);
      BitmapFits(payload[..], schema, rows, c);
      nulls := CopyBits(payload, off, header.maxRows, header.rowCount, bits);
      BitsOutside(b0, payload[..], off, rows, header.rowCount, to, bits, |schema|);
      ValidityWritten(b0, payload[..], schema, rows, c, header.rowCount, to, bits, header.tailCursor,
                      header.tailCursor);
    }

    /** Without a null buffer every row is valid. */
    method FillMarks(c: nat, n: nat)
      requires Ready(c, header.rowCount) && header.rowCount + n <= header.maxRows
      modifies payload
      ensures Steady() && BitsSet(c, Trues(n))
    {
      hide ColumnStart, LaidOut, OnlyColumn, DescAt, HeaderAt, HeaderFits, DescPlanned, BitsWritten, BitsFilled;
      ReadyFacts(c, header.rowCount);
      ghost var b0, rows, to := payload[..], header.maxRows, header.rowCount + n;
      var off := ValidityAt(c);
      BitmapFits(payload[..], schema, rows, c);
      LastBit(off, header.rowCount, n, rows, payload.Length);
      FillBitsTrue(payload, off, header.rowCount, n);
      FilledIsWritten(b0, payload[..], off, rows, header.rowCount, to);
      BitsOutside(b0, payload[..], off, rows, header.rowCount, to, Trues(n), |schema|);
      ValidityWritten(b0, payload[..], schema, rows, c, header.rowCount, to, Trues(n), header.tailCursor,
                      header.tailCursor);
    }

    /** `copy_validity_bitmap`. */
    method CopyValidity(c: nat, column: Column, ghost size: nat, start: nat, n: nat) returns (nulls: nat)
      requires Ready(c, header.rowCount) && Conforms(column, schema[c], size) && start + n <= size
               && header.rowCount + n <= header.maxRows
      modifies payload
      ensures Steady() && InRange(payload[..], schema, header.maxRows, c, header.rowCount)
      ensures InRange(old(payload[..]), schema, header.maxRows, c, header.rowCount)
      ensures OnlyColumn(old(payload[..]), payload[..], schema, header.maxRows, c, header.rowCount, header.rowCount + n,
                         header.tailCursor, header.tailCursor)
      ensures forall r: nat :: header.rowCount <= r < header.rowCount + n && schema[c].nullable ==>
                FrontOf(payload[..], schema, header.maxRows, c, r).valid == IsValid(column, start + r - header.rowCount)
      ensures nulls == if column.validity.None? then 0 else CountFalse(column.validity.value[start..start + n])
    {
      hide ColumnStart, LaidOut, OnlyColumn, DescAt, HeaderAt, HeaderFits, DescPlanned, FrontOf;
      ReadyFacts(c, header.rowCount);
      OnlyColumnSelf(payload[..], schema, header.maxRows, c, header.rowCount, header.rowCount + n, header.tailCursor,
                     header.tailCursor);
      var off := ValidityAt(c);
      if !IsNullable(DescAt(payload[..], c).flags) {
        if column.validity.Some? { AllValid(column.validity.value[start..start + n]); }
        return 0;
      }
      if column.validity.Some? {
        nulls := CopyMarks(c, column.validity.value[start..start + n]);
      } else {
        FillMarks(c, n);
        nulls := 0;
      }
    }

    /** The column's validity offset, from its descriptor. */
    method ValidityAt(c: nat) returns (off: nat)
      requires Ready(c, header.rowCount)
      ensures off == ValidityOff(schema, header.maxRows, c) && DescOffset(|schema|) <= off
      ensures IsNullable(DescAt(payload[..], c).flags) == schema[c].nullable
    {
      CellPlaces(schema, header.maxRows, c, header.rowCount);
      assert DescPlanned(DescAt(payload[..], c), schema, header.maxRows, c);
      hide ColumnStart, HeaderFits;
      off := DescAt(payload[..], c).validityOff;
    }

    method ValuesAt(c: nat) returns (off: nat)
      requires Ready(c, header.rowCount)
      ensures off == ValuesOff(schema, header.maxRows, c) && DescOffset(|schema|) <= off
    {
      CellPlaces(schema, header.maxRows, c, header.rowCount);
      assert DescPlanned(DescAt(payload[..], c), schema, header.maxRows, c);
      hide ColumnStart, HeaderFits;
      off := DescAt(payload[..], c).valuesOff;
    }

    /** The values of `write_boolean_column`. */
    method WriteBools(c: nat, bits: seq<bool>)
      requires Ready(c, header.rowCount) && schema[c].tag.Boolean? && header.rowCount + |bits| <= header.maxRows
      modifies payload
      ensures Steady() && InRange(payload[..], schema, header.maxRows, c, header.rowCount)
      ensures InRange(old(payload[..]), schema, header.maxRows, c, header.rowCount)
      ensures OnlyColumn(old(payload[..]), payload[..], schema, header.maxRows, c, header.rowCount,
                         header.rowCount + |bits|,
                         header.tailCursor, header.tailCursor)
      ensures forall r: nat :: header.rowCount <= r < header.rowCount + |bits| ==>
                FrontOf(payload[..], schema, header.maxRows, c, r)
                == FrontOf(old(payload[..]), schema, header.maxRows, c, r).(value := bits[r - header.rowCount])
    {
      hide ColumnStart, LaidOut, OnlyColumn, DescAt, HeaderAt, HeaderFits, DescPlanned, BitsWritten, FrontOf;
      ReadyFacts(c, header.rowCount);
      ghost var b0, rows, to := payload[..], header.maxRows, header.rowCount + |bits|;
      var off := ValuesAt(c);
      BoolsFit(payload[..], schema, rows, c);
      var _ := CopyBits(payload, off, header.maxRows, header.rowCount, bits);
      BitsOutside(b0, payload[..], off, rows, header.rowCount, to, bits, |schema|);
      BoolsWritten(b0, payload[..], schema, rows, c, header.rowCount, to, bits, header.tailCursor, header.tailCursor);
    }

    /** The values of `write_primitive_column` and `write_uuid_column`: one copy of all slots. */
    method WriteSlots(c: nat, run: seq<seq<byte>>)
      requires Ready(c, header.rowCount) && !schema[c].tag.Boolean? && header.rowCount + |run| <= header.maxRows
      requires forall i :: 0 <= i < |run| ==> |run[i]| == RowWidth(schema[c].tag)
      modifies payload
      ensures Steady() && InRange(payload[..], schema, header.maxRows, c, header.rowCount)
      ensures InRange(old(payload[..]), schema, header.maxRows, c, header.rowCount)
      ensures OnlyColumn(old(payload[..]), payload[..], schema, header.maxRows, c, header.rowCount,
                         header.rowCount + |run|,
                         header.tailCursor, header.tailCursor)
      ensures forall r: nat :: header.rowCount <= r < header.rowCount + |run| ==>
                FrontOf(payload[..], schema, header.maxRows, c, r)
                == FrontOf(old(payload[..]), schema, header.maxRows, c, r).(slot := run[r - header.rowCount])
    {
      hide ColumnStart, LaidOut, OnlyColumn, DescAt, HeaderAt, HeaderFits, DescPlanned, FrontOf, RowWidth, Concat;
      ReadyFacts(c, header.rowCount);
      ghost var rows := header.maxRows;
      var off := ValuesAt(c);
      SlotsWritten(payload[..], schema, rows, c, header.rowCount, header.rowCount + |run|, run, header.tailCursor,
                   header.tailCursor);
      var first := FirstSlot(c, off);
      PrefixKept(payload[..], |schema|, first, Concat(run));
      Store(payload, first, Concat(run));
    }

    method FirstSlot(c: nat, off: nat) returns (first: nat)
      requires c < |schema| && off == ValuesOff(schema, header.maxRows, c)
      ensures first == SlotStart(schema, header.maxRows, c, header.rowCount) >= off
    {
      hide ColumnStart, RowWidth;
      first := off + header.rowCount * RowWidth(schema[c].tag);
    }

    /** The values of a column without tail bytes. */
    method WriteValues(c: nat, column: Column, ghost size: nat, start: nat, n: nat)
      requires Ready(c, header.rowCount) && Conforms(column, schema[c], size) && start + n <= size
               && header.rowCount + n <= header.maxRows
      requires !column.Strings?
      modifies payload
      ensures Steady() && InRange(payload[..], schema, header.maxRows, c, header.rowCount)
      ensures InRange(old(payload[..]), schema, header.maxRows, c, header.rowCount)
      ensures OnlyColumn(old(payload[..]), payload[..], schema, header.maxRows, c, header.rowCount, header.rowCount + n,
                         header.tailCursor, header.tailCursor)
      ensures forall r: nat :: header.rowCount <= r < header.rowCount + n ==>
                FrontOf(payload[..], schema, header.maxRows, c, r)
                == (var front := FrontOf(old(payload[..]), schema, header.maxRows, c, r);
                    if column.Bools? then front.(value := column.values[start + r - header.rowCount])
                    else front.(slot := column.slots[start + r - header.rowCount]))
    {
      hide ColumnStart, LaidOut, OnlyColumn, DescAt, HeaderAt, HeaderFits, FrontOf, RowWidth;
      if column.Bools? {
        WriteBools(c, column.values[start..start + n]);
      } else {
        WriteSlots(c, column.slots[start..start + n]);
      }
    }

    /** A column whose values need no tail is in place once bits and values are. */
    method WritePlain(batch: Batch, c: nat, start: nat, n: nat, ghost all: RowEncoder.Committed, ghost kept: nat)
      requires At(all, kept, c, 0) && c < |schema| && n > 0 && |all.rows| == kept + n
               && header.rowCount < header.maxRows
      requires WellFormed(batch) && batch.schema == schema && start + n <= batch.rows && !batch.columns[c].Strings?
      requires all.rows[kept..] == Table(batch)[start..start + n]
      requires RowEncoder.Shaped(all, schema) && Holds(payload[..], schema, header.maxRows)
               && all.base + |all.rows| <= header.maxRows
      requires Marked(all, kept, c)
      modifies payload
      ensures payload.Length >= HEADER_LEN && Progress(payload[..], header, schema, all, kept, c + 1, 0)
      ensures Counted(payload[..], schema, all, kept, c)
    {
      hide Progress, Counted, OnlyColumn, FrontOf, Conforms, CellOf, RowOf, Table, Ready, HeaderAt, DescAt, ColumnStart;
      AtFacts(all, kept, c, 0, c, header.rowCount);
      ghost var b0 := payload[..];
      WriteValues(c, batch.columns[c], batch.rows, start, n);
      ProgressKept(b0, payload[..], header, schema, all, kept, c, 0, c, header.rowCount, header.rowCount + n,
                   header.tailCursor);
      CountedKept(b0, payload[..], all, kept, c);
      forall k: nat | kept <= k < |all.rows|
        ensures !IsLong(all.rows[k][c])
        ensures CellReads(payload[..], schema, header.maxRows, c, all.base + k, all.rows[k][c],
                          RowEncoder.StartOf(all, k, c))
      {
        var r := start + (k - kept);
        assert all.rows[k] == all.rows[kept..][k - kept] == Table(batch)[start..start + n][k - kept] == Table(batch)[r];
        PlainReads(b0, payload[..], schema, header.maxRows, c, all.base + k, batch, r, RowEncoder.StartOf(all, k, c));
      }
      ProgressColumn(payload[..], header, schema, all, kept, c);
    }

    lemma CountedKept(block: seq<byte>, block': seq<byte>, all: RowEncoder.Committed, kept: nat, col: nat)
      requires RowEncoder.Shaped(all, schema) && kept <= |all.rows| && DescOffset(|schema|) <= |block| == |block'|
      requires Counted(block, schema, all, kept, col)
               && forall j: nat :: j < |schema| ==> DescAt(block', j) == DescAt(block, j)
      ensures Counted(block', schema, all, kept, col)
    {
      hide DescAt;
    }

    /** Where the tail stands: untouched, or below a first long value whose length and offset fit 31 bits. */
    ghost predicate Tracked(first: Option<nat>, top: nat)
      reads this
    {
      if first.None? then header.tailCursor == top
      else
        && first.value <= I32_MAX && top - header.poolBase - first.value <= I32_MAX
        && header.tailCursor - header.poolBase <= I32_MAX
    }

    /** What every step of a column needs to know of the batch. */
    ghost predicate Serves(batch: Batch, table: seq<Row>, c: nat, start: nat, n: nat, all: RowEncoder.Committed,
                           kept: nat)
      reads this, payload
    {
      && c < |schema| && n > 0 && |all.rows| == kept + n && WellFormed(batch) && batch.schema == schema
      && start + n <= batch.rows
      && table == Table(batch) && Rectangular(table, |schema|) && all.rows[kept..] == table[start..start + n]
      && RowEncoder.Shaped(all, schema)
      && Holds(payload[..], schema, header.maxRows) && all.base + |all.rows| <= header.maxRows
      && header.rowCount == all.base + kept
    }

    lemma ServesRow(batch: Batch, table: seq<Row>, c: nat, start: nat, n: nat, all: RowEncoder.Committed, kept: nat,
                    i: nat)
      requires Serves(batch, table, c, start, n, all, kept) && i < n
      ensures all.rows[kept + i] == table[start + i] && table == Table(batch) && |table| == batch.rows
              && Rectangular(table, |schema|)
    {
      assert all.rows[kept + i] == all.rows[kept..][i] == table[start..start + n][i];
    }

    /** One row of `write_plain_bytes_column` and `write_view_bytes_column`. */
    method WriteText(batch: Batch, ghost table: seq<Row>, c: nat, start: nat, i: nat, ghost n: nat,
                     ghost all: RowEncoder.Committed, ghost kept: nat,
                     ghost first: Option<nat>, ghost top: nat)
                         returns (error: Option<EncodeError>, ghost all': RowEncoder.Committed)
      requires Serves(batch, table, c, start, n, all, kept) && i < n && batch.columns[c].Strings? && At(all, kept, c, i)
      requires Marked(all, kept + i, c) && Tracked(first, top)
      requires header.poolBase + Need(all.rows[kept + i][c]) <= header.tailCursor <= top
      modifies payload, this`header
      ensures header == old(header).(tailCursor := header.tailCursor) && header.tailCursor <= old(header).tailCursor
      ensures Serves(batch, table, c, start, n, all', kept) && Follows(all', all, kept)
      ensures error.None? ==>
                && At(all', kept, c, i + 1) && Marked(all', kept + i + 1, c)
                && Tracked(Later(first, all.rows[kept + i][c]), top)
                && header.tailCursor == old(header).tailCursor - Need(all.rows[kept + i][c])
      ensures error.Some? ==>
                && At(all', kept, c, i) && (error.value == ViewTooLong || error.value == OffsetTooLarge)
                && first.None? && IsLong(all.rows[kept + i][c])
                && (|all.rows[kept + i][c].bytes| > I32_MAX
                    || top - header.poolBase - |all.rows[kept + i][c].bytes| > I32_MAX)
    {
      hide At, Conforms, Table, Follows, Marked;
      ServesRow(batch, table, c, start, n, all, kept, i);
      TextNeed(batch, start + i, c);
      if !IsValid(batch.columns[c], start + i) {
        all' := SkipText(batch, table, c, start, i, n, all, kept);
        return None, all';
      }
      error, all' := StoreText(batch, table, c, start, i, n, all, kept);
    }

    /** A null takes no slot and no tail; its bit is in already. */
    lemma SkipText(batch: Batch, table: seq<Row>, c: nat, start: nat, i: nat, n: nat, all: RowEncoder.Committed,
                   kept: nat)
        returns (all': RowEncoder.Committed)
      requires Serves(batch, table, c, start, n, all, kept) && i < n && batch.columns[c].Strings? && At(all, kept, c, i)
      requires Marked(all, kept + i, c) && all.rows[kept + i][c].NullCell?
      ensures Serves(batch, table, c, start, n, all', kept) && Follows(all', all, kept)
      ensures At(all', kept, c, i + 1) && Marked(all', kept + i + 1, c)
    {
      hide Progress, Counted, OnlyColumn, FrontOf, Conforms, Table, Ready, HeaderAt, DescAt, ColumnStart, ViewHolds,
          CellReads, Holds;
      var k, row := kept + i, header.rowCount + i;
      ServesRow(batch, table, c, start, n, all, kept, i);
      AtFacts(all, kept, c, i, c, row);
      ReadyFacts(c, row);
      TextNeed(batch, start + i, c);
      TextReads(payload[..], schema, header.maxRows, c, row, batch, start + i, header.tailCursor);
      OnlyColumnSelf(payload[..], schema, header.maxRows, c, row, row + 1, header.tailCursor, header.tailCursor);
      assert header.(tailCursor := header.tailCursor) == header;
      ProgressCell(payload[..], payload[..], header, schema, all, kept, c, i, header.tailCursor);
      all' := Placed(all, k, c, header.tailCursor);
      PlacedFollows(all, kept, k, c, header.tailCursor);
      CountedPlaced(payload[..], payload[..], all, kept, k, c, header.tailCursor);
    }

    /** A string that is not null goes to its slot and, if long, to the tail. */
    method StoreText(batch: Batch, ghost table: seq<Row>, c: nat, start: nat, i: nat, ghost n: nat,
                     ghost all: RowEncoder.Committed, ghost kept: nat)
        returns (error: Option<EncodeError>, ghost all': RowEncoder.Committed)
      requires Serves(batch, table, c, start, n, all, kept) && i < n && batch.columns[c].Strings? && At(all, kept, c, i)
      requires Marked(all, kept + i, c) && !all.rows[kept + i][c].NullCell?
      requires header.poolBase + Need(all.rows[kept + i][c]) <= header.tailCursor
      modifies payload, this`header
      ensures header == old(header).(tailCursor := header.tailCursor) && header.tailCursor <= old(header).tailCursor
      ensures Serves(batch, table, c, start, n, all', kept) && Follows(all', all, kept)
      ensures error.None? ==>
                && At(all', kept, c, i + 1) && Marked(all', kept + i + 1, c)
                && header.tailCursor == old(header).tailCursor - Need(all.rows[kept + i][c])
                && (IsLong(all.rows[kept + i][c]) ==>
                      |all.rows[kept + i][c].bytes| <= I32_MAX && header.tailCursor - header.poolBase <= I32_MAX)
      ensures error.Some? ==>
                && At(all', kept, c, i) && (error.value == ViewTooLong || error.value == OffsetTooLarge)
                && IsLong(all.rows[kept + i][c])
                && (|all.rows[kept + i][c].bytes| > I32_MAX
                    || old(header).tailCursor - header.poolBase - |all.rows[kept + i][c].bytes| > I32_MAX)
    {
      hide Progress, Counted, OnlyColumn, FrontOf, Conforms, Table, Ready, HeaderAt, DescAt, ColumnStart, ViewHolds,
          CellReads, Holds;
      ghost var k, row := kept + i, header.rowCount + i;
      ServesRow(batch, table, c, start, n, all, kept, i);
      AtFacts(all, kept, c, i, c, row);
      ReadyFacts(c, row);
      TextNeed(batch, start + i, c);
      ghost var b0, h := payload[..], header;
      error := WriteViewValue(c, header.rowCount + i, batch.columns[c].texts[start + i]);
      HoldsStill(b0, payload[..]);
      if error.Some? {
        ProgressKept(b0, payload[..], h, schema, all, kept, c, i, c, row, row, header.tailCursor);
        CountedKept(b0, payload[..], all, kept, c);
        return error, all;
      }
      TextReads(payload[..], schema, header.maxRows, c, row, batch, start + i, header.tailCursor);
      all' := TextPlaced(b0, h, c, i, all, kept);
    }

    /** The batch after a string was stored in its cell. */
    lemma TextPlaced(b0: seq<byte>, h: BlockHeader, c: nat, i: nat, all: RowEncoder.Committed, kept: nat)
        returns (all': RowEncoder.Committed)
      requires |b0| == payload.Length >= HEADER_LEN && Progress(b0, h, schema, all, kept, c, i)
               && Counted(b0, schema, all, kept, c)
      requires c < |schema| && kept + i < |all.rows| && header == h.(tailCursor := header.tailCursor)
      requires h.poolBase <= header.tailCursor <= h.tailCursor && HEADER_LEN <= payload.Length
               && DescOffset(|schema|) <= payload.Length
      requires HeaderAt(payload[..]) == header
               && forall j: nat :: j < |schema| ==> DescAt(payload[..], j) == DescAt(b0, j)
      requires OnlyColumn(b0, payload[..], schema, h.maxRows, c, all.base + kept + i, all.base + kept + i + 1,
                          header.tailCursor, h.tailCursor)
      requires InRange(payload[..], schema, h.maxRows, c, all.base + kept + i)
      requires CellReads(payload[..], schema, h.maxRows, c, all.base + kept + i, all.rows[kept + i][c],
                         header.tailCursor)
      requires IsLong(all.rows[kept + i][c]) ==> header.tailCursor + |all.rows[kept + i][c].bytes| == h.tailCursor
      requires all.base + |all.rows| <= h.maxRows
      requires schema[c].nullable ==> forall j: nat :: kept + i <= j < |all.rows| ==>
                 FrontOf(b0, schema, h.maxRows, c, all.base + j).valid == !all.rows[j][c].NullCell?
      ensures Follows(all', all, kept) && RowEncoder.Shaped(all', schema) && At(all', kept, c, i + 1)
              && Marked(all', kept + i + 1, c)
    {
      hide Progress, Counted, OnlyColumn, FrontOf, HeaderAt, DescAt, ColumnStart, CellReads, Holds;
      var k := kept + i;
      ProgressFacts(b0, h, schema, all, kept, c, i);
      ProgressCell(b0, payload[..], h, schema, all, kept, c, i, header.tailCursor);
      all' := Placed(all, k, c, header.tailCursor);
      PlacedFollows(all, kept, k, c, header.tailCursor);
      CountedPlaced(b0, payload[..], all, kept, k, c, header.tailCursor);
      if schema[c].nullable { StillMarked(b0, payload[..], all, k, c, h.tailCursor); }
    }

    lemma HoldsStill(b0: seq<byte>, b1: seq<byte>)
      requires |b1| == |b0| && Holds(b0, schema, header.maxRows)
      ensures Holds(b1, schema, header.maxRows)
    {
    }

    lemma PlacedFollows(all: RowEncoder.Committed, kept: nat, k: nat, c: nat, start: nat)
      requires kept <= k
      ensures Follows(Placed(all, k, c, start), all, kept)
    {
    }

    lemma CountedPlaced(block: seq<byte>, block': seq<byte>, all: RowEncoder.Committed, kept: nat, k: nat, c: nat,
                        start: nat)
      requires RowEncoder.Shaped(all, schema) && kept <= |all.rows| && DescOffset(|schema|) <= |block| == |block'|
      requires Counted(block, schema, all, kept, c)
               && forall j: nat :: j < |schema| ==> DescAt(block', j) == DescAt(block, j)
      ensures RowEncoder.Shaped(Placed(all, k, c, start), schema)
              && Counted(block', schema, Placed(all, k, c, start), kept, c)
    {
      hide DescAt;
    }

    /** Writing row `k` leaves the bits of the rows after it. */
    lemma StillMarked(b0: seq<byte>, b1: seq<byte>, all: RowEncoder.Committed, k: nat, c: nat, hi: nat)
      requires RowEncoder.Shaped(all, schema) && c < |schema| && Holds(b0, schema, header.maxRows)
               && all.base + |all.rows| <= header.maxRows
      requires OnlyColumn(b0, b1, schema, header.maxRows, c, all.base + k, all.base + k + 1, header.tailCursor, hi)
      requires forall j: nat :: k < j < |all.rows| ==>
                 FrontOf(b0, schema, header.maxRows, c, all.base + j).valid == !all.rows[j][c].NullCell?
      ensures |b1| == |b0|
      ensures forall j: nat :: k < j < |all.rows| ==>
                FrontOf(b1, schema, header.maxRows, c, all.base + j).valid == !all.rows[j][c].NullCell?
    {
      hide FrontOf, ColumnStart;
    }

    /** Column `c` under construction, with `i` of its cells in place and the bits of the others set. */
    ghost predicate Busy(batch: Batch, table: seq<Row>, c: nat, start: nat, n: nat, all: RowEncoder.Committed,
                         kept: nat, i: nat)
      reads this, payload
    {
      Serves(batch, table, c, start, n, all, kept) && At(all, kept, c, i) && i <= n && Marked(all, kept + i, c)
    }

    lemma BusyFacts(batch: Batch, table: seq<Row>, c: nat, start: nat, n: nat, all: RowEncoder.Committed, kept: nat,
                    i: nat)
      requires Busy(batch, table, c, start, n, all, kept, i)
      ensures Serves(batch, table, c, start, n, all, kept) && At(all, kept, c, i)
    {
    }

    /** One row of a string column, with the running sums. */
    method NextText(batch: Batch, ghost table: seq<Row>, c: nat, start: nat, i: nat, ghost n: nat,
                    ghost all: RowEncoder.Committed, ghost kept: nat, ghost top: nat)
        returns (error: Option<EncodeError>, ghost all': RowEncoder.Committed)
      requires Rectangular(table, |schema|) && c < |schema| && start + n <= |table|
      requires Busy(batch, table, c, start, n, all, kept, i) && i < n && c < |batch.columns|
               && batch.columns[c].Strings?
      requires Tracked(Upto(table, start, n, c, i), top)
      requires header.poolBase + ColumnNeed(table, start, n, c) - ColumnNeed(table, start, i,
            c) <= header.tailCursor <= top
      modifies payload, this`header
      ensures header == old(header).(tailCursor := header.tailCursor) && header.tailCursor <= old(header).tailCursor
      ensures Follows(all', all, kept) && Serves(batch, table, c, start, n, all', kept)
      ensures error.None? ==>
                && Busy(batch, table, c, start, n, all', kept, i + 1) && Tracked(Upto(table, start, n, c, i + 1), top)
                && header.tailCursor
                    == old(header).tailCursor + ColumnNeed(table, start, i, c) - ColumnNeed(table, start, i + 1, c)
      ensures error.Some? ==>
                && At(all', kept, c, i) && (error.value == ViewTooLong || error.value == OffsetTooLarge)
                && Unencodable(table, start, n, |schema|, top - header.poolBase)
    {
      hide At, Marked, Follows, Serves, Need, Upto, Tracked, Unencodable;
      ColumnGrows(table, start, i + 1, n, c);
      ServesRow(batch, table, c, start, n, all, kept, i);
      UptoNext(table, start, n, c, i);
      error, all' := WriteText(batch, table, c, start, i, n, all, kept, Upto(table, start, n, c, i), top);
      if error.Some? { FirstFails(table, start, n, c, i, |schema|, top - header.poolBase); }
    }

    /** The string columns, row by row. A failure is that of the first long value of the batch. */
    method WriteStrings(batch: Batch, ghost table: seq<Row>, c: nat, start: nat, n: nat,
                        ghost all: RowEncoder.Committed, ghost kept: nat, ghost top: nat)
        returns (error: Option<EncodeError>, ghost all': RowEncoder.Committed, ghost i: nat)
      requires Rectangular(table, |schema|) && c < |schema| && start + n <= |table|
      requires Busy(batch, table, c, start, n, all, kept, 0) && c < |batch.columns| && batch.columns[c].Strings?
      requires Tracked(Upto(table, start, n, c, 0), top) && header.tailCursor <= top
      requires header.poolBase + ColumnNeed(table, start, n, c) <= header.tailCursor
      modifies payload, this`header
      ensures header == old(header).(tailCursor := header.tailCursor) && header.tailCursor <= old(header).tailCursor
      ensures Serves(batch, table, c, start, n, all', kept) && Follows(all', all, kept) && At(all', kept, c, i)
      ensures error.None? ==>
                && i == n && Tracked(Upto(table, start, n, c, n), top)
                && header.tailCursor == old(header).tailCursor - ColumnNeed(table, start, n, c)
      ensures error.Some? ==>
                && (error.value == ViewTooLong || error.value == OffsetTooLarge)
                && Unencodable(table, start, n, |schema|, top - header.poolBase)
    {
      hide Busy, Serves, At, Follows, Upto, Tracked, Unencodable, ColumnNeed;
      NoNeedYet(table, start, c);
      BusyFacts(batch, table, c, start, n, all, kept, 0);
      all', i := all, 0;
      FollowsSelf(all, kept);
      for row := 0 to n
        invariant header == old(header).(tailCursor := header.tailCursor) && i == row && header.tailCursor <= top
        invariant header.tailCursor == old(header).tailCursor - ColumnNeed(table, start, row, c)
        invariant Busy(batch, table, c, start, n, all', kept, row) && Follows(all', all, kept)
        invariant Tracked(Upto(table, start, n, c, row), top)
      {
        ghost var before := all';
        error, all' := NextText(batch, table, c, start, row, n, all', kept, top);
        FollowsOn(all', before, all, kept);
        if error.Some? { return; }
        i := row + 1;
      }
      BusyFacts(batch, table, c, start, n, all', kept, n);
      error := None;
    }

    lemma NoNeedYet(table: seq<Row>, start: nat, c: nat)
      requires start <= |table| && forall r :: 0 <= r < |table| ==> c < |table[r]|
      ensures ColumnNeed(table, start, 0, c) == 0
    {
    }

    lemma FollowsSelf(all: RowEncoder.Committed, kept: nat)
      ensures Follows(all, all, kept)
    {
    }

    lemma FollowsOn(c: RowEncoder.Committed, b: RowEncoder.Committed, a: RowEncoder.Committed, kept: nat)
      requires Follows(c, b, kept) && Follows(b, a, kept)
      ensures Follows(c, a, kept)
    {
    }

    /** `add_null_count`. */
    method AddNullCount(c: nat, delta: nat, ghost all: RowEncoder.Committed, ghost kept: nat) returns (ok: bool)
      requires c < |schema| && payload.Length >= HEADER_LEN
               && Progress(payload[..], header, schema, all, kept, c + 1, 0)
      requires header.rowCount < header.maxRows
      requires RowEncoder.Shaped(all, schema) && kept <= |all.rows| && DescOffset(|schema|) <= payload.Length
      requires Counted(payload[..], schema, all, kept, c) && delta == RowEncoder.NullsIn(all.rows[kept..], c)
      modifies payload
      ensures ok <==> all.nullBase[c] + RowEncoder.NullsIn(all.rows, c) <= U32_MAX
      ensures ok ==> At(all, kept, c + 1, 0)
      ensures !ok ==> payload[..] == old(payload[..])
    {
      hide Progress, OnlyColumn, HeaderAt, DescAt, ColumnStart, Holds, EncodeDesc, DescFits;
      ProgressFacts(payload[..], header, schema, all, kept, c + 1, 0);
      assert all.rows == all.rows[..kept] + all.rows[kept..];
      NullsSplit(all.rows[..kept], all.rows[kept..], c);
      var d := DescAt(payload[..], c);
      DescGrows(payload[..], schema, c, delta);
      ghost var b0 := payload[..];
      if delta == 0 {
        CountsColumn(b0, b0, schema, all, kept, c, 0);
        return true;
      }
      if d.nullCount + delta > U32_MAX { return false; }
      var more := d.(nullCount := d.nullCount + delta);
      DescMoves(b0, schema, header.maxRows, c, header.rowCount, header.tailCursor, more);
      Store(payload, DescOffset(c), EncodeDesc(more));
      HeaderIs(b0, header, schema, all, kept, c + 1, 0);
      assert header.(tailCursor := header.tailCursor) == header;
      ProgressKept(b0, payload[..], header, schema, all, kept, c + 1, 0, c, header.rowCount, header.rowCount,
                   header.tailCursor);
      CountsColumn(b0, payload[..], schema, all, kept, c, delta);
      ok := true;
    }

    /** The validity bits of the new rows of a column. */
    method MarkColumn(batch: Batch, ghost table: seq<Row>, c: nat, start: nat, n: nat,
                      ghost all: RowEncoder.Committed, ghost kept: nat)
        returns (nulls: nat)
      requires Serves(batch, table, c, start, n, all, kept) && At(all, kept, c, 0)
      modifies payload
      ensures Busy(batch, table, c, start, n, all, kept, 0)
      ensures nulls == RowEncoder.NullsIn(all.rows[kept..], c)
    {
      hide Progress, Counted, OnlyColumn, FrontOf, Table, Ready, HeaderAt, DescAt, ColumnStart, Holds, Conforms;
      AtFacts(all, kept, c, 0, c, header.rowCount);
      ReadyFacts(c, header.rowCount);
      ghost var b0 := payload[..];
      assert Conforms(batch.columns[c], schema[c], batch.rows);
      NullsAreClear(batch, c, start, n);
      nulls := CopyValidity(c, batch.columns[c], batch.rows, start, n);
      HoldsStill(b0, payload[..]);
      assert header.(tailCursor := header.tailCursor) == header;
      ProgressKept(b0, payload[..], header, schema, all, kept, c, 0, c, header.rowCount, header.rowCount + n,
                   header.tailCursor);
      CountedKept(b0, payload[..], all, kept, c);
      MarksTell(batch, table, c, start, n, all, kept);
    }

    lemma MarksTell(batch: Batch, table: seq<Row>, c: nat, start: nat, n: nat, all: RowEncoder.Committed, kept: nat)
      requires Serves(batch, table, c, start, n, all, kept) && Conforms(batch.columns[c], schema[c], batch.rows)
      requires forall r: nat :: header.rowCount <= r < header.rowCount + n && schema[c].nullable ==>
                 FrontOf(payload[..], schema, header.maxRows, c, r).valid
                     == IsValid(batch.columns[c], start + r - header.rowCount)
      ensures Marked(all, kept, c)
    {
      hide FrontOf, Table, ColumnStart, Holds;
      if schema[c].nullable {
        forall k: nat | kept <= k < |all.rows|
          ensures FrontOf(payload[..], schema, header.maxRows, c, all.base + k).valid == !all.rows[k][c].NullCell?
        {
          ServesRow(batch, table, c, start, n, all, kept, k - kept);
          NullIsClear(batch, c, start + (k - kept));
          assert header.rowCount <= all.base + k < header.rowCount + n;
        }
      }
    }

    /** The values of a column, once its bits are in. */
    method FillColumn(batch: Batch, ghost table: seq<Row>, c: nat, start: nat, n: nat,
                      ghost all: RowEncoder.Committed, ghost kept: nat,
                      ghost top: nat)
                          returns (error: Option<EncodeError>, ghost all': RowEncoder.Committed, ghost col: nat,
                                   ghost i: nat)
      requires Rectangular(table, |schema|) && c < |schema| && start + n <= |table|
      requires Busy(batch, table, c, start, n, all, kept, 0) && Tracked(First(table, start, n, c), top)
      requires header.poolBase + ColumnNeed(table, start, n, c) <= header.tailCursor <= top
      modifies payload, this`header
      ensures header == old(header).(tailCursor := header.tailCursor) && header.tailCursor <= old(header).tailCursor
      ensures Serves(batch, table, c, start, n, all', kept) && Follows(all', all, kept)
              && Building(all', kept, c, col, i)
      ensures error.None? ==>
                && col == c + 1 && i == 0 && Tracked(First(table, start, n, c + 1), top)
                && header.tailCursor == old(header).tailCursor - ColumnNeed(table, start, n, c)
      ensures error.Some? ==>
                && (error.value == ViewTooLong || error.value == OffsetTooLarge)
                && Unencodable(table, start, n, |schema|, top - header.poolBase)
    {
      hide At, Marked, Follows, Conforms, Table, First, FirstIn, Unencodable, ColumnNeed, Progress, Counted;
      BusyFacts(batch, table, c, start, n, all, kept, 0);
      UptoEnds(table, start, n, c);
      if batch.columns[c].Strings? {
        error, all', i := WriteStrings(batch, table, c, start, n, all, kept, top);
        col := c;
        AtBuilds(all', kept, c, i);
        if error.None? {
          ColumnDone(payload[..], header, schema, all', kept, c, i);
          col, i := c + 1, 0;
        }
      } else {
        PlainTable(batch, table, c);
        PlainColumn(table, start, n, c);
        PlainFirst(table, start, n, c);
        FollowsSelf(all, kept);
        AtFacts(all, kept, c, 0, c, header.rowCount);
        WritePlain(batch, c, start, n, all, kept);
        error, all', col, i := None, all, c + 1, 0;
      }
    }

    lemma PlainTable(batch: Batch, table: seq<Row>, c: nat)
      requires WellFormed(batch) && table == Table(batch) && c < |batch.schema| && !batch.columns[c].Strings?
      ensures forall r :: 0 <= r < |table| ==> c < |table[r]| && !IsLong(table[r][c])
    {
      forall r | 0 <= r < |table| ensures c < |table[r]| && !IsLong(table[r][c]) { PlainCell(batch, r, c); }
    }

    lemma PlainFirst(table: seq<Row>, start: nat, n: nat, c: nat)
      requires start + n <= |table| && (forall r :: 0 <= r < |table| ==> c < |table[r]|)
               && FirstIn(table, start, c, n).None?
      ensures First(table, start, n, c + 1) == First(table, start, n, c)
    {
    }

    /** Cells of column `col` in place up to `i`, with the columns before `counted` counted. */
    ghost predicate Building(all: RowEncoder.Committed, kept: nat, counted: nat, col: nat, i: nat)
      reads this, payload
    {
      && payload.Length >= HEADER_LEN && Progress(payload[..], header, schema, all, kept, col, i)
      && Counted(payload[..], schema, all, kept, counted)
    }

    lemma AtBuilds(all: RowEncoder.Committed, kept: nat, c: nat, i: nat)
      requires At(all, kept, c, i)
      ensures Building(all, kept, c, c, i)
    {
    }

    /** One column of the batch: validity bits, values, null count. */
    method WriteColumn(batch: Batch, ghost table: seq<Row>, c: nat, start: nat, n: nat,
                       ghost all: RowEncoder.Committed, ghost kept: nat,
                       ghost top: nat)
                           returns (error: Option<EncodeError>, ghost all': RowEncoder.Committed, ghost col: nat,
                                    ghost i: nat)
      requires Rectangular(table, |schema|) && c < |schema| && start + n <= |table|
      requires Serves(batch, table, c, start, n, all, kept) && At(all, kept, c, 0)
               && Tracked(First(table, start, n, c), top)
      requires header.poolBase + ColumnNeed(table, start, n, c) <= header.tailCursor <= top
      modifies payload, this`header
      ensures header == old(header).(tailCursor := header.tailCursor) && header.tailCursor <= old(header).tailCursor
      ensures Serves(batch, table, c, start, n, all', kept) && Follows(all', all, kept)
              && Building(all', kept, if error.None? then c + 1 else c, col, i)
      ensures error.None? ==>
                && col == c + 1 && i == 0 && Tracked(First(table, start, n, c + 1), top)
                && header.tailCursor == old(header).tailCursor - ColumnNeed(table, start, n, c)
                && all.nullBase[c] + RowEncoder.NullsIn(all.rows, c) <= U32_MAX
      ensures error.Some? ==>
                || ((error.value == ViewTooLong || error.value == OffsetTooLarge)
                    && Unencodable(table, start, n, |schema|, top - header.poolBase))
                || (error.value == CountOverflow && all.nullBase[c] + RowEncoder.NullsIn(all.rows, c) > U32_MAX)
    {
      hide At, Marked, Conforms, Table, First, Unencodable, ColumnNeed, Progress, Counted;
      var nulls := MarkColumn(batch, table, c, start, n, all, kept);
      error, all', col, i := FillColumn(batch, table, c, start, n, all, kept, top);
      if error.Some? { return; }
      BuildFacts(all', kept, c, col, i);
      var ok := AddNullCount(c, nulls, all', kept);
      if ok { AtBuilds(all', kept, c + 1, 0); } else { error := Some(CountOverflow); }
    }

    lemma BuildFacts(all: RowEncoder.Committed, kept: nat, counted: nat, col: nat, i: nat)
      requires Building(all, kept, counted, col, i)
      ensures RowEncoder.Shaped(all, schema) && kept <= |all.rows| && DescOffset(|schema|) <= payload.Length
    {
      ProgressFacts(payload[..], header, schema, all, kept, col, i);
    }

    // ---- Whole batches ---------------------------------------------------------------------------------

    /** Every new count of the first `c` columns fits. */
    ghost predicate CountsFit(all: RowEncoder.Committed, c: nat)
      requires RowEncoder.Shaped(all, schema)
    {
      forall j: nat :: j < c && j < |schema| ==> all.nullBase[j] + RowEncoder.NullsIn(all.rows, j) <= U32_MAX
    }

    /** The columns one after the other; the tail they take together is what the rows were planned with. */
    method WriteColumns(batch: Batch, ghost table: seq<Row>, start: nat, n: nat, ghost first: RowEncoder.Committed,
                        ghost kept: nat, ghost top: nat)
        returns (error: Option<EncodeError>, ghost all: RowEncoder.Committed, ghost counted: nat, ghost col: nat,
                 ghost i: nat)
      requires Pending(batch, table, start, n, first, kept, 0, top) && RowEncoder.Shaped(first, schema)
      requires start + n <= |table| && Rectangular(table, |schema|) && header.poolBase <= top
      modifies payload, this`header
      ensures header == old(header).(tailCursor := header.tailCursor) && header.tailCursor <= old(header).tailCursor
      ensures Follows(all, first, kept) && Building(all, kept, counted, col, i) && counted <= |schema|
      ensures error.None? ==>
                counted == |schema| && Pending(batch, table, start, n, all, kept, |schema|, top)
                    && CountsFit(first, |schema|)
      ensures error.Some? ==>
                || ((error.value == ViewTooLong || error.value == OffsetTooLarge)
                    && Unencodable(table, start, n, |schema|, top - header.poolBase))
                || (error.value == CountOverflow && !CountsFit(first, |schema|))
    {
      hide WellFormed, Table, Pending, Follows, Building, Rectangular, Unencodable;
      all, counted, col, i := first, 0, 0, 0;
      FollowsSelf(first, kept);
      for c := 0 to |schema|
        invariant header == old(header).(tailCursor := header.tailCursor) && header.tailCursor <= old(header).tailCursor
        invariant Follows(all, first, kept) && Pending(batch, table, start, n, all, kept, c, top) && CountsFit(first, c)
      {
        ghost var before := all;
        FollowsRows(all, first, kept);
        error, all, col, i := NextColumn(batch, table, c, start, n, all, kept, top);
        FollowsOn(all, before, first, kept);
        if error.Some? { return error, all, c, col, i; }
      }
      PendingEnds(batch, table, start, n, all, kept, top);
      return None, all, |schema|, |schema|, 0;
    }

    /** The new rows join the committed ones as rows to be written. */
    lemma BatchBegins(batch: Batch, table: seq<Row>, start: nat, n: nat, rows: seq<Row>)
        returns (all: RowEncoder.Committed)
      requires Valid() && WellFormed(batch) && batch.schema == schema && table == Table(batch)
               && Rectangular(table, |schema|)
      requires n > 0 && start + n <= |table| == batch.rows && rows == table[start..start + n]
               && header.rowCount + n <= header.maxRows
      requires header.poolBase + ColumnsNeed(table, start, n, |schema|) <= header.tailCursor
      ensures all == Extended(done, rows) && RowEncoder.Shaped(all, schema) && header.poolBase <= header.tailCursor
      ensures Pending(batch, table, start, n, all, |done.rows|, 0, header.tailCursor)
    {
      hide RowEncoder.EncoderOk, WellFormed, Table, ColumnsNeed, Progress, Counted, Pending;
      Begins(payload[..], header, schema, done, rows);
      all := Extended(done, rows);
      StartsServing(batch, table, start, n, all, |done.rows|, rows);
      PendingStarts(batch, table, start, n, all, |done.rows|, header.tailCursor);
      ProgressFacts(payload[..], header, schema, all, |done.rows|, 0, 0);
    }

    /** The batch with its first `c` columns written, and the tail they took. */
    ghost predicate Pending(batch: Batch, table: seq<Row>, start: nat, n: nat, all: RowEncoder.Committed, kept: nat,
                            c: nat, top: nat)
      reads this, payload
    {
      && Served(batch, table, start, n, all, kept) && c <= |schema| && Building(all, kept, c, c, 0)
      && Tracked(First(table, start, n, c), top) && header.tailCursor == top - ColumnsNeed(table, start, n, c)
      && header.poolBase + ColumnsNeed(table, start, n, |schema|) <= top
    }

    lemma PendingStarts(batch: Batch, table: seq<Row>, start: nat, n: nat, all: RowEncoder.Committed, kept: nat,
                        top: nat)
      requires Served(batch, table, start, n, all, kept) && header.tailCursor == top && payload.Length >= HEADER_LEN
      requires Progress(payload[..], header, schema, all, kept, 0, 0) && Counted(payload[..], schema, all, kept, 0)
      requires header.poolBase + ColumnsNeed(table, start, n, |schema|) <= top
      ensures Pending(batch, table, start, n, all, kept, 0, top)
    {
      hide Progress, Counted, Table, WellFormed;
    }

    lemma PendingEnds(batch: Batch, table: seq<Row>, start: nat, n: nat, all: RowEncoder.Committed, kept: nat, top: nat)
      requires Pending(batch, table, start, n, all, kept, |schema|, top)
      ensures Building(all, kept, |schema|, |schema|, 0)
      ensures start + n <= |table| && Rectangular(table, |schema|)
      ensures header.tailCursor == top - ColumnsNeed(table, start, n, |schema|) && header.poolBase <= top
      ensures !Unencodable(table, start, n, |schema|, top - header.poolBase)
    {
      hide Building, WellFormed, First, ColumnsNeed;
    }

    /** One more column. */
    method NextColumn(batch: Batch, ghost table: seq<Row>, c: nat, start: nat, n: nat,
                      ghost all: RowEncoder.Committed, ghost kept: nat,
                      ghost top: nat)
                          returns (error: Option<EncodeError>, ghost all': RowEncoder.Committed, ghost col: nat,
                                   ghost i: nat)
      requires Pending(batch, table, start, n, all, kept, c, top) && c < |schema|
      modifies payload, this`header
      ensures header == old(header).(tailCursor := header.tailCursor) && header.tailCursor <= old(header).tailCursor
      ensures Follows(all', all, kept) && Building(all', kept, if error.None? then c + 1 else c, col, i)
      ensures error.None? ==>
                && col == c + 1 && i == 0 && Pending(batch, table, start, n, all', kept, c + 1, top)
                && all.nullBase[c] + RowEncoder.NullsIn(all.rows, c) <= U32_MAX
      ensures error.Some? ==>
                || ((error.value == ViewTooLong || error.value == OffsetTooLarge)
                    && Unencodable(table, start, n, |schema|, top - header.poolBase))
                || (error.value == CountOverflow && all.nullBase[c] + RowEncoder.NullsIn(all.rows, c) > U32_MAX)
    {
      hide At, Building, Conforms, Table, First, Unencodable, ColumnNeed, Follows;
      ColumnsGrow(table, start, n, c + 1, |schema|);
      ColumnsGrow(table, start, n, c, |schema|);
      BuildsAt(all, kept, c);
      error, all', col, i := WriteColumn(batch, table, c, start, n, all, kept, top);
      FollowsRows(all', all, kept);
    }

    /** `Serves`, for every column. */
    ghost predicate Served(batch: Batch, table: seq<Row>, start: nat, n: nat, all: RowEncoder.Committed, kept: nat)
      reads this, payload
    {
      && n > 0 && |all.rows| == kept + n && WellFormed(batch) && batch.schema == schema && start + n <= batch.rows
      && table == Table(batch) && Rectangular(table, |schema|) && all.rows[kept..] == table[start..start + n]
      && RowEncoder.Shaped(all, schema)
      && Holds(payload[..], schema, header.maxRows) && all.base + |all.rows| <= header.maxRows
      && header.rowCount == all.base + kept
    }

    lemma StartsServing(batch: Batch, table: seq<Row>, start: nat, n: nat, all: RowEncoder.Committed, kept: nat,
                        rows: seq<Row>)
      requires Valid() && WellFormed(batch) && batch.schema == schema && table == Table(batch)
               && Rectangular(table, |schema|)
      requires n > 0 && start + n <= |table| == batch.rows && rows == table[start..start + n]
               && header.rowCount + n <= header.maxRows
      requires all == Extended(done, rows) && kept == |done.rows|
               && Progress(payload[..], header, schema, all, kept, 0, 0)
      ensures Served(batch, table, start, n, all, kept)
    {
      ProgressFacts(payload[..], header, schema, all, kept, 0, 0);
      hide RowEncoder.EncoderOk, Progress, Table, WellFormed, ColumnStart;
      assert all.rows[kept..] == rows;
    }

    lemma BuildsAt(all: RowEncoder.Committed, kept: nat, c: nat)
      requires Building(all, kept, c, c, 0)
      ensures At(all, kept, c, 0)
    {
    }

    lemma FollowsRows(all: RowEncoder.Committed, first: RowEncoder.Committed, kept: nat)
      requires Follows(all, first, kept)
      ensures all.rows == first.rows && all.nullBase == first.nullBase && all.base == first.base
    {
    }

    lemma FollowsExtends(all: RowEncoder.Committed, first: RowEncoder.Committed, done: RowEncoder.Committed,
                         rows: seq<Row>)
      requires Follows(all, first, |done.rows|) && first == Extended(done, rows)
      ensures Extends(all, done, rows)
    {
    }

    /** The rows planned for: some, whose tail is there. */
    ghost predicate Planned(batch: Batch, table: seq<Row>, start: nat, n: nat)
      requires Rectangular(table, |schema|)
      reads this
    {
      && WellFormed(batch) && batch.schema == schema && table == Table(batch) && n > 0 && start + n <= |table|
      && header.rowCount + n <= header.maxRows
      && header.poolBase + ColumnsNeed(table, start, n, |schema|) <= header.tailCursor
    }

    /** Nothing in the way of committing these rows. */
    ghost predicate Committable(table: seq<Row>, start: nat, n: nat, done: RowEncoder.Committed, room: nat)
      requires Rectangular(table, |schema|) && start + n <= |table|
    {
      && !Unencodable(table, start, n, |schema|, room)
      && RowEncoder.Shaped(Extended(done, table[start..start + n]), schema)
      && CountsFit(Extended(done, table[start..start + n]), |schema|)
    }

    /** The planned rows are written and committed, or given up with the committed rows as they were. */
    method WriteRows(batch: Batch, ghost table: seq<Row>, start: nat, n: nat)
        returns (error: Option<EncodeError>, ghost counted: nat)
      requires Rectangular(table, |schema|) && start + n <= |table| && Valid() && Planned(batch, table, start, n)
      modifies payload, this`header, this`done
      ensures Valid() && header.poolBase == old(header).poolBase <= old(header).tailCursor
      ensures error.None? <==> Committable(table, start, n, old(done), old(header).tailCursor - header.poolBase)
      ensures error.None? ==>
                && header == old(header).(rowCount := header.rowCount, tailCursor := header.tailCursor)
                && header.rowCount == old(header).rowCount + n
                && header.tailCursor == old(header).tailCursor - ColumnsNeed(table, start, n, |schema|)
                && done.rows == old(done.rows) + table[start..start + n] && done.base == old(done.base)
                && done.nullBase == old(done.nullBase)
      ensures error.Some? ==>
                && error.value in {CountOverflow, ViewTooLong, OffsetTooLarge}
                && header == old(header).(tailCursor := header.tailCursor)
                && header.tailCursor <= old(header).tailCursor
                && IsLeak(done, old(done), table[start..start + n], counted)
      ensures error.Some? && error.value != CountOverflow ==>
                Unencodable(table, start, n, |schema|, old(header).tailCursor - header.poolBase)
    {
      hide WellFormed, Table, Pending, Follows, Building, Rectangular, Unencodable, CountsFit, RowEncoder.EncoderOk,
          EncodeHeader, HeaderAt, Leaked;
      ghost var kept, top, rows := |done.rows|, header.tailCursor, table[start..start + n];
      ghost var first := BatchBegins(batch, table, start, n, rows);
      ghost var all, col, i;
      error, all, counted, col, i := WriteColumns(batch, table, start, n, first, kept, top);
      FollowsExtends(all, first, done, rows);
      if error.Some? {
        GivenUp(all, rows, counted, col, i);
        done := Leaked(done, rows, counted);
        return;
      }
      PendingEnds(batch, table, start, n, all, kept, top);
      FollowsRows(all, first, kept);
      Committing(all, kept);
      header := header.(rowCount := header.rowCount + n);
      RowEncoder.FinishOk(payload[..], header, schema, all);
      Store(payload, 0, EncodeHeader(header));
      done := all;
    }

    lemma Committing(all: RowEncoder.Committed, kept: nat)
      requires Building(all, kept, |schema|, |schema|, 0)
      ensures header.rowCount == all.base + kept
      ensures RowEncoder.EncoderOk(payload[..], header.(rowCount := all.base + |all.rows|), schema, all)
    {
      hide RowEncoder.EncoderOk, Counted;
      Commits(payload[..], header, schema, all, kept);
    }

    lemma GivenUp(all: RowEncoder.Committed, rows: seq<Row>, counted: nat, col: nat, i: nat)
      requires Extends(all, done, rows) && Building(all, |done.rows|, counted, col, i)
      ensures |done.nullBase| == |schema| && forall r :: 0 <= r < |rows| ==> |rows[r]| == |schema|
      ensures RowEncoder.EncoderOk(payload[..], header, schema, Leaked(done, rows, counted))
      ensures payload.Length >= HEADER_LEN && HeaderAt(payload[..]) == header
    {
      hide RowEncoder.EncoderOk, Counted, Leaked, HeaderAt;
      GivesUp(payload[..], header, schema, all, done, rows, col, i, counted);
      HeaderIs(payload[..], header, schema, all, |done.rows|, col, i);
    }

    /** Rows that there are and that the page has room for. */
    function RowCap(rows: nat, start: nat): (cap: nat)
      requires start <= rows && header.rowCount <= header.maxRows
      reads this
      ensures start + cap <= rows && header.rowCount + cap <= header.maxRows
      ensures start + cap == rows || header.rowCount + cap == header.maxRows
    {
      if rows - start < header.maxRows - header.rowCount then rows - start else header.maxRows - header.rowCount
    }

    /** The first row that does not fit has tail bytes beyond 32 bits. */
    ghost predicate NeedsTooMuch(table: seq<Row>, start: nat, cap: nat, fit: nat)
      requires Rectangular(table, |schema|) && start + cap <= |table|
    {
      fit < cap && RowNeed(table[start + fit], |schema|) > U32_MAX
    }

    /** A row alone on an empty one-row page that is too large for it. */
    ghost predicate TooLargeForPage(h: BlockHeader, table: seq<Row>, start: nat, cap: nat)
      requires Rectangular(table, |schema|) && start + cap <= |table|
    {
      && cap > 0 && h.rowCount == 0 && h.maxRows == 1 && RowNeed(table[start], |schema|) <= U32_MAX
      && RowNeed(table[start], |schema|) > h.blockSize - h.poolBase
    }

    lemma TableShape(batch: Batch)
      requires WellFormed(batch)
      ensures |Table(batch)| == batch.rows && Rectangular(Table(batch), |batch.schema|)
    {
    }

    lemma HeaderShape()
      requires Valid()
      ensures header.poolBase <= header.tailCursor <= header.blockSize <= U32_MAX && header.rowCount <= header.maxRows
    {
      hide RowEncoder.AllRead, RowEncoder.PayloadsApart, RowEncoder.CountsFit, ColumnStart;
    }

    /**
     * `append_batch`: commits the longest row prefix that fits, cell for cell. Planning goes row by row and writing
     * column by column, and still no reservation ever finds the tail full.
     */
    method AppendBatch(batch: Batch, start: nat) returns (r: Outcome<AppendResult>, ghost fit: nat, ghost counted: nat)
      requires Valid() && WellFormed(batch)
      modifies payload, this`header, this`done
      ensures Valid() && header == old(header).(rowCount := header.rowCount, tailCursor := header.tailCursor)
      ensures r == Bad(BatchSchemaMismatch) <==> batch.schema != schema
      ensures r == Bad(StartRowOutOfBounds) <==> batch.schema == schema && start > batch.rows
      ensures |Table(batch)| == batch.rows && Rectangular(Table(batch), |batch.schema|)
      ensures old(header).poolBase <= old(header).tailCursor && old(header).rowCount <= old(header).maxRows
      ensures batch.schema == schema && start <= batch.rows ==>
                var table, cap := Table(batch), old(RowCap(batch.rows, start));
                && IsLongest(table, start, cap, old(header).tailCursor - header.poolBase, fit)
                && (r.Bad? && r.error in {RowValueTooLarge, NeedOverflow} <==> NeedsTooMuch(table, start, cap, fit))
                && (r == Bad(RowTooLargeForPage) <==> TooLargeForPage(old(header), table, start, cap))
                && (r.Good? <==>
                      && !NeedsTooMuch(table, start, cap, fit) && !TooLargeForPage(old(header), table, start, cap)
                      && (fit == 0
                          || Committable(table, start, fit, old(done), old(header).tailCursor - header.poolBase)))
                && (r.Bad? && r.error in {ViewTooLong, OffsetTooLarge} ==>
                      fit > 0 && Unencodable(table, start, fit, |schema|, old(header).tailCursor - header.poolBase))
      ensures r.Good? ==>
                && start + fit <= batch.rows && r.value == AppendResult(fit, fit < batch.rows - start)
                && header.rowCount == old(header).rowCount + fit
                && header.tailCursor == old(header).tailCursor - PrefixNeed(Table(batch), start, fit)
                && done.rows == old(done.rows) + Table(batch)[start..start + fit] && done.base == old(done.base)
                && done.nullBase == old(done.nullBase)
      ensures r.Bad? ==>
                && header.rowCount == old(header).rowCount && header.tailCursor <= old(header).tailCursor
                && r.error != UnexpectedFull && r.error != TailOverflow
                && ((done == old(done) && header == old(header))
                    || (start + fit <= batch.rows
                        && IsLeak(done, old(done), Table(batch)[start..start + fit], counted)))
    {
      hide RowEncoder.EncoderOk, WellFormed, Table, HeaderAt, IsLongest, Unencodable, Committable, RowNeed,
          PrefixNeed, ColumnsNeed, IsLeak;
      fit, counted := 0, 0;
      TableShape(batch);
      HeaderShape();
      if batch.schema != schema { return Bad(BatchSchemaMismatch), 0, 0; }
      if start > batch.rows { return Bad(StartRowOutOfBounds), 0, 0; }
      ghost var table := Table(batch);
      var left := batch.rows - start;
      var cap := RowCap(batch.rows, start);
      var rows;
      rows, fit := RowsThatFit(batch, start, cap);
      LongestFits(table, start, cap, header.tailCursor - header.poolBase, fit, |schema|);
      if rows.Bad? {
        return Bad(rows.error), fit, 0;
      }
      if rows.value == 0 {
        NoRows(table, start);
        if cap > 0 && header.rowCount == 0 {
          var need := RowTailNeed(batch, start);
          TableRow(batch, start);
          if need.Bad? { assert false; }
          if need.value > header.blockSize - header.poolBase && header.maxRows == 1 {
            return Bad(RowTooLargeForPage), fit, 0;
          }
        }
        return Good(AppendResult(0, left != 0)), fit, 0;
      }
      RowsAreColumns(table, start, rows.value, |schema|);
      var error;
      error, counted := WriteRows(batch, table, start, rows.value);
      r := if error.Some? then Bad(error.value) else Good(AppendResult(rows.value, rows.value < left));
    }

    /** `finish`: the block opens with every committed row in it. */
    method Finish() returns (rowCount: nat, payloadLen: nat)
      requires Valid()
      ensures Opens(payload[..]) && rowCount == done.base + |done.rows| && payloadLen == header.blockSize
    {
      hide ColumnStart, DescPlanned, DecodeHeader, RowEncoder.AllRead, RowEncoder.PayloadsApart, RowEncoder.CountsFit;
      var reopened := Open(payload[..]);
      assert LaidOut(payload[..], HeaderAt(payload[..]), schema);
      assert reopened.Ok?;
      rowCount, payloadLen := header.rowCount, header.blockSize;
    }

    lemma TableRow(batch: Batch, r: nat)
      requires WellFormed(batch) && r < batch.rows
      ensures Table(batch)[r] == RowOf(batch, r)
    {
    }

    lemma NoRows(table: seq<Row>, start: nat)
      requires start <= |table|
      ensures PrefixNeed(table, start, 0) == 0 && table[start..start + 0] == []
    {
    }

    /** What the longest prefix tells of the first row, of the tail and of a page on its own. */
    lemma LongestFits(table: seq<Row>, start: nat, cap: nat, tail: nat, fit: nat, columns: nat)
      requires start + cap <= |table| && Rectangular(table, columns) && IsLongest(table, start, cap, tail, fit)
      ensures fit <= cap && PrefixNeed(table, start, fit) <= tail
      ensures cap > 0 ==> (fit == 0 <==> RowNeed(table[start], columns) > tail)
    {
      if cap > 0 { assert PrefixNeed(table, start, 1) == PrefixNeed(table, start, 0) + RowNeed(table[start], columns); }
      if cap > 0 && fit > 0 { PrefixGrows(table, start, 1, fit); }
    }
  }

  lemma {:induction false} RowGrows(row: Row, c: nat, d: nat)
    requires c <= d <= |row|
    ensures RowNeed(row, c) <= RowNeed(row, d)
    decreases d - c
  {
    if c < d { RowGrows(row, c, d - 1); }
  }
}
