/** The page block as bytes at their offsets: what any other reader of the format relies on. */
module BlockFormat {
  import opened Common
  import opened Bytes
  import opened ArrowLayout
  import opened ArrowBlock
  import opened Bitmaps
  import opened RowCells
  import Bits
  import RowEncoder

  // ---- Packed structs --------------------------------------------------------------------------------

  lemma SliceSecond(a: seq<byte>, b: seq<byte>, from: nat, to: nat)
    requires from <= to <= |b|
    ensures (a + b)[|a| + from..|a| + to] == b[from..to]
  {
  }

  /** Field `i` of a packed struct is at the sum of the widths before it. */
  lemma {:induction false} PackAt(values: seq<nat>, widths: seq<nat>, i: nat)
    requires |values| == |widths| && i < |widths|
    ensures Size(widths[..i]) + widths[i] <= Size(widths)
    ensures Pack(values, widths)[Size(widths[..i])..Size(widths[..i]) + widths[i]] == Le(values[i], widths[i])
    decreases i
  {
    if i > 0 {
      PackAt(values[1..], widths[1..], i - 1);
      assert widths[..i][1..] == widths[1..][..i - 1];
      assert widths[..i] == [widths[0]] + widths[1..][..i - 1];
      var (from, len) := (Size(widths[1..][..i - 1]), widths[i]);
      SliceSecond(Le(values[0], widths[0]), Pack(values[1..], widths[1..]), from, from + len);
    }
  }

  lemma {:induction false} SizeNext(widths: seq<nat>, i: nat)
    requires i < |widths|
    ensures Size(widths[..i + 1]) == Size(widths[..i]) + widths[i]
    decreases i
  {
    assert widths[..i + 1][1..] == widths[1..][..i];
    if i > 0 {
      assert widths[..i][1..] == widths[1..][..i - 1];
      SizeNext(widths[1..], i - 1);
    } else {
      assert widths[..1] == [widths[0]];
    }
  }

  /** Where the twelve fields of the header are. */
  lemma HeaderOffsets()
    ensures Size(HEADER_WIDTHS[..0]) == 0 && Size(HEADER_WIDTHS[..1]) == 4 && Size(HEADER_WIDTHS[..2]) == 6
    ensures Size(HEADER_WIDTHS[..3]) == 8 && Size(HEADER_WIDTHS[..4]) == 12 && Size(HEADER_WIDTHS[..5]) == 16
    ensures Size(HEADER_WIDTHS[..6]) == 20 && Size(HEADER_WIDTHS[..7]) == 22 && Size(HEADER_WIDTHS[..8]) == 24
    ensures Size(HEADER_WIDTHS[..9]) == 28 && Size(HEADER_WIDTHS[..10]) == 32 && Size(HEADER_WIDTHS[..11]) == 36
  {
    hide Size;
    assert HEADER_WIDTHS[..0] == [] && Size([]) == 0 by { NoSize(); }
    SizeNext(HEADER_WIDTHS, 0); SizeNext(HEADER_WIDTHS, 1); SizeNext(HEADER_WIDTHS, 2); SizeNext(HEADER_WIDTHS, 3);
    SizeNext(HEADER_WIDTHS, 4); SizeNext(HEADER_WIDTHS, 5); SizeNext(HEADER_WIDTHS, 6); SizeNext(HEADER_WIDTHS, 7);
    SizeNext(HEADER_WIDTHS, 8); SizeNext(HEADER_WIDTHS, 9); SizeNext(HEADER_WIDTHS, 10);
  }

  lemma NoSize()
    ensures Size([]) == 0
  {
  }

  /** The header: every field at its offset, little-endian. */
  lemma HeaderBytes(h: BlockHeader)
    ensures var b := EncodeHeader(h);
            && |b| == 40
            && b[0..4] == Le(h.magic, 4) && b[4..6] == Le(h.version, 2) && b[6..8] == Le(h.flags, 2)
            && b[8..12] == Le(h.blockSize, 4) && b[12..16] == Le(h.maxRows, 4) && b[16..20] == Le(h.rowCount, 4)
            && b[20..22] == Le(h.colCount, 2) && b[22..24] == Le(h.reserved0, 2) && b[24..28] == Le(h.frontBase, 4)
            && b[28..32] == Le(h.poolBase, 4) && b[32..36] == Le(h.tailCursor, 4) && b[36..40] == Le(h.reserved1, 4)
  {
    hide Pack, Size, Le;
    HeaderOffsets();
    Widths();
    var f := HeaderFields(h);
    PackAt(f, HEADER_WIDTHS, 0); PackAt(f, HEADER_WIDTHS, 1); PackAt(f, HEADER_WIDTHS, 2); PackAt(f, HEADER_WIDTHS, 3);
    PackAt(f, HEADER_WIDTHS, 4); PackAt(f, HEADER_WIDTHS, 5); PackAt(f, HEADER_WIDTHS, 6); PackAt(f, HEADER_WIDTHS, 7);
    PackAt(f, HEADER_WIDTHS, 8); PackAt(f, HEADER_WIDTHS, 9); PackAt(f, HEADER_WIDTHS, 10);
    PackAt(f, HEADER_WIDTHS, 11);
  }

  /** A column descriptor, likewise. */
  lemma DescBytes(d: ColumnDesc)
    ensures var b := EncodeDesc(d);
            && |b| == 20
            && b[0..2] == Le(d.tag, 2) && b[2..4] == Le(d.flags, 2) && b[4..8] == Le(d.validityOff, 4)
            && b[8..12] == Le(d.valuesOff, 4) && b[12..16] == Le(d.nullCount, 4) && b[16..20] == Le(d.reserved0, 4)
  {
    hide Pack, Size, Le;
    Widths();
    assert DESC_WIDTHS[..0] == [] && Size([]) == 0 by { NoSize(); }
    SizeNext(DESC_WIDTHS, 0); SizeNext(DESC_WIDTHS, 1); SizeNext(DESC_WIDTHS, 2); SizeNext(DESC_WIDTHS, 3);
    SizeNext(DESC_WIDTHS, 4);
    var f := DescFields(d);
    PackAt(f, DESC_WIDTHS, 0); PackAt(f, DESC_WIDTHS, 1); PackAt(f, DESC_WIDTHS, 2); PackAt(f, DESC_WIDTHS, 3);
    PackAt(f, DESC_WIDTHS, 4); PackAt(f, DESC_WIDTHS, 5);
  }

  /** A block begins with the letters PAB2 and version 1, and its descriptors follow the header without a gap. */
  lemma FirstBytes(plan: LayoutPlan)
    ensures EncodeHeader(InitialHeader(plan))[0..8] == [0x50, 0x41, 0x42, 0x32, 1, 0, 0, 0]
    ensures DescOffset(0) == 40 && DescOffset(1) == 60
  {
    hide EncodeHeader, Le;
    var b := EncodeHeader(InitialHeader(plan));
    HeaderBytes(InitialHeader(plan));
    Eight(b);
    Four(0x3242_4150);
    Two(1);
    Two(0);
  }

  lemma Eight(b: seq<byte>)
    requires |b| >= 8
    ensures b[0..8] == b[0..4] + b[4..6] + b[6..8]
  {
  }

  lemma Two(v: nat)
    ensures Le(v, 2) == [v % 256, v / 256 % 256]
  {
    assert Le(v / 256, 1) == [v / 256 % 256] + Le(v / 256 / 256, 0);
  }

  lemma Four(v: nat)
    ensures Le(v, 4) == [v % 256, v / 256 % 256, v / 256 / 256 % 256, v / 256 / 256 / 256 % 256]
  {
    assert Le(v, 4) == [v % 256, v / 256 % 256] + Le(v / 256 / 256, 2);
    Two(v / 256 / 256);
  }

  // ---- Types ---------------------------------------------------------------------------------------------

  /** Type tags, in the order of their numbers from 1 on. */
  const TAGS: seq<TypeTag> :=
    [Boolean, Int16, Int32, Int64, Float32, Float64, Uuid, Utf8View, BinaryView, Decimal128,
     IntervalMonthDayNano, Date32, Time64Microsecond, TimestampMicrosecond]

  lemma TagNumbers(i: nat)
    requires i < 14
    ensures ToRaw(TAGS[i]) == i + 1 && FromRaw(i + 1) == Some(TAGS[i])
  {
  }

  /** The bits of a value of each type, as Arrow has them; views are 16 bytes each, whatever they point to. */
  const ARROW_BITS: map<TypeTag, nat> :=
    map[Boolean := 1, Int16 := 16, Int32 := 32, Int64 := 64, Float32 := 32, Float64 := 64, Uuid := 128, Utf8View := 128,
        BinaryView := 128, Decimal128 := 128, IntervalMonthDayNano := 128, Date32 := 32, Time64Microsecond := 64,
        TimestampMicrosecond := 64]

  lemma SlotWidth(tag: TypeTag)
    ensures tag in ARROW_BITS && (tag != Boolean ==> 8 * RowWidth(tag) == ARROW_BITS[tag])
  {
  }

  /** The least multiple of 16 that is no less. */
  ghost predicate IsPadded(n: nat, padded: nat) { n <= padded < n + 16 && padded % 16 == 0 }

  /** The buffers of column `i`: a bit a row for validity, its bits for values, each padded to 16. */
  lemma BufferSizes(specs: seq<ColumnSpec>, rows: nat, i: nat) returns (validity: nat, values: nat)
    requires i < |specs|
    ensures specs[i].tag in ARROW_BITS
    ensures IsPadded((rows + 7) / 8, validity) && IsPadded((rows * ARROW_BITS[specs[i].tag] + 7) / 8, values)
    ensures var start := ColumnStart(specs, rows, i);
            && ColumnStart(specs, rows, i + 1) == start + validity + values
            && ValidityOff(specs, rows, i) == start && ValuesOff(specs, rows, i) == start + validity
  {
    hide FrontBase;
    var tag := specs[i].tag;
    SlotWidth(tag);
    validity, values := ValidityLen(rows), ValuesLen(tag, rows);
    assert IsPadded((rows + 7) / 8, validity);
    if tag == Boolean {
      assert IsPadded((rows * 1 + 7) / 8, values);
    } else {
      assert rows * ARROW_BITS[tag] == 8 * (rows * RowWidth(tag));
      assert (8 * (rows * RowWidth(tag)) + 7) / 8 == rows * RowWidth(tag);
      assert IsPadded((rows * ARROW_BITS[tag] + 7) / 8, values);
    }
  }

  /** The front begins 12 bytes into a 16 byte unit, after the header and the descriptors. */
  lemma FrontBegins(columns: nat)
    ensures 40 + 20 * columns <= FrontBase(columns) < 40 + 20 * columns + 16 && FrontBase(columns) % 16 == 12
  {
  }

  /** A number of the column's own type is written exactly if it has the bytes of that type. */
  lemma NumberWritten(spec: ColumnSpec, nullCount: nat, poolBase: nat, cursor: nat, bytes: seq<byte>)
    requires IsNumber(spec.tag)
    ensures spec.tag in ARROW_BITS
    ensures RowEncoder.WriteOutcome(spec, nullCount, poolBase, cursor, FixedCell(spec.tag, bytes))
            == if 8 * |bytes| == ARROW_BITS[spec.tag] then RowEncoder.CellWritten(cursor)
               else RowEncoder.CellFailed(RowEncoder.TypeMismatch)
  {
    SlotWidth(spec.tag);
  }

  /** The cells a column takes, apart from nulls: its own kind, and for numbers and ids with the right bytes. */
  predicate TypeFits(tag: TypeTag, cell: Cell) {
    match cell
    case NullCell => true
    case BoolCell(_) => tag == Boolean
    case FixedCell(t, bytes) =>
      t == tag && tag in [Int16, Int32, Int64, Float32, Float64, Decimal128, IntervalMonthDayNano, Date32,
                          Time64Microsecond, TimestampMicrosecond] && 8 * |bytes| == ARROW_BITS[tag]
    case UuidCell(bytes) => tag == Uuid && |bytes| == 16
    case Utf8Cell(_) => tag == Utf8View
    case BinaryCell(_) => tag == BinaryView
  }

  /** A cell of the wrong type is refused as such, unless it is an id of the wrong length. */
  lemma CellTypes(tag: TypeTag, cell: Cell)
    ensures Matches(tag, cell) <==> TypeFits(tag, cell)
    ensures RowEncoder.CellTypeError(tag, cell)
            == if TypeFits(tag, cell) then None
               else if cell.UuidCell? && tag == Uuid then Some(RowEncoder.InvalidUuidWidth)
               else Some(RowEncoder.TypeMismatch)
  {
    SlotWidth(tag);
  }

  /** The same for a row of one number on a page with a free slot. */
  lemma NumberRow(spec: ColumnSpec, nullCount: nat, poolBase: nat, cursor: nat, bytes: seq<byte>)
    requires IsNumber(spec.tag)
    ensures spec.tag in ARROW_BITS
    ensures RowEncoder.ScanRow([spec], [nullCount], poolBase, [FixedCell(spec.tag, bytes)], 0, cursor)
            == if 8 * |bytes| == ARROW_BITS[spec.tag] then RowEncoder.Appended
               else RowEncoder.Failed(RowEncoder.TypeMismatch)
  {
    hide RowEncoder.WriteOutcome;
    NumberWritten(spec, nullCount, poolBase, cursor, bytes);
    assert [FixedCell(spec.tag, bytes)][0] == FixedCell(spec.tag, bytes) && [spec][0] == spec;
  }

  // ---- Views -----------------------------------------------------------------------------------------------

  /** A short value is in its slot, behind its length. */
  lemma InlineBytes(bytes: seq<byte>)
    requires |bytes| <= 12
    ensures var b := EncodeView(InlineView(bytes)); |b| == 16 && b[0..4] == Le(|bytes|, 4) && b[4..4 + |bytes|] == bytes
  {
    hide Le;
    assert (bytes + Zeros(INLINE_LEN - |bytes|))[..|bytes|] == bytes;
  }

  /** A long one is in the tail: length, its first four bytes, buffer 0 and the offset. */
  lemma OutlineBytes(bytes: seq<byte>, offset: nat)
    requires 12 < |bytes| <= I32_MAX && offset <= I32_MAX
    ensures var b := EncodeView(OutlineView(bytes, offset));
            && |b| == 16 && b[0..4] == Le(|bytes|, 4) && b[4..8] == bytes[..4]
            && b[8..12] == Le(0, 4) && b[12..16] == Le(offset, 4)
  {
    hide Le;
  }

  // ---- Where a cell stands ---------------------------------------------------------------------

  /** A bit of a byte, the least significant one first. */
  predicate Mark(b: byte, k: nat)
    requires k < 8
  {
    b / [1, 2, 4, 8, 16, 32, 64, 128][k] % 2 == 1
  }

  lemma {:induction false} BitAt(b: byte, k: nat)
    requires k < 8
    ensures Bits.Bit(b, k) <==> Mark(b, k)
    decreases k
  {
    if k > 0 {
      BitAt(b / 2, k - 1);
      Halved(b, k);
    }
  }

  lemma Halved(b: byte, k: nat)
    requires 0 < k < 8
    ensures Mark(b, k) <==> Mark(b / 2, k - 1)
  {
    assert b / 4 == b / 2 / 2 && b / 8 == b / 2 / 4 && b / 16 == b / 2 / 8 && b / 32 == b / 2 / 16;
    assert b / 64 == b / 2 / 32 && b / 128 == b / 2 / 64;
  }

  /** The bit of a row in a bitmap. */
  lemma RowBit(block: seq<byte>, base: nat, row: nat)
    requires base + row / 8 < |block|
    ensures BitOf(block, base, row) <==> Mark(block[base + row / 8], row % 8)
  {
    BitAt(block[base + row / 8], row % 8);
  }

  /** What a slot of sixteen bytes looks like: the value behind its length, or length, prefix, buffer 0 and offset. */
  ghost predicate ViewStands(slot: seq<byte>, bytes: seq<byte>, offset: int) {
    |slot| == 16 && FromLe(slot[..4]) == |bytes| &&
    if |bytes| <= 12 then slot[4..4 + |bytes|] == bytes
    else slot[4..8] == bytes[..4] && slot[8..12] == [0, 0, 0, 0] && offset >= 0 && slot[12..16] == Le(offset, 4)
  }

  lemma InlineSlot(slot: seq<byte>, bytes: seq<byte>, offset: int)
    requires |slot| == 16 && |bytes| <= 12 && DecodeView(slot) == InlineView(bytes)
    ensures ViewStands(slot, bytes, offset)
  {
    hide Le, FromLe;
    var data := slot[4..];
    assert data[..|bytes|] == bytes;
    assert slot[4..4 + |bytes|] == data[..|bytes|];
    Widths();
    FromLeBound(slot[..4]);
  }

  lemma OutlineSlot(slot: seq<byte>, bytes: seq<byte>, offset: int)
    requires |slot| == 16 && 12 < |bytes| <= I32_MAX && 0 <= offset <= I32_MAX
    requires DecodeView(slot) == OutlineView(bytes, offset)
    ensures ViewStands(slot, bytes, offset)
  {
    Four(0);
    hide Le, FromLe;
    Thirds(slot, bytes[..4], Le(0, 4), Le(offset, 4));
    Widths();
    FromLeBound(slot[..4]);
  }

  lemma Thirds(slot: seq<byte>, a: seq<byte>, b: seq<byte>, c: seq<byte>)
    requires |slot| == 16 && |a| == |b| == |c| == 4 && slot[4..] == a + b + c
    ensures slot[4..8] == a && slot[8..12] == b && slot[12..16] == c
  {
    var data := slot[4..];
    assert slot[4..8] == data[..4] && slot[8..12] == data[4..8] && slot[12..16] == data[8..12];
  }

  /** Where the bytes of a value stand: behind the validity of all rows, one value after the other. */
  lemma SlotAt(specs: seq<ColumnSpec>, rows: nat, c: nat, row: nat)
    requires c < |specs|
    ensures specs[c].tag in ARROW_BITS
    ensures specs[c].tag != Boolean ==>
              var width := ARROW_BITS[specs[c].tag] / 8;
              SlotStart(specs, rows, c, row) == ValuesOff(specs, rows, c) + row * width
              && SlotEnd(specs, rows, c, row) == SlotStart(specs, rows, c, row) + width
  {
    hide ColumnStart, ValidityLen;
    SlotWidth(specs[c].tag);
  }

  /** Every cell that reads back stands where Arrow has it: its validity bit, its value bit, or its bytes. */
  lemma CellStands(block: seq<byte>, specs: seq<ColumnSpec>, rows: nat, c: nat, row: nat, cell: Cell, start: nat)
    requires Holds(block, specs, rows) && c < |specs| && row < rows
    requires CellReads(block, specs, rows, c, row, cell, start)
    ensures var (validity, values) := (ValidityOff(specs, rows, c), ValuesOff(specs, rows, c));
            && validity + row / 8 < values && values + row / 8 < |block| && specs[c].tag in ARROW_BITS
            && (specs[c].nullable ==> (Mark(block[validity + row / 8], row % 8) <==> !cell.NullCell?))
            && (cell.BoolCell? ==> (Mark(block[values + row / 8], row % 8) <==> cell.value))
            && (!cell.NullCell? && !cell.BoolCell? ==>
                  var from := values + row * (ARROW_BITS[specs[c].tag] / 8);
                  if cell.Utf8Cell? || cell.BinaryCell?
                  then
                    && from + 16 <= |block|
                    && ViewStands(block[from..from + 16], cell.bytes, start - ColumnStart(specs, rows, |specs|))
                    && (|cell.bytes| > 12 ==>
                          start + |cell.bytes| <= |block| && block[start..start + |cell.bytes|] == cell.bytes)
                  else from + |cell.bytes| <= |block| && block[from..from + |cell.bytes|] == cell.bytes)
  {
    hide ColumnStart, ValidityLen, Le, FromLe, DecodeView, InlineView, OutlineView, ViewStands, Mark, Bits.Bit;
    var (validity, values) := (ValidityOff(specs, rows, c), ValuesOff(specs, rows, c));
    CellPlaces(specs, rows, c, row);
    SlotAt(specs, rows, c, row);
    InBlock(specs, rows, c, row);
    RowBit(block, validity, row);
    RowBit(block, values, row);
    if cell.Utf8Cell? || cell.BinaryCell? {
      var (slot, offset) := (Slot(block, specs, rows, c, row), start - ColumnStart(specs, rows, |specs|));
      if |cell.bytes| <= 12 { InlineSlot(slot, cell.bytes, offset); } else { OutlineSlot(slot, cell.bytes, offset); }
    }
  }

  lemma InBlock(specs: seq<ColumnSpec>, rows: nat, c: nat, row: nat)
    requires c < |specs| && row < rows
    ensures ValuesOff(specs, rows, c) + row / 8 < ColumnStart(specs, rows, |specs|)
  {
    CellPlaces(specs, rows, c, row);
    hide ColumnStart, ValidityLen;
    var width := RowWidth(specs[c].tag);
    if width > 0 { Bits.MulApart(row, 0, width); }
  }

  /** The flags of a column: bit 0 for nullable, bit 1 for views. */
  lemma FlagBits(spec: ColumnSpec)
    ensures SpecFlags(spec) == if spec.tag in {Utf8View, BinaryView} then (if spec.nullable then 3 else 2)
                               else if spec.nullable then 1 else 0
    ensures IsNullable(SpecFlags(spec)) == spec.nullable
            && HasViewFlag(SpecFlags(spec)) == (spec.tag in {Utf8View, BinaryView})
  {
  }
}
