/** What a cell of a block reads as, and what writing one cell may touch. */
module RowCells {
  import opened Bytes
  import Bits
  import opened Bitmaps
  import opened ArrowLayout
  import opened ArrowBlock

  /** A cell handed to an encoder; numbers come as their native bytes under their type. */
  datatype Cell =
    | NullCell
    | BoolCell(value: bool)
    | FixedCell(tag: TypeTag, bytes: seq<byte>)
    | UuidCell(bytes: seq<byte>)
    | Utf8Cell(bytes: seq<byte>)
    | BinaryCell(bytes: seq<byte>)

  predicate IsNumber(tag: TypeTag) { !tag.Boolean? && !tag.Uuid? && !IsView(tag) }

  /** The type of a cell agrees with its column. */
  predicate Matches(tag: TypeTag, cell: Cell) {
    match cell
    case NullCell => true
    case BoolCell(_) => tag.Boolean?
    case FixedCell(t, bytes) => t == tag && IsNumber(tag) && |bytes| == RowWidth(tag)
    case UuidCell(bytes) => tag.Uuid? && |bytes| == 16
    case Utf8Cell(_) => tag.Utf8View?
    case BinaryCell(_) => tag.BinaryView?
  }

  /** The cell's payload is too long for its slot and lives in the tail. */
  predicate IsLong(cell: Cell) {
    (cell.Utf8Cell? || cell.BinaryCell?) && |cell.bytes| > INLINE_LEN
  }

  // ---- Where a cell lives ----------------------------------------------------------------

  function ValidityOff(specs: seq<ColumnSpec>, rows: nat, c: nat): nat
    requires c < |specs|
  {
    ColumnStart(specs, rows, c)
  }

  function ValuesOff(specs: seq<ColumnSpec>, rows: nat, c: nat): nat
    requires c < |specs|
  {
    ColumnStart(specs, rows, c) + ValidityLen(rows)
  }

  function SlotStart(specs: seq<ColumnSpec>, rows: nat, c: nat, row: nat): nat
    requires c < |specs|
  {
    ValuesOff(specs, rows, c) + row * RowWidth(specs[c].tag)
  }

  function SlotEnd(specs: seq<ColumnSpec>, rows: nat, c: nat, row: nat): nat
    requires c < |specs|
  {
    SlotStart(specs, rows, c, row) + RowWidth(specs[c].tag)
  }

  /** The buffers of a column lie in its own region, and everything in a row below `rows` is inside them. */
  lemma CellPlaces(specs: seq<ColumnSpec>, rows: nat, c: nat, row: nat)
    requires c < |specs| && row < rows
    ensures DescOffset(c + 1) <= DescOffset(|specs|) <= ColumnStart(specs, rows, c) == ValidityOff(specs, rows, c)
    ensures ValuesOff(specs, rows, c) <= SlotStart(specs, rows, c, row) <= SlotEnd(specs, rows, c, row)
    ensures ValidityOff(specs, rows, c) + row / 8 < ValuesOff(specs, rows, c)
    ensures specs[c].tag.Boolean? ==> ValuesOff(specs, rows, c) + row / 8 < ColumnStart(specs, rows, c + 1)
    ensures SlotEnd(specs, rows, c, row) <= ColumnStart(specs, rows, c + 1) <= ColumnStart(specs, rows, |specs|)
  {
    hide AlignUp, FrontBase, ValidityLen, ValuesLen, Biased, RowWidth, BitmapBytes;
    StartAligned(specs, rows, c);
    FrontBaseAfterPrefix(|specs|);
    StartsGrow(specs, rows, c + 1, |specs|);
    BitmapCovers(rows, row);
    SlotsCover(specs[c].tag, rows, row);
    assert 0 <= row * RowWidth(specs[c].tag);
  }

  lemma BitmapCovers(rows: nat, row: nat)
    requires row < rows
    ensures row / 8 < BitmapBytes(rows) <= ValidityLen(rows)
    ensures ValuesLen(Boolean, rows) >= BitmapBytes(rows)
  {
  }

  lemma SlotsCover(tag: TypeTag, rows: nat, row: nat)
    requires row < rows
    ensures row * RowWidth(tag) + RowWidth(tag) <= ValuesLen(tag, rows)
  {
    var w := RowWidth(tag);
    assert row * w + w <= rows * w by { Bits.MulApart(w, row, rows); }
    hide RowWidth, AlignUp;
  }

  lemma ColumnsApart(specs: seq<ColumnSpec>, rows: nat, c: nat, c': nat)
    requires c < |specs| && c' < |specs| && c != c'
    ensures ColumnStart(specs, rows, c + 1) <= ColumnStart(specs, rows, c')
            || ColumnStart(specs, rows, c' + 1) <= ColumnStart(specs, rows, c)
  {
    if c < c' { StartsGrow(specs, rows, c + 1, c'); } else { StartsGrow(specs, rows, c' + 1, c); }
  }

  // ---- Reading a cell -----------------------------------------------------------------------

  /** The block is large enough for its own layout. */
  predicate Holds(block: seq<byte>, specs: seq<ColumnSpec>, rows: nat) {
    ColumnStart(specs, rows, |specs|) <= |block|
  }

  predicate ValidBit(block: seq<byte>, specs: seq<ColumnSpec>, rows: nat, c: nat, row: nat)
    requires Holds(block, specs, rows) && c < |specs| && row < rows
  {
    CellPlaces(specs, rows, c, row);
    BitOf(block, ValidityOff(specs, rows, c), row)
  }

  predicate BoolBit(block: seq<byte>, specs: seq<ColumnSpec>, rows: nat, c: nat, row: nat)
    requires Holds(block, specs, rows) && c < |specs| && row < rows && specs[c].tag.Boolean?
  {
    CellPlaces(specs, rows, c, row);
    BitOf(block, ValuesOff(specs, rows, c), row)
  }

  function Slot(block: seq<byte>, specs: seq<ColumnSpec>, rows: nat, c: nat, row: nat): (s: seq<byte>)
    requires Holds(block, specs, rows) && c < |specs| && row < rows
    ensures |s| == RowWidth(specs[c].tag)
  {
    CellPlaces(specs, rows, c, row);
    block[SlotStart(specs, rows, c, row)..SlotEnd(specs, rows, c, row)]
  }

  /** A reader finds `cell` at (c, row); a long payload is found at `start` in the tail. */
  ghost predicate CellReads(block: seq<byte>, specs: seq<ColumnSpec>, rows: nat, c: nat, row: nat, cell: Cell,
                            start: nat)
    requires Holds(block, specs, rows) && c < |specs| && row < rows
  {
    var poolBase := ColumnStart(specs, rows, |specs|);
    && Matches(specs[c].tag, cell)
    && (specs[c].nullable ==> ValidBit(block, specs, rows, c, row) == !cell.NullCell?)
    && (cell.NullCell? ==> specs[c].nullable)
    && match cell
       case NullCell => true
       case BoolCell(value) => BoolBit(block, specs, rows, c, row) == value
       case FixedCell(_, bytes) => Slot(block, specs, rows, c, row) == bytes
       case UuidCell(bytes) => Slot(block, specs, rows, c, row) == bytes
       case Utf8Cell(bytes) => ViewReads(block, poolBase, Slot(block, specs, rows, c, row), bytes, start)
       case BinaryCell(bytes) => ViewReads(block, poolBase, Slot(block, specs, rows, c, row), bytes, start)
  }

  ghost predicate ViewReads(block: seq<byte>, poolBase: nat, slot: seq<byte>, bytes: seq<byte>, start: nat) {
    |slot| == VIEW_LEN &&
    if |bytes| <= INLINE_LEN then DecodeView(slot) == InlineView(bytes)
    else
      && poolBase <= start && start + |bytes| <= |block| && |bytes| <= I32_MAX && start - poolBase <= I32_MAX
      && DecodeView(slot) == OutlineView(bytes, start - poolBase) && block[start..start + |bytes|] == bytes
  }

  // ---- Writing a cell --------------------------------------------------------------------------

  /** Byte `i` may change when cell (c, row) is written with tail bytes `lo` to `hi`. */
  predicate Touched(specs: seq<ColumnSpec>, rows: nat, c: nat, row: nat, lo: nat, hi: nat, i: nat)
    requires c < |specs|
  {
    || DescOffset(c) <= i < DescOffset(c + 1)
    || i == ValidityOff(specs, rows, c) + row / 8
    || (specs[c].tag.Boolean? && i == ValuesOff(specs, rows, c) + row / 8)
    || SlotStart(specs, rows, c, row) <= i < SlotEnd(specs, rows, c, row)
    || lo <= i < hi
  }

  /** `block'` is `block` with at most cell (c, row), descriptor `c` and the tail from `lo` to `hi` written. */
  ghost predicate OnlyCell(block: seq<byte>, block': seq<byte>, specs: seq<ColumnSpec>, rows: nat, c: nat, row: nat,
                           lo: nat, hi: nat)
    requires c < |specs| && row < rows && Holds(block, specs, rows)
  {
    && |block'| == |block|
    && (forall i: nat :: i < |block| && !Touched(specs, rows, c, row, lo, hi, i) ==> block'[i] == block[i])
    && (forall r: nat :: r < rows && r != row ==>
          ValidBit(block', specs, rows, c, r) == ValidBit(block, specs, rows, c, r))
    && (specs[c].tag.Boolean? ==>
          forall r: nat :: r < rows && r != row ==>
              BoolBit(block', specs, rows, c, r) == BoolBit(block, specs, rows, c, r))
  }

  /** Bytes `from` to `to` are untouched. */
  predicate Apart(specs: seq<ColumnSpec>, rows: nat, c: nat, row: nat, lo: nat, hi: nat, from: nat, to: nat)
    requires c < |specs|
  {
    && (to <= DescOffset(c) || DescOffset(c + 1) <= from)
    && !(from <= ValidityOff(specs, rows, c) + row / 8 < to)
    && (specs[c].tag.Boolean? ==> !(from <= ValuesOff(specs, rows, c) + row / 8 < to))
    && (to <= SlotStart(specs, rows, c, row) || SlotEnd(specs, rows, c, row) <= from)
    && (to <= lo || hi <= from)
  }

  lemma RangeKept(block: seq<byte>, block': seq<byte>, specs: seq<ColumnSpec>, rows: nat, c: nat, row: nat, lo: nat,
                  hi: nat, from: nat, to: nat)
    requires c < |specs| && row < rows && Holds(block, specs, rows)
             && OnlyCell(block, block', specs, rows, c, row, lo, hi)
    requires from <= to <= |block| && Apart(specs, rows, c, row, lo, hi, from, to)
    ensures block'[from..to] == block[from..to]
  {
    hide ColumnStart, RowWidth, ValidBit, BoolBit, Holds;
    forall i: nat | from <= i < to ensures block'[i] == block[i] {
      assert !Touched(specs, rows, c, row, lo, hi, i);
    }
  }

  /** Another cell of the same block is out of the way of a cell write, in its front buffers. */
  lemma CellsApart(specs: seq<ColumnSpec>, rows: nat, c: nat, row: nat, lo: nat, hi: nat, c': nat, row': nat)
    requires c < |specs| && c' < |specs| && row < rows && row' < rows && ColumnStart(specs, rows, |specs|) <= lo
    requires c' != c
    ensures Apart(specs, rows, c, row, lo, hi, ValidityOff(specs, rows, c') + row' / 8,
                  ValidityOff(specs, rows, c') + row' / 8 + 1)
    ensures specs[c'].tag.Boolean? ==>
              Apart(specs, rows, c, row, lo, hi, ValuesOff(specs, rows, c') + row' / 8,
                    ValuesOff(specs, rows, c') + row' / 8 + 1)
    ensures Apart(specs, rows, c, row, lo, hi, SlotStart(specs, rows, c', row'), SlotEnd(specs, rows, c', row'))
  {
    hide ColumnStart, RowWidth, ValidityOff, ValuesOff, SlotStart, SlotEnd, DescOffset;
    CellPlaces(specs, rows, c, row);
    CellPlaces(specs, rows, c', row');
    ColumnsApart(specs, rows, c, c');
  }

  lemma SlotsApart(specs: seq<ColumnSpec>, rows: nat, c: nat, row: nat, row': nat)
    requires c < |specs| && row != row'
    ensures SlotEnd(specs, rows, c, row) <= SlotStart(specs, rows, c, row')
            || SlotEnd(specs, rows, c, row') <= SlotStart(specs, rows, c, row)
  {
    hide ColumnStart, RowWidth, ValuesOff;
    var w := RowWidth(specs[c].tag);
    Bits.MulApart(w, row, row');
    Bits.MulApart(w, row', row);
  }

  lemma RowsApart(specs: seq<ColumnSpec>, rows: nat, c: nat, row: nat, lo: nat, hi: nat, row': nat)
    requires c < |specs| && row < rows && row' < rows && row != row' && ColumnStart(specs, rows, |specs|) <= lo
    requires !specs[c].tag.Boolean?
    ensures Apart(specs, rows, c, row, lo, hi, SlotStart(specs, rows, c, row'), SlotEnd(specs, rows, c, row'))
  {
    hide ColumnStart, RowWidth, ValidityOff, ValuesOff, DescOffset;
    SlotsApart(specs, rows, c, row, row');
    hide SlotStart, SlotEnd;
    CellPlaces(specs, rows, c, row);
    CellPlaces(specs, rows, c, row');
  }

  lemma TailApart(specs: seq<ColumnSpec>, rows: nat, c: nat, row: nat, lo: nat, hi: nat, from: nat, to: nat)
    requires c < |specs| && row < rows && ColumnStart(specs, rows, |specs|) <= lo && hi <= from
             && ColumnStart(specs, rows, |specs|) <= from
    ensures Apart(specs, rows, c, row, lo, hi, from, to)
  {
    hide ColumnStart, RowWidth, ValidityOff, ValuesOff, SlotStart, SlotEnd, DescOffset;
    CellPlaces(specs, rows, c, row);
  }

  lemma BitsKept(block: seq<byte>, block': seq<byte>, specs: seq<ColumnSpec>, rows: nat, c: nat, row: nat, lo: nat,
                 hi: nat, c': nat, row': nat)
    requires c < |specs| && c' < |specs| && row < rows && row' < rows && (c', row') != (c, row)
    requires Holds(block, specs, rows) && OnlyCell(block, block', specs, rows, c, row, lo, hi)
             && ColumnStart(specs, rows, |specs|) <= lo
    ensures ValidBit(block', specs, rows, c', row') == ValidBit(block, specs, rows, c', row')
    ensures specs[c'].tag.Boolean? ==> BoolBit(block', specs, rows, c', row') == BoolBit(block, specs, rows, c', row')
    ensures !specs[c'].tag.Boolean? ==> Slot(block', specs, rows, c', row') == Slot(block, specs, rows, c', row')
  {
    hide ColumnStart, RowWidth, ValidityOff, ValuesOff, SlotStart, SlotEnd, DescOffset, Apart, Touched;
    CellPlaces(specs, rows, c', row');
    if c' != c {
      CellsApart(specs, rows, c, row, lo, hi, c', row');
      var vb, bb := ValidityOff(specs, rows, c') + row' / 8, ValuesOff(specs, rows, c') + row' / 8;
      RangeKept(block, block', specs, rows, c, row, lo, hi, vb, vb + 1);
      assert block'[vb] == block'[vb..vb + 1][0] && block[vb] == block[vb..vb + 1][0];
      if specs[c'].tag.Boolean? {
        RangeKept(block, block', specs, rows, c, row, lo, hi, bb, bb + 1);
        assert block'[bb] == block'[bb..bb + 1][0] && block[bb] == block[bb..bb + 1][0];
      }
      RangeKept(block, block', specs, rows, c, row, lo, hi, SlotStart(specs, rows, c', row'),
                SlotEnd(specs, rows, c', row'));
    } else if !specs[c].tag.Boolean? {
      RowsApart(specs, rows, c, row, lo, hi, row');
      RangeKept(block, block', specs, rows, c, row, lo, hi, SlotStart(specs, rows, c, row'),
                SlotEnd(specs, rows, c, row'));
    }
  }

  /** Writing one cell leaves every other cell reading as before, its long payload included. */
  lemma OthersRead(block: seq<byte>, block': seq<byte>, specs: seq<ColumnSpec>, rows: nat, c: nat, row: nat, lo: nat,
                   hi: nat,
                   c': nat, row': nat, cell: Cell, start: nat)
    requires c < |specs| && c' < |specs| && row < rows && row' < rows && (c', row') != (c, row)
    requires Holds(block, specs, rows) && OnlyCell(block, block', specs, rows, c, row, lo, hi)
             && ColumnStart(specs, rows, |specs|) <= lo
    requires CellReads(block, specs, rows, c', row', cell, start) && (IsLong(cell) ==> hi <= start)
    ensures CellReads(block', specs, rows, c', row', cell, start)
  {
    BitsKept(block, block', specs, rows, c, row, lo, hi, c', row');
    if IsLong(cell) {
      hide ColumnStart, RowWidth, Apart, DecodeView, OutlineView, InlineView, ValidBit, BoolBit, Slot;
      TailApart(specs, rows, c, row, lo, hi, start, start + |cell.bytes|);
      RangeKept(block, block', specs, rows, c, row, lo, hi, start, start + |cell.bytes|);
    }
    hide ColumnStart, RowWidth, DecodeView, OutlineView, InlineView, ValidBit, BoolBit, Slot;
  }

  /** Other descriptors and the header are out of the way as well. */
  lemma DescsKept(block: seq<byte>, block': seq<byte>, specs: seq<ColumnSpec>, rows: nat, c: nat, row: nat, lo: nat,
                  hi: nat, j: nat)
    requires c < |specs| && j < |specs| && j != c && row < rows && Holds(block, specs, rows)
             && DescOffset(|specs|) <= |block|
    requires OnlyCell(block, block', specs, rows, c, row, lo, hi) && ColumnStart(specs, rows, |specs|) <= lo
    ensures DescAt(block', j) == DescAt(block, j)
  {
    hide ColumnStart, RowWidth, ValidityOff, ValuesOff, SlotStart, SlotEnd, Touched, DecodeDesc;
    CellPlaces(specs, rows, c, row);
    assert Apart(specs, rows, c, row, lo, hi, DescOffset(j), DescOffset(j) + DESC_LEN);
    hide Apart;
    RangeKept(block, block', specs, rows, c, row, lo, hi, DescOffset(j), DescOffset(j) + DESC_LEN);
  }

  // ---- The parts of one cell ---------------------------------------------------------------------

  /** Everything the front of the block holds for one cell, and the column's descriptor. */
  datatype Parts = Parts(valid: bool, value: bool, slot: seq<byte>, desc: ColumnDesc)

  predicate InRange(block: seq<byte>, specs: seq<ColumnSpec>, rows: nat, c: nat, row: nat) {
    c < |specs| && row < rows && Holds(block, specs, rows)
  }

  function PartsOf(block: seq<byte>, specs: seq<ColumnSpec>, rows: nat, c: nat, row: nat): Parts
    requires InRange(block, specs, rows, c, row)
  {
    CellPlaces(specs, rows, c, row);
    Parts(ValidBit(block, specs, rows, c, row), specs[c].tag.Boolean? && BoolBit(block, specs, rows, c, row),
          Slot(block, specs, rows, c, row), DescAt(block, c))
  }

  function SetValid(block: seq<byte>, specs: seq<ColumnSpec>, rows: nat, c: nat, row: nat, value: bool): (r: seq<byte>)
    requires InRange(block, specs, rows, c, row)
    ensures |r| == |block|
  {
    CellPlaces(specs, rows, c, row);
    WithBit(block, ValidityOff(specs, rows, c), row, value)
  }

  function SetBool(block: seq<byte>, specs: seq<ColumnSpec>, rows: nat, c: nat, row: nat, value: bool): (r: seq<byte>)
    requires InRange(block, specs, rows, c, row) && specs[c].tag.Boolean?
    ensures |r| == |block|
  {
    CellPlaces(specs, rows, c, row);
    WithBit(block, ValuesOff(specs, rows, c), row, value)
  }

  function SetSlot(block: seq<byte>, specs: seq<ColumnSpec>, rows: nat, c: nat, row: nat,
                   bytes: seq<byte>): (r: seq<byte>)
    requires InRange(block, specs, rows, c, row) && |bytes| == RowWidth(specs[c].tag)
    ensures |r| == |block|
  {
    CellPlaces(specs, rows, c, row);
    Splice(block, SlotStart(specs, rows, c, row), bytes)
  }

  function SetDesc(block: seq<byte>, specs: seq<ColumnSpec>, rows: nat, c: nat, d: ColumnDesc): (r: seq<byte>)
    requires c < |specs| && Holds(block, specs, rows)
    ensures |r| == |block|
  {
    PrefixHeld(block, specs, rows);
    Splice(block, DescOffset(c), EncodeDesc(d))
  }

  lemma PrefixHeld(block: seq<byte>, specs: seq<ColumnSpec>, rows: nat)
    requires Holds(block, specs, rows)
    ensures DescOffset(|specs|) <= ColumnStart(specs, rows, |specs|) <= |block|
    ensures forall c: nat :: c < |specs| ==> DescOffset(c) + DESC_LEN <= DescOffset(|specs|)
  {
    hide FrontBase, ColumnStart, Biased;
    StartAligned(specs, rows, |specs|);
    FrontBaseAfterPrefix(|specs|);
  }

  /** The tail of the block, from the pool on, is the same. */
  ghost predicate SameTail(block: seq<byte>, block': seq<byte>, specs: seq<ColumnSpec>, rows: nat) {
    |block'| == |block| && forall i: nat :: ColumnStart(specs, rows, |specs|) <= i < |block| ==> block'[i] == block[i]
  }

  lemma SetValidParts(block: seq<byte>, specs: seq<ColumnSpec>, rows: nat, c: nat, row: nat, value: bool, lo: nat,
                      hi: nat)
    requires InRange(block, specs, rows, c, row)
    ensures var block' := SetValid(block, specs, rows, c, row, value);
            && OnlyCell(block, block', specs, rows, c, row, lo, hi) && SameTail(block, block', specs, rows)
            && PartsOf(block', specs, rows, c, row) == PartsOf(block, specs, rows, c, row).(valid := value)
  {
    hide ColumnStart, RowWidth, ValuesOff, SlotStart, SlotEnd, DescOffset, DecodeDesc, ValidityOff;
    var block', base := SetValid(block, specs, rows, c, row, value), ValidityOff(specs, rows, c);
    CellPlaces(specs, rows, c, row);
    forall r: nat | r < rows
      ensures ValidBit(block', specs, rows, c, r) == if r == row then value else ValidBit(block, specs, rows, c, r)
    {
      CellPlaces(specs, rows, c, r);
      WithBitReads(block, base, row, value, r);
    }
    forall r: nat | r < rows && specs[c].tag.Boolean?
      ensures BoolBit(block', specs, rows, c, r) == BoolBit(block, specs, rows, c, r)
    {
      CellPlaces(specs, rows, c, r);
    }
    WithBitApart(block, base, row, value, SlotStart(specs, rows, c, row), SlotEnd(specs, rows, c, row));
    PrefixHeld(block, specs, rows);
    WithBitApart(block, base, row, value, DescOffset(c), DescOffset(c) + DESC_LEN);
  }

  lemma SetBoolParts(block: seq<byte>, specs: seq<ColumnSpec>, rows: nat, c: nat, row: nat, value: bool, lo: nat,
                     hi: nat)
    requires InRange(block, specs, rows, c, row) && specs[c].tag.Boolean?
    ensures var block' := SetBool(block, specs, rows, c, row, value);
            && OnlyCell(block, block', specs, rows, c, row, lo, hi) && SameTail(block, block', specs, rows)
            && PartsOf(block', specs, rows, c, row) == PartsOf(block, specs, rows, c, row).(value := value)
  {
    hide ColumnStart, ValuesOff, SlotStart, SlotEnd, DescOffset, DecodeDesc, ValidityOff;
    var block', base := SetBool(block, specs, rows, c, row, value), ValuesOff(specs, rows, c);
    CellPlaces(specs, rows, c, row);
    forall r: nat | r < rows
      ensures BoolBit(block', specs, rows, c, r) == if r == row then value else BoolBit(block, specs, rows, c, r)
    {
      CellPlaces(specs, rows, c, r);
      WithBitReads(block, base, row, value, r);
    }
    forall r: nat | r < rows
      ensures ValidBit(block', specs, rows, c, r) == ValidBit(block, specs, rows, c, r)
    {
      CellPlaces(specs, rows, c, r);
    }
    PrefixHeld(block, specs, rows);
    WithBitApart(block, base, row, value, DescOffset(c), DescOffset(c) + DESC_LEN);
  }

  lemma SetSlotParts(block: seq<byte>, specs: seq<ColumnSpec>, rows: nat, c: nat, row: nat, bytes: seq<byte>, lo: nat,
                     hi: nat)
    requires InRange(block, specs, rows, c, row) && |bytes| == RowWidth(specs[c].tag) && !specs[c].tag.Boolean?
    ensures var block' := SetSlot(block, specs, rows, c, row, bytes);
            && OnlyCell(block, block', specs, rows, c, row, lo, hi) && SameTail(block, block', specs, rows)
            && PartsOf(block', specs, rows, c, row) == PartsOf(block, specs, rows, c, row).(slot := bytes)
  {
    var block' := SetSlot(block, specs, rows, c, row, bytes);
    assert SlotEnd(specs, rows, c, row) == SlotStart(specs, rows, c, row) + |bytes|;
    hide ColumnStart, RowWidth, ValuesOff, SlotStart, SlotEnd, DescOffset, DecodeDesc, ValidityOff;
    CellPlaces(specs, rows, c, row);
    forall r: nat | r < rows
      ensures ValidBit(block', specs, rows, c, r) == ValidBit(block, specs, rows, c, r)
    {
      CellPlaces(specs, rows, c, r);
    }
    PrefixHeld(block, specs, rows);
    SpliceApart(block, SlotStart(specs, rows, c, row), bytes, DescOffset(c), DescOffset(c) + DESC_LEN);
  }

  lemma SetDescParts(block: seq<byte>, specs: seq<ColumnSpec>, rows: nat, c: nat, row: nat, d: ColumnDesc, lo: nat,
                     hi: nat)
    requires InRange(block, specs, rows, c, row) && DescFits(d)
    ensures var block' := SetDesc(block, specs, rows, c, d);
            && OnlyCell(block, block', specs, rows, c, row, lo, hi) && SameTail(block, block', specs, rows)
            && PartsOf(block', specs, rows, c, row) == PartsOf(block, specs, rows, c, row).(desc := d)
  {
    hide ColumnStart, RowWidth, ValuesOff, SlotStart, SlotEnd, DecodeDesc, EncodeDesc, ValidityOff, DescFits;
    var block' := SetDesc(block, specs, rows, c, d);
    CellPlaces(specs, rows, c, row);
    PrefixHeld(block, specs, rows);
    DescStored(block, |specs|, c, d);
    forall r: nat | r < rows
      ensures ValidBit(block', specs, rows, c, r) == ValidBit(block, specs, rows, c, r)
      ensures specs[c].tag.Boolean? ==> BoolBit(block', specs, rows, c, r) == BoolBit(block, specs, rows, c, r)
    {
      CellPlaces(specs, rows, c, r);
    }
    SpliceApart(block, DescOffset(c), EncodeDesc(d), SlotStart(specs, rows, c, row), SlotEnd(specs, rows, c, row));
  }

  /** Storing a payload in the free tail changes no cell's front. */
  lemma TailParts(block: seq<byte>, specs: seq<ColumnSpec>, rows: nat, c: nat, row: nat, start: nat, bytes: seq<byte>)
    requires InRange(block, specs, rows, c, row) && ColumnStart(specs, rows, |specs|) <= start
             && start + |bytes| <= |block|
    ensures var block' := Splice(block, start, bytes);
            && OnlyCell(block, block', specs, rows, c, row, start, start + |bytes|)
            && PartsOf(block', specs, rows, c, row) == PartsOf(block, specs, rows, c, row)
  {
    hide ColumnStart, RowWidth, ValuesOff, SlotStart, SlotEnd, DecodeDesc, ValidityOff, DescOffset;
    var block' := Splice(block, start, bytes);
    CellPlaces(specs, rows, c, row);
    PrefixHeld(block, specs, rows);
    forall r: nat | r < rows
      ensures ValidBit(block', specs, rows, c, r) == ValidBit(block, specs, rows, c, r)
      ensures specs[c].tag.Boolean? ==> BoolBit(block', specs, rows, c, r) == BoolBit(block, specs, rows, c, r)
    {
      CellPlaces(specs, rows, c, r);
    }
    SpliceApart(block, start, bytes, SlotStart(specs, rows, c, row), SlotEnd(specs, rows, c, row));
    SpliceApart(block, start, bytes, DescOffset(c), DescOffset(c) + DESC_LEN);
  }

  lemma OnlyTrans(b0: seq<byte>, b1: seq<byte>, b2: seq<byte>, specs: seq<ColumnSpec>, rows: nat, c: nat, row: nat,
                  lo: nat, hi: nat)
    requires InRange(b0, specs, rows, c, row)
    requires OnlyCell(b0, b1, specs, rows, c, row, lo, hi) && OnlyCell(b1, b2, specs, rows, c, row, lo, hi)
    ensures OnlyCell(b0, b2, specs, rows, c, row, lo, hi)
  {
    hide ColumnStart, Touched, ValidBit, BoolBit;
  }

  lemma OnlySelf(block: seq<byte>, specs: seq<ColumnSpec>, rows: nat, c: nat, row: nat, lo: nat, hi: nat)
    requires InRange(block, specs, rows, c, row)
    ensures OnlyCell(block, block, specs, rows, c, row, lo, hi)
  {
  }
}
