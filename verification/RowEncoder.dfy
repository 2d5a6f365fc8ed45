/** The row encoder: cells written in place, a tail that grows downwards, and rollback of rows that do not fit. */
module RowEncoder {
  import opened Common
  import opened Bytes
  import opened Bitmaps
  import opened ArrowLayout
  import opened ArrowBlock
  import opened RowCells

  datatype RowError =
    | NullInNonNullableColumn | TypeMismatch | InvalidUuidWidth | RowValueTooLarge | CountOverflow | TailOverflow
    | OffsetTooLarge

  datatype CellOutcome = CellWritten(cursor: nat) | CellFull | CellFailed(error: RowError)

  datatype RowOutcome = Appended | Full | Failed(error: RowError)

  // ---- What a row comes to ----------------------------------------------------------

  /** The type check of `write_cell`. */
  function CellTypeError(tag: TypeTag, cell: Cell): Option<RowError> {
    if cell.UuidCell? && tag.Uuid? then (if |cell.bytes| != 16 then Some(InvalidUuidWidth) else None)
    else if Matches(tag, cell) then None
    else Some(TypeMismatch)
  }

  /** What writing one cell comes to, from the column, its null count and the tail cursor alone. */
  function WriteOutcome(spec: ColumnSpec, nullCount: nat, poolBase: nat, cursor: nat, cell: Cell): CellOutcome {
    if cell.NullCell? then
      if !spec.nullable then CellFailed(NullInNonNullableColumn)
      else if nullCount >= U32_MAX then CellFailed(CountOverflow)
      else CellWritten(cursor)
    else
      var mismatch := CellTypeError(spec.tag, cell);
      if mismatch.Some? then CellFailed(mismatch.value)
      else if !IsView(spec.tag) then CellWritten(cursor)
      else TailOutcome(poolBase, cursor, |cell.bytes|)
  }

  /** `tail_alloc` after the length checks of `write_view`. */
  function TailOutcome(poolBase: nat, cursor: nat, len: nat): CellOutcome {
    if len > I32_MAX then CellFailed(RowValueTooLarge)
    else if len <= INLINE_LEN then CellWritten(cursor)
    else if len > cursor then CellFailed(TailOverflow)
    else if cursor - len < poolBase then CellFull
    else if cursor - len - poolBase > I32_MAX then CellFailed(OffsetTooLarge)
    else CellWritten(cursor - len)
  }

  /** What a row comes to, column by column from `c`. */
  function ScanRow(specs: seq<ColumnSpec>, counts: seq<nat>, poolBase: nat, cells: seq<Cell>, c: nat,
                   cursor: nat): RowOutcome
    requires |counts| == |cells| == |specs| && c <= |specs|
    decreases |specs| - c
  {
    if c == |specs| then Appended
    else match WriteOutcome(specs[c], counts[c], poolBase, cursor, cells[c])
         case CellWritten(next) => ScanRow(specs, counts, poolBase, cells, c + 1, next)
         case CellFull => Full
         case CellFailed(error) => Failed(error)
  }

  /** The first column whose cell is not written. */
  function StopsAt(specs: seq<ColumnSpec>, counts: seq<nat>, poolBase: nat, cells: seq<Cell>, c: nat, cursor: nat): nat
    requires |counts| == |cells| == |specs| && c <= |specs|
    decreases |specs| - c
  {
    if c == |specs| then c
    else match WriteOutcome(specs[c], counts[c], poolBase, cursor, cells[c])
         case CellWritten(next) => StopsAt(specs, counts, poolBase, cells, c + 1, next)
         case _ => c
  }

  /** What a cell takes from the tail. */
  function TailBytes(cell: Cell): nat { if IsLong(cell) then |cell.bytes| else 0 }

  /** What a row takes from the tail. */
  function LongBytes(cells: seq<Cell>): nat {
    if cells == [] then 0 else LongBytes(cells[..|cells| - 1]) + TailBytes(cells[|cells| - 1])
  }

  lemma LongBytesNext(cells: seq<Cell>, c: nat)
    requires c < |cells|
    ensures LongBytes(cells[..c + 1]) == LongBytes(cells[..c]) + TailBytes(cells[c])
  {
    assert cells[..c + 1][..c] == cells[..c];
  }

  /** Where a row stops: before that column every cell is written, and its own cell decides the outcome. */
  lemma {:induction false} StopsWith(specs: seq<ColumnSpec>, counts: seq<nat>, poolBase: nat, cells: seq<Cell>, c: nat,
                                     cursor: nat, top: nat)
    requires |counts| == |cells| == |specs| && c <= |specs| && cursor + LongBytes(cells[..c]) == top
    ensures var stop := StopsAt(specs, counts, poolBase, cells, c, cursor);
            && c <= stop <= |specs| && LongBytes(cells[..stop]) <= top
            && (stop == |specs| ==> ScanRow(specs, counts, poolBase, cells, c, cursor) == Appended)
            && (stop < |specs| ==>
                  var left := top - LongBytes(cells[..stop]);
                  var w := WriteOutcome(specs[stop], counts[stop], poolBase, left, cells[stop]);
                  !w.CellWritten? && ScanRow(specs, counts, poolBase, cells, c, cursor) == OfCell(w))
    decreases |specs| - c
  {
    if c < |specs| {
      var w := WriteOutcome(specs[c], counts[c], poolBase, cursor, cells[c]);
      if w.CellWritten? {
        LongBytesNext(cells, c);
        StopsWith(specs, counts, poolBase, cells, c + 1, w.cursor, top);
      }
    }
  }

  /** What a cell's outcome makes of its row, if the cell is the last one tried. */
  function OfCell(w: CellOutcome): RowOutcome {
    match w
    case CellWritten(_) => Appended
    case CellFull => Full
    case CellFailed(error) => Failed(error)
  }

  /** A long cell of the right type, of a length that can be stored, but longer than all that is below the cursor. */
  predicate Overlong(spec: ColumnSpec, cell: Cell, cursor: nat) {
    Matches(spec.tag, cell) && IsLong(cell) && cursor < |cell.bytes| <= I32_MAX
  }

  /**
   * A row overflows the tail exactly if the first cell that is not written is longer than what the cells before it
   * leave below the cursor, pool base or not.
   */
  lemma TailOverflowsExactly(specs: seq<ColumnSpec>, counts: seq<nat>, poolBase: nat, cells: seq<Cell>, cursor: nat)
    requires |counts| == |cells| == |specs|
    ensures var stop := StopsAt(specs, counts, poolBase, cells, 0, cursor);
            && stop <= |specs| && LongBytes(cells[..stop]) <= cursor
            && (ScanRow(specs, counts, poolBase, cells, 0, cursor) == Failed(TailOverflow) <==>
                  stop < |specs| && Overlong(specs[stop], cells[stop], cursor - LongBytes(cells[..stop])))
  {
    hide ScanRow, StopsAt;
    StopsWith(specs, counts, poolBase, cells, 0, cursor, cursor);
  }

  // ---- The encoder ------------------------------------------------------------------------

  /** Rows committed through this encoder, and where each long payload starts. */
  datatype Committed = Committed(base: nat, nullBase: seq<nat>, rows: seq<seq<Cell>>, starts: map<(nat, nat), nat>)

  function NullsIn(rows: seq<seq<Cell>>, c: nat): nat
    requires forall k :: 0 <= k < |rows| ==> c < |rows[k]|
  {
    if rows == [] then 0
    else NullsIn(rows[..|rows| - 1], c) + (if rows[|rows| - 1][c].NullCell? then 1 else 0)
  }

  ghost predicate Shaped(done: Committed, specs: seq<ColumnSpec>) {
    |done.nullBase| == |specs| && forall k :: 0 <= k < |done.rows| ==> |done.rows[k]| == |specs|
  }

  /** The nulls of a row's first `k` columns, counted although the row was not committed. */
  ghost function Leak(done: Committed, cells: seq<Cell>, k: nat): Committed
    requires |done.nullBase| == |cells|
  {
    done.(nullBase := seq(|cells|,
                          c requires 0 <= c < |cells| => done.nullBase[c] + if c < k && cells[c].NullCell? then 1
                              else 0))
  }

  ghost function StartOf(done: Committed, k: nat, c: nat): nat {
    if (k, c) in done.starts then done.starts[(k, c)] else 0
  }

  /** Cell (k, c) of the committed rows reads back, with its long payload inside the allocated tail. */
  ghost predicate RowReads(block: seq<byte>, h: BlockHeader, specs: seq<ColumnSpec>, done: Committed, k: nat, c: nat)
    requires Shaped(done, specs) && k < |done.rows| && c < |specs| && Holds(block, specs, h.maxRows)
  {
    && done.base + k < h.rowCount <= h.maxRows
    && CellReads(block, specs, h.maxRows, c, done.base + k, done.rows[k][c], StartOf(done, k, c))
    && (IsLong(done.rows[k][c]) ==>
          h.tailCursor <= StartOf(done, k, c) && StartOf(done, k, c) + |done.rows[k][c].bytes| <= h.blockSize)
  }

  ghost predicate AllRead(block: seq<byte>, h: BlockHeader, specs: seq<ColumnSpec>, done: Committed)
    requires Shaped(done, specs) && Holds(block, specs, h.maxRows)
  {
    forall k: nat, c: nat :: k < |done.rows| && c < |specs| ==> RowReads(block, h, specs, done, k, c)
  }

  /** Long payloads of different cells do not overlap. */
  ghost predicate PayloadsApart(done: Committed, specs: seq<ColumnSpec>)
    requires Shaped(done, specs)
  {
    forall k: nat, c: nat, k': nat, c': nat ::
      k < |done.rows| && k' < |done.rows| && c < |specs| && c' < |specs| && (k, c) != (k', c')
      && IsLong(done.rows[k][c]) && IsLong(done.rows[k'][c']) ==>
        StartOf(done, k, c) + |done.rows[k][c].bytes| <= StartOf(done, k', c')
        || StartOf(done, k', c') + |done.rows[k'][c'].bytes| <= StartOf(done, k, c)
  }

  /** The null counts in the descriptors are the initial ones plus the committed nulls. */
  ghost predicate CountsFit(block: seq<byte>, specs: seq<ColumnSpec>, done: Committed)
    requires Shaped(done, specs) && DescOffset(|specs|) <= |block|
  {
    forall c: nat :: c < |specs| ==> DescAt(block, c).nullCount == done.nullBase[c] + NullsIn(done.rows, c)
  }

  ghost predicate EncoderOk(block: seq<byte>, h: BlockHeader, specs: seq<ColumnSpec>, done: Committed) {
    && LaidOut(block, h, specs) && HeaderFits(h) && Shaped(done, specs) && h.rowCount == done.base + |done.rows|
    && Holds(block, specs, h.maxRows)
    && AllRead(block, h, specs, done) && PayloadsApart(done, specs) && CountsFit(block, specs, done)
  }

  ghost function Counts(block: seq<byte>, specs: seq<ColumnSpec>): (counts: seq<nat>)
    requires DescOffset(|specs|) <= |block|
    ensures |counts| == |specs|
  {
    seq(|specs|, c requires 0 <= c < |specs| => DescAt(block, c).nullCount)
  }

  // ---- Writing one cell --------------------------------------------------------------------

  /** The block after a cell is written: that cell reads back and nothing else changed. */
  ghost predicate CellStored(block: seq<byte>, block': seq<byte>, specs: seq<ColumnSpec>, maxRows: nat, c: nat,
                             row: nat,
                             cell: Cell, next: nat, cursor: nat)
    requires InRange(block, specs, maxRows, c, row)
  {
    && OnlyCell(block, block', specs, maxRows, c, row, next, cursor)
    && CellReads(block', specs, maxRows, c, row, cell, next)
    && PartsOf(block', specs, maxRows, c, row).desc
       == PartsOf(block, specs, maxRows, c,
                  row).desc.(nullCount := PartsOf(block, specs, maxRows, c,
                                                  row).desc.nullCount + if cell.NullCell? then 1 else 0)
  }

  /** The block after a cell was begun and given up: at most that cell and the tail below the cursor changed. */
  ghost predicate CellTouched(block: seq<byte>, block': seq<byte>, specs: seq<ColumnSpec>, maxRows: nat, c: nat,
                              row: nat,
                              next: nat, cursor: nat)
    requires InRange(block, specs, maxRows, c, row)
  {
    && OnlyCell(block, block', specs, maxRows, c, row, next, cursor)
    && PartsOf(block', specs, maxRows, c, row).desc == PartsOf(block, specs, maxRows, c, row).desc
  }

  lemma Untouched(block: seq<byte>, specs: seq<ColumnSpec>, maxRows: nat, c: nat, row: nat, at: nat)
    requires InRange(block, specs, maxRows, c, row)
    ensures CellTouched(block, block, specs, maxRows, c, row, at, at)
  {
    hide ColumnStart, OnlyCell, PartsOf;
    OnlySelf(block, specs, maxRows, c, row, at, at);
  }

  lemma TouchedRange(block: seq<byte>, block': seq<byte>, specs: seq<ColumnSpec>, rows: nat, c: nat, row: nat,
                     lo: nat, hi: nat)
    requires InRange(block, specs, rows, c, row) && OnlyCell(block, block', specs, rows, c, row, lo, hi)
    ensures InRange(block', specs, rows, c, row) && |block'| == |block|
  {
  }

  /** The front parts decide what a cell without tail bytes reads as. */
  lemma PartsDecide(block: seq<byte>, specs: seq<ColumnSpec>, rows: nat, c: nat, row: nat, cell: Cell, start: nat)
    requires InRange(block, specs, rows, c, row) && Matches(specs[c].tag, cell) && !IsLong(cell)
    requires var p := PartsOf(block, specs, rows, c, row);
             && (specs[c].nullable ==> p.valid == !cell.NullCell?) && (cell.NullCell? ==> specs[c].nullable)
             && match cell
                case NullCell => true
                case BoolCell(value) => p.value == value
                case FixedCell(_, bytes) => p.slot == bytes
                case UuidCell(bytes) => p.slot == bytes
                case Utf8Cell(bytes) => p.slot == EncodeView(InlineView(bytes))
                case BinaryCell(bytes) => p.slot == EncodeView(InlineView(bytes))
    ensures CellReads(block, specs, rows, c, row, cell, start)
  {
    hide ColumnStart, RowWidth, ValidBit, BoolBit, Slot, EncodeView, DecodeView, InlineView;
    if cell.Utf8Cell? || cell.BinaryCell? { ViewRoundTrip(InlineView(cell.bytes)); }
  }

  lemma LongDecides(block: seq<byte>, specs: seq<ColumnSpec>, rows: nat, c: nat, row: nat, cell: Cell, start: nat)
    requires InRange(block, specs, rows, c, row) && Matches(specs[c].tag, cell) && IsLong(cell)
    requires |cell.bytes| <= I32_MAX && ColumnStart(specs, rows, |specs|) <= start
             && start - ColumnStart(specs, rows, |specs|) <= I32_MAX
    requires start + |cell.bytes| <= |block| && block[start..start + |cell.bytes|] == cell.bytes
    requires var p := PartsOf(block, specs, rows, c, row);
             (specs[c].nullable ==> p.valid)
                 && p.slot == EncodeView(OutlineView(cell.bytes, start - ColumnStart(specs, rows, |specs|)))
    ensures CellReads(block, specs, rows, c, row, cell, start)
  {
    hide ColumnStart, RowWidth, ValidBit, BoolBit, Slot, EncodeView, DecodeView, OutlineView;
    ViewRoundTrip(OutlineView(cell.bytes, start - ColumnStart(specs, rows, |specs|)));
  }

  lemma TailSame(block: seq<byte>, block': seq<byte>, specs: seq<ColumnSpec>, rows: nat, start: nat, len: nat)
    requires SameTail(block, block', specs, rows) && ColumnStart(specs, rows, |specs|) <= start
             && start + len <= |block|
    ensures block'[start..start + len] == block[start..start + len]
  {
    hide ColumnStart;
  }

  lemma LongTail(block: seq<byte>, specs: seq<ColumnSpec>, rows: nat, c: nat, row: nat, start: nat, bytes: seq<byte>)
    requires InRange(block, specs, rows, c, row) && ColumnStart(specs, rows, |specs|) <= start
             && start + |bytes| <= |block|
    ensures InRange(Splice(block, start, bytes), specs, rows, c, row)
    ensures PartsOf(Splice(block, start, bytes), specs, rows, c, row).desc == PartsOf(block, specs, rows, c, row).desc
  {
    hide ColumnStart, OnlyCell, PartsOf;
    TailParts(block, specs, rows, c, row, start, bytes);
  }

  lemma LongValid(block: seq<byte>, specs: seq<ColumnSpec>, rows: nat, c: nat, row: nat)
    requires InRange(block, specs, rows, c, row)
    ensures |SetValid(block, specs, rows, c, row, true)| == |block|
    ensures PartsOf(SetValid(block, specs, rows, c, row, true), specs, rows, c, row).desc
            == PartsOf(block, specs, rows, c, row).desc
  {
    hide ColumnStart, OnlyCell, PartsOf;
    SetValidParts(block, specs, rows, c, row, true, 0, 0);
  }

  /** The three writes of a long cell: its bytes to the tail, its validity, its view. */
  lemma LongStored(b0: seq<byte>, b1: seq<byte>, b2: seq<byte>, b3: seq<byte>, specs: seq<ColumnSpec>, rows: nat,
                   c: nat, row: nat,
                   cell: Cell, start: nat, hi: nat)
    requires InRange(b0, specs, rows, c, row) && Matches(specs[c].tag, cell) && IsLong(cell) && |cell.bytes| <= I32_MAX
    requires ColumnStart(specs, rows, |specs|) <= start && start + |cell.bytes| == hi <= |b0|
             && start - ColumnStart(specs, rows, |specs|) <= I32_MAX
    requires b1 == Splice(b0, start, cell.bytes) && InRange(b1, specs, rows, c, row)
    requires b2 == (if specs[c].nullable then SetValid(b1, specs, rows, c, row, true) else b1)
             && InRange(b2, specs, rows, c, row)
    requires |EncodeView(OutlineView(cell.bytes, start - ColumnStart(specs, rows, |specs|)))|
             == RowWidth(specs[c].tag) && !specs[c].tag.Boolean?
    requires b3
             == SetSlot(b2, specs, rows, c, row,
                        EncodeView(OutlineView(cell.bytes, start - ColumnStart(specs, rows, |specs|))))
    ensures CellStored(b0, b3, specs, rows, c, row, cell, start, hi)
  {
    hide ColumnStart, OnlyCell, PartsOf, SetValid, SetSlot, SameTail, CellReads, EncodeView, OutlineView, RowWidth;
    TailParts(b0, specs, rows, c, row, start, cell.bytes);
    if specs[c].nullable { SetValidParts(b1, specs, rows, c, row, true, start, hi); } else {
      OnlySelf(b1, specs, rows, c, row, start, hi);
    }
    OnlyTrans(b0, b1, b2, specs, rows, c, row, start, hi);
    assert b2[start..hi]
           == cell.bytes by { if specs[c].nullable { TailSame(b1, b2, specs, rows, start, |cell.bytes|); } }
    SetSlotParts(b2, specs, rows, c, row,
                 EncodeView(OutlineView(cell.bytes, start - ColumnStart(specs, rows, |specs|))), start, hi);
    TailSame(b2, b3, specs, rows, start, |cell.bytes|);
    OnlyTrans(b0, b2, b3, specs, rows, c, row, start, hi);
    LongDecides(b3, specs, rows, c, row, cell, start);
  }

  /** The writes of a long cell whose offset turns out not to be encodable. */
  lemma LongTouched(b0: seq<byte>, b1: seq<byte>, b2: seq<byte>, specs: seq<ColumnSpec>, rows: nat, c: nat, row: nat,
                    start: nat, bytes: seq<byte>)
    requires InRange(b0, specs, rows, c, row) && ColumnStart(specs, rows, |specs|) <= start && start + |bytes| <= |b0|
    requires b1 == Splice(b0, start, bytes) && InRange(b1, specs, rows, c, row)
    requires b2 == (if specs[c].nullable then SetValid(b1, specs, rows, c, row, true) else b1)
    ensures CellTouched(b0, b2, specs, rows, c, row, start, start + |bytes|)
  {
    hide ColumnStart, OnlyCell, PartsOf, SetValid;
    var hi := start + |bytes|;
    TailParts(b0, specs, rows, c, row, start, bytes);
    if specs[c].nullable { SetValidParts(b1, specs, rows, c, row, true, start, hi); } else {
      OnlySelf(b1, specs, rows, c, row, start, hi);
    }
    OnlyTrans(b0, b1, b2, specs, rows, c, row, start, hi);
  }

  class Encoder {
    var payload: array<byte>
    var header: BlockHeader
    var colCount: nat
    ghost var specs: seq<ColumnSpec>
    ghost var done: Committed

    ghost predicate Valid()
      reads this, payload
    {
      EncoderOk(payload[..], header, specs, done) && colCount == |specs|
    }

    ghost predicate Ready(c: nat, row: nat)
      reads this, payload
    {
      LaidOut(payload[..], header, specs) && HeaderFits(header) && InRange(payload[..], specs, header.maxRows, c, row)
    }

    function Desc(c: nat): ColumnDesc
      requires payload.Length >= DescOffset(c + 1)
      reads this, payload
    {
      DescAt(payload[..], c)
    }

    /** The descriptor tells where the column's buffers are and what it holds. */
    lemma DescTells(c: nat, row: nat)
      requires Ready(c, row)
      ensures DescOffset(c + 1) <= payload.Length
      ensures var d := Desc(c);
              && d.validityOff == ValidityOff(specs, header.maxRows, c)
              && d.valuesOff == ValuesOff(specs, header.maxRows, c)
              && IsNullable(d.flags) == specs[c].nullable && FromRaw(d.tag) == Some(specs[c].tag) && DescFits(d)
              && d == PartsOf(payload[..], specs, header.maxRows, c, row).desc
    {
      PrefixHeld(payload[..], specs, header.maxRows);
      assert DescPlanned(DescAt(payload[..], c), specs, header.maxRows, c);
      TagRoundTrip(specs[c].tag);
      DecodedFits(payload[..][DescOffset(c)..DescOffset(c) + DESC_LEN]);
      hide ColumnStart, ToRaw, DecodeDesc, DecodeHeader, RowWidth;
    }

    /** `PageRowEncoder::new` on a block that opens; whatever rows it already holds are left alone. */
    constructor (payload: array<byte>)
      requires Opens(payload[..])
      ensures Valid() && this.payload == payload && header == HeaderAt(payload[..])
      ensures done.rows == [] && done.base == header.rowCount
      ensures forall c: nat :: c < |specs| ==> done.nullBase[c] == DescAt(payload[..], c).nullCount
    {
      ghost var found :| LaidOut(payload[..], HeaderAt(payload[..]), found);
      Started(payload[..], HeaderAt(payload[..]), found);
      this.payload := payload;
      header := HeaderAt(payload[..]);
      colCount := HeaderAt(payload[..]).colCount;
      specs := found;
      done := Committed(HeaderAt(payload[..]).rowCount, Counts(payload[..], found), [], map[]);
    }

    /** `finish`: the header copy is written back, and the block opens again with every committed row in it. */
    method Finish() returns (rowCount: nat, payloadLen: nat)
      requires Valid()
      modifies payload
      ensures Valid() && HeaderAt(payload[..]) == header && Opens(payload[..])
      ensures rowCount == done.base + |done.rows| && payloadLen == header.blockSize
    {
      hide EncoderOk, Opens, EncodeHeader;
      FinishOk(payload[..], header, specs, done);
      Store(payload, 0, EncodeHeader(header));
      var reopened := Open(payload[..]);
      assert reopened.Ok?;
      rowCount, payloadLen := header.rowCount, header.blockSize;
    }

    /** A descriptor of column `c` as this block holds it, apart from the null count. */
    ghost predicate Describes(d: ColumnDesc, c: nat, row: nat)
      reads this, payload
    {
      && InRange(payload[..], specs, header.maxRows, c, row)
      && d.validityOff == ValidityOff(specs, header.maxRows, c) && d.valuesOff == ValuesOff(specs, header.maxRows, c)
      && IsNullable(d.flags) == specs[c].nullable && FromRaw(d.tag) == Some(specs[c].tag)
    }

    method WriteValidity(c: nat, row: nat, d: ColumnDesc, value: bool)
      requires Describes(d, c, row)
      modifies payload
      ensures payload[..]
              == if specs[c].nullable then SetValid(old(payload[..]), specs, header.maxRows, c, row, value)
                  else old(payload[..])
    {
      CellPlaces(specs, header.maxRows, c, row);
      hide ColumnStart, RowWidth;
      if IsNullable(d.flags) { SetRaw(payload, d.validityOff, row, value); }
    }

    method WriteBoolValue(c: nat, row: nat, d: ColumnDesc, value: bool)
      requires Describes(d, c, row) && specs[c].tag.Boolean?
      modifies payload
      ensures payload[..] == SetBool(old(payload[..]), specs, header.maxRows, c, row, value)
    {
      CellPlaces(specs, header.maxRows, c, row);
      hide ColumnStart, RowWidth;
      SetRaw(payload, d.valuesOff, row, value);
    }

    /** `write_fixed_bytes`, `zero_value_slot` and `write_view_slot`: one slot of the column's width. */
    method WriteSlot(c: nat, row: nat, d: ColumnDesc, bytes: seq<byte>)
      requires Describes(d, c, row) && !specs[c].tag.Boolean? && |bytes| == RowWidth(specs[c].tag)
      modifies payload
      ensures payload[..] == SetSlot(old(payload[..]), specs, header.maxRows, c, row, bytes)
    {
      CellPlaces(specs, header.maxRows, c, row);
      var start := d.valuesOff + row * |bytes|;
      assert start == SlotStart(specs, header.maxRows, c, row);
      hide ColumnStart, RowWidth;
      Store(payload, start, bytes);
    }

    method WriteDesc(c: nat, d: ColumnDesc)
      requires c < |specs| && Holds(payload[..], specs, header.maxRows)
      modifies payload
      ensures payload[..] == SetDesc(old(payload[..]), specs, header.maxRows, c, d)
    {
      PrefixHeld(payload[..], specs, header.maxRows);
      Store(payload, DescOffset(c), EncodeDesc(d));
    }

    method WriteBool(c: nat, row: nat, d: ColumnDesc, value: bool)
      requires Describes(d, c, row) && specs[c].tag.Boolean?
      modifies payload
      ensures CellStored(old(payload[..]), payload[..], specs, header.maxRows, c, row, BoolCell(value),
                         header.tailCursor, header.tailCursor)
    {
      hide ColumnStart, RowWidth, OnlyCell, PartsOf, SetValid, SetBool, SameTail, ValidityOff, ValuesOff, CellReads;
      ghost var b0, rows, at := payload[..], header.maxRows, header.tailCursor;
      if specs[c].nullable { SetValidParts(b0, specs, rows, c, row, true, at, at); } else {
        OnlySelf(b0, specs, rows, c, row, at, at);
      }
      WriteValidity(c, row, d, true);
      ghost var b1 := payload[..];
      SetBoolParts(b1, specs, rows, c, row, value, at, at);
      WriteBoolValue(c, row, d, value);
      OnlyTrans(b0, b1, payload[..], specs, rows, c, row, at, at);
      PartsDecide(payload[..], specs, rows, c, row, BoolCell(value), at);
    }

    /** `write_fixed`, and `write_view` for a payload that fits its slot. */
    method WriteFixed(c: nat, row: nat, d: ColumnDesc, bytes: seq<byte>, ghost cell: Cell)
      requires Describes(d, c, row) && !specs[c].tag.Boolean? && |bytes| == RowWidth(specs[c].tag)
      requires Matches(specs[c].tag, cell) && !cell.NullCell? && !IsLong(cell)
      requires bytes == if IsView(specs[c].tag) then EncodeView(InlineView(cell.bytes)) else cell.bytes
      modifies payload
      ensures CellStored(old(payload[..]), payload[..], specs, header.maxRows, c, row, cell, header.tailCursor,
                         header.tailCursor)
    {
      hide ColumnStart, RowWidth, OnlyCell, PartsOf, SetValid, SetSlot, SameTail, ValidityOff, ValuesOff, CellReads,
          EncodeView, InlineView;
      ghost var b0, rows, at := payload[..], header.maxRows, header.tailCursor;
      if specs[c].nullable { SetValidParts(b0, specs, rows, c, row, true, at, at); } else {
        OnlySelf(b0, specs, rows, c, row, at, at);
      }
      WriteValidity(c, row, d, true);
      ghost var b1 := payload[..];
      SetSlotParts(b1, specs, rows, c, row, bytes, at, at);
      WriteSlot(c, row, d, bytes);
      OnlyTrans(b0, b1, payload[..], specs, rows, c, row, at, at);
      PartsDecide(payload[..], specs, rows, c, row, cell, at);
    }

    /** The bit and the zeroed slot of `write_null`. */
    method ClearCell(c: nat, row: nat, d: ColumnDesc)
      requires Describes(d, c, row) && specs[c].nullable
      modifies payload
      ensures CellTouched(old(payload[..]), payload[..], specs, header.maxRows, c, row, header.tailCursor,
                          header.tailCursor)
      ensures !PartsOf(payload[..], specs, header.maxRows, c, row).valid
    {
      hide ColumnStart, OnlyCell, PartsOf, SetValid, SetSlot, SetBool, SetDesc, SameTail, ValidityOff, ValuesOff;
      ghost var b0, rows, at := payload[..], header.maxRows, header.tailCursor;
      SetValidParts(b0, specs, rows, c, row, false, at, at);
      WriteValidity(c, row, d, false);
      ghost var b1 := payload[..];
      var tag := FromRaw(d.tag).value;
      if tag.Boolean? {
        SetBoolParts(b1, specs, rows, c, row, false, at, at);
        WriteBoolValue(c, row, d, false);
      } else {
        SetSlotParts(b1, specs, rows, c, row, Zeros(RowWidth(tag)), at, at);
        WriteSlot(c, row, d, Zeros(RowWidth(tag)));
      }
      OnlyTrans(b0, b1, payload[..], specs, rows, c, row, at, at);
    }

    /** `write_null`, after the nullability check: bit, zeroed slot, and the count unless that overflows. */
    method WriteNull(c: nat, row: nat, d: ColumnDesc) returns (counted: bool)
      requires Describes(d, c, row) && specs[c].nullable && DescFits(d)
      requires d == PartsOf(payload[..], specs, header.maxRows, c, row).desc
      modifies payload
      ensures counted <==> d.nullCount < U32_MAX
      ensures counted ==>
                CellStored(old(payload[..]), payload[..], specs, header.maxRows, c, row, NullCell, header.tailCursor,
                           header.tailCursor)
      ensures !counted ==>
                CellTouched(old(payload[..]), payload[..], specs, header.maxRows, c, row, header.tailCursor,
                            header.tailCursor)
    {
      hide ColumnStart, OnlyCell, PartsOf, SetDesc, SameTail, ValidityOff, ValuesOff, CellReads;
      ghost var b0, rows, at := payload[..], header.maxRows, header.tailCursor;
      ClearCell(c, row, d);
      if d.nullCount >= U32_MAX { return false; }
      ghost var b2 := payload[..];
      TouchedRange(b0, b2, specs, rows, c, row, at, at);
      var more := d.(nullCount := d.nullCount + 1);
      SetDescParts(b2, specs, rows, c, row, more, at, at);
      WriteDesc(c, more);
      OnlyTrans(b0, b2, payload[..], specs, rows, c, row, at, at);
      PartsDecide(payload[..], specs, rows, c, row, NullCell, at);
      counted := true;
    }

    /** `write_view` for a long payload that fits the tail. The view is built after the bytes are in place. */
    method WriteLong(c: nat, row: nat, d: ColumnDesc, cell: Cell) returns (written: bool)
      requires Describes(d, c, row) && Matches(specs[c].tag, cell) && IsLong(cell) && |cell.bytes| <= I32_MAX
      requires header.poolBase == ColumnStart(specs, header.maxRows, |specs|)
      requires header.poolBase + |cell.bytes| <= header.tailCursor <= payload.Length
      modifies payload, this`header
      ensures header == old(header).(tailCursor := old(header).tailCursor - |cell.bytes|)
      ensures written <==> old(header).tailCursor - |cell.bytes| - header.poolBase <= I32_MAX
      ensures written ==>
                CellStored(old(payload[..]), payload[..], specs, header.maxRows, c, row, cell, header.tailCursor,
                           old(header).tailCursor)
      ensures !written ==>
                CellTouched(old(payload[..]), payload[..], specs, header.maxRows, c, row, header.tailCursor,
                            old(header).tailCursor)
    {
      hide ColumnStart, OnlyCell, PartsOf, SetValid, SetSlot, SetBool, SameTail, ValidityOff, ValuesOff, CellReads,
          EncodeView, OutlineView, CellStored, CellTouched;
      ghost var b0, rows, hi := payload[..], header.maxRows, header.tailCursor;
      var bytes := cell.bytes;
      var start := header.tailCursor - |bytes|;
      header := header.(tailCursor := start);
      LongTail(b0, specs, rows, c, row, start, bytes);
      Store(payload, start, bytes);
      ghost var b1 := payload[..];
      LongValid(b1, specs, rows, c, row);
      WriteValidity(c, row, d, true);
      ghost var b2 := payload[..];
      if start - header.poolBase > I32_MAX {
        LongTouched(b0, b1, b2, specs, rows, c, row, start, bytes);
        return false;
      }
      var slot := EncodeView(OutlineView(bytes, start - header.poolBase));
      WriteSlot(c, row, d, slot);
      LongStored(b0, b1, b2, payload[..], specs, rows, c, row, cell, start, hi);
      written := true;
    }

    /** `write_cell`: writes the cell, or finds it does not fit and leaves everything alone, or fails. */
    method WriteCell(c: nat, row: nat, cell: Cell) returns (w: CellOutcome)
      requires Ready(c, row)
      modifies payload, this`header
      ensures header == old(header).(tailCursor := header.tailCursor)
      ensures w
              == WriteOutcome(specs[c], PartsOf(old(payload[..]), specs, header.maxRows, c, row).desc.nullCount,
                              header.poolBase, old(header).tailCursor, cell)
      ensures w.CellWritten? ==>
                header == old(header).(tailCursor := w.cursor) && header.poolBase <= w.cursor <= old(header).tailCursor
      ensures w.CellWritten? ==>
                CellStored(old(payload[..]), payload[..], specs, header.maxRows, c, row, cell, w.cursor,
                           old(header).tailCursor)
      ensures w.CellWritten? ==> w.cursor + TailBytes(cell) == old(header).tailCursor
      ensures w.CellFull? ==> header == old(header) && payload[..] == old(payload[..])
      ensures w.CellFailed? ==> header.poolBase <= header.tailCursor <= old(header).tailCursor
      ensures w.CellFailed? ==>
                CellTouched(old(payload[..]), payload[..], specs, header.maxRows, c, row, header.tailCursor,
                            old(header).tailCursor)
    {
      hide LaidOut, ColumnStart, PartsOf, CellStored, CellTouched, DescAt, EncodeView, InlineView, DescFits, HeaderFits;
      DescTells(c, row);
      var d := Desc(c);
      LaidOutBounds(payload[..], header, specs);
      Untouched(payload[..], specs, header.maxRows, c, row, header.tailCursor);
      if cell.NullCell? {
        if !IsNullable(d.flags) { return CellFailed(NullInNonNullableColumn); }
        var counted := WriteNull(c, row, d);
        return if counted then CellWritten(header.tailCursor) else CellFailed(CountOverflow);
      }
      var tag := FromRaw(d.tag).value;
      var mismatch := CellTypeError(tag, cell);
      if mismatch.Some? { return CellFailed(mismatch.value); }
      if tag.Boolean? {
        WriteBool(c, row, d, cell.value);
        return CellWritten(header.tailCursor);
      }
      if !IsView(tag) {
        WriteFixed(c, row, d, cell.bytes, cell);
        return CellWritten(header.tailCursor);
      }
      var len := |cell.bytes|;
      if len > I32_MAX { return CellFailed(RowValueTooLarge); }
      if len <= INLINE_LEN {
        WriteFixed(c, row, d, EncodeView(InlineView(cell.bytes)), cell);
        return CellWritten(header.tailCursor);
      }
      if len > header.tailCursor { return CellFailed(TailOverflow); }
      if header.tailCursor - len < header.poolBase { return CellFull; }
      var written := WriteLong(c, row, d, cell);
      w := if written then CellWritten(header.tailCursor) else CellFailed(OffsetTooLarge);
    }

    /** `rollback_row`: the tail cursor goes back and the row's nulls are taken off the counts. */
    method RollbackRow(processed: nat, tailBefore: nat, ghost cells: seq<Cell>, ghost starts: seq<nat>,
                       ghost counts: seq<nat>)
      requires Partial(payload[..], header, specs, done, cells, starts, counts, tailBefore) && processed == |starts|
      modifies payload, this`header
      ensures header == old(header).(tailCursor := tailBefore)
      ensures Partial(payload[..], header, specs, done, cells, [], counts, tailBefore)
    {
      hide Undoing, Partial, LaidOut, HeaderFits, DescFits, DescAt, ColumnStart, ValidBit, SetDesc;
      RollbackBegins(payload[..], header, specs, done, cells, starts, counts, tailBefore);
      header := header.(tailCursor := tailBefore);
      for index := 0 to processed
        invariant header == old(header).(tailCursor := tailBefore)
        invariant Undoing(payload[..], header, specs, done, cells, index, processed, counts)
      {
        UndoingFacts(payload[..], header, specs, done, cells, index, processed, counts);
        DescTells(index, header.rowCount);
        var d := Desc(index);
        var valid := GetValidity(index, header.rowCount, d);
        if IsNullable(d.flags) && !valid {
          RollbackStep(payload[..], header, specs, done, cells, index, processed, counts);
          WriteDesc(index, d.(nullCount := d.nullCount - 1));
        } else {
          SkipNull(payload[..], header, specs, done, cells, index, processed, counts);
        }
      }
      Undone(payload[..], header, specs, done, cells, processed, counts);
    }

    method GetValidity(c: nat, row: nat, d: ColumnDesc) returns (valid: bool)
      requires Describes(d, c, row)
      ensures valid == ValidBit(payload[..], specs, header.maxRows, c, row)
    {
      CellPlaces(specs, header.maxRows, c, row);
      hide ColumnStart, RowWidth;
      valid := BitOf(payload[..], d.validityOff, row);
    }

    /**
     * `append_row`. The outcome is decided by the cells, the null counts and the room in the tail. An appended row
     * is committed, and a row that does not fit changes nothing committed. A failed row leaves the committed rows as
     * they were, but the nulls before the failing column stay counted and the tail it took stays taken.
     */
    method AppendRow(cells: seq<Cell>) returns (r: RowOutcome)
      requires Valid() && |cells| == |specs|
      modifies payload, this`header, this`done
      ensures r == if old(header).rowCount >= old(header).maxRows then Full
                   else ScanRow(specs, old(Counts(payload[..], specs)), old(header).poolBase, cells, 0,
                                old(header).tailCursor)
      ensures Valid() && header == old(header).(tailCursor := header.tailCursor, rowCount := header.rowCount)
      ensures r.Appended? ==>
                && done.rows == old(done.rows) + [cells] && done.base == old(done.base)
                && done.nullBase == old(done.nullBase)
                && header.tailCursor + LongBytes(cells) == old(header).tailCursor
      ensures r.Full? ==> done == old(done) && header == old(header)
      ensures r.Failed? ==>
                && |old(done.nullBase)| == |cells| && header.rowCount == old(header).rowCount
                && header.tailCursor <= old(header).tailCursor
                && done == Leak(old(done), cells,
                                StopsAt(specs, old(Counts(payload[..], specs)), old(header).poolBase, cells, 0,
                                        old(header).tailCursor))
    {
      hide Partial, EncoderOk, ScanRow, StopsAt, Counts, Commit, Leak;
      EncoderHolds(payload[..], header, specs, done);
      ghost var counts := Counts(payload[..], specs);
      var row := header.rowCount;
      if row >= header.maxRows { return Full; }
      RowBegins(payload[..], header, specs, done, cells, counts);
      ghost var starts;
      r, starts := WriteRow(row, cells, counts);
      if r.Appended? {
        CommitOk(payload[..], header, specs, done, cells, starts, counts, old(header).tailCursor);
        CommitRows(done, cells, starts);
        done := Commit(done, cells, starts);
        header := header.(rowCount := row + 1);
      } else if r.Full? {
        assert header.(tailCursor := header.tailCursor) == header;
        RolledBack(payload[..], header, specs, done, cells, counts);
      } else {
        done := Leak(done, cells, |starts|);
      }
    }

    /** The column loop of `append_row`: every cell is written, or the row is rolled back, or a cell fails. */
    method WriteRow(row: nat, cells: seq<Cell>, ghost counts: seq<nat>) returns (r: RowOutcome, ghost starts: seq<nat>)
      requires Partial(payload[..], header, specs, done, cells, [], counts, header.tailCursor)
               && row == header.rowCount && colCount == |specs|
      modifies payload, this`header
      ensures header == old(header).(tailCursor := header.tailCursor)
      ensures |counts| == |cells| == |specs|
              && r == ScanRow(specs, counts, header.poolBase, cells, 0, old(header).tailCursor)
      ensures r.Appended? ==>
                && |starts| == |cells| && header.tailCursor + LongBytes(cells) == old(header).tailCursor
                && Partial(payload[..], header, specs, done, cells, starts, counts, old(header).tailCursor)
      ensures r.Full? ==>
                header == old(header) && Partial(payload[..], header, specs, done, cells, [], counts, header.tailCursor)
      ensures r.Failed? ==>
                && |starts| == StopsAt(specs, counts, header.poolBase, cells, 0, old(header).tailCursor)
                && |done.nullBase| == |cells|
                && header.tailCursor <= old(header).tailCursor
                && EncoderOk(payload[..], header, specs, Leak(done, cells, |starts|))
    {
      hide Partial, CellStored, CellTouched, ScanRow, StopsAt, WriteOutcome, PartsOf, LaidOut, HeaderFits, EncoderOk,
          Leak;
      PartialFacts(payload[..], header, specs, done, cells, [], counts, header.tailCursor);
      var tailBefore := header.tailCursor;
      starts := [];
      for col := 0 to colCount
        invariant header == old(header).(tailCursor := header.tailCursor) && |starts| == col
        invariant col <= |cells| && header.tailCursor + LongBytes(cells[..col]) == tailBefore
        invariant Partial(payload[..], header, specs, done, cells, starts, counts, tailBefore)
        invariant ScanRow(specs, counts, header.poolBase, cells, 0, tailBefore)
                  == ScanRow(specs, counts, header.poolBase, cells, col, header.tailCursor)
        invariant StopsAt(specs, counts, header.poolBase, cells, 0, tailBefore)
                  == StopsAt(specs, counts, header.poolBase, cells, col, header.tailCursor)
      {
        PartialFacts(payload[..], header, specs, done, cells, starts, counts, tailBefore);
        ghost var before, h := payload[..], header;
        ScanStep(specs, counts, header.poolBase, cells, col, header.tailCursor);
        var w := WriteCell(col, row, cells[col]);
        match w
        case CellWritten(next) =>
          StoredStep(before, payload[..], h, specs, done, cells, starts, counts, tailBefore, next);
          LongBytesNext(cells, col);
          starts := starts + [next];
        case CellFull =>
          RollbackRow(col, tailBefore, cells, starts, counts);
          return Full, [];
        case CellFailed(error) =>
          FailedStep(before, payload[..], h, specs, done, cells, starts, counts, tailBefore, header.tailCursor);
          return Failed(error), starts;
      }
      ScanEnd(specs, counts, header.poolBase, cells, header.tailCursor);
      assert cells[..|cells|] == cells;
      r := Appended;
    }
  }

  lemma LaidOutBounds(block: seq<byte>, h: BlockHeader, specs: seq<ColumnSpec>)
    requires LaidOut(block, h, specs)
    ensures h.poolBase == ColumnStart(specs, h.maxRows, |specs|) <= h.tailCursor <= h.blockSize <= |block|
  {
    hide ColumnStart;
  }

  // ---- A row under construction ----------------------------------------------------------------

  /** What a row under construction shares with a finished state. */
  ghost predicate Based(block: seq<byte>, h: BlockHeader, specs: seq<ColumnSpec>, done: Committed) {
    && LaidOut(block, h, specs) && HeaderFits(h) && Shaped(done, specs) && PayloadsApart(done, specs)
    && Holds(block, specs, h.maxRows) && h.rowCount == done.base + |done.rows| < h.maxRows
  }

  /** The committed rows still read back, with their long payloads at or above `top`. */
  ghost predicate OldRead(block: seq<byte>, h: BlockHeader, specs: seq<ColumnSpec>, done: Committed, top: nat)
    requires Shaped(done, specs) && Holds(block, specs, h.maxRows)
  {
    top <= h.blockSize && AllRead(block, h.(tailCursor := top), specs, done)
  }

  /** The first `|starts|` cells of the new row read back, their long payloads stacked below `top`. */
  ghost predicate NewRead(block: seq<byte>, h: BlockHeader, specs: seq<ColumnSpec>, cells: seq<Cell>,
                          starts: seq<nat>, top: nat)
    requires |starts| <= |cells| == |specs| && h.rowCount < h.maxRows && Holds(block, specs, h.maxRows)
  {
    && (forall j: nat :: j < |starts| ==> CellReads(block, specs, h.maxRows, j, h.rowCount, cells[j], starts[j]))
    && (forall j: nat :: j < |starts| && IsLong(cells[j]) ==>
          h.tailCursor <= starts[j] && starts[j] + |cells[j].bytes| <= top)
    && (forall i: nat, j: nat :: i < j < |starts| && IsLong(cells[i]) && IsLong(cells[j]) ==>
          starts[j] + |cells[j].bytes| <= starts[i])
  }

  /** The null counts include the new row's nulls in columns `from` to `to`. */
  ghost predicate NewCounts(block: seq<byte>, specs: seq<ColumnSpec>, cells: seq<Cell>, from: nat, to: nat,
                            counts: seq<nat>)
    requires |counts| == |cells| == |specs| && DescOffset(|specs|) <= |block|
  {
    forall j: nat :: j < |specs| ==>
        DescAt(block, j).nullCount == counts[j] + if from <= j < to && cells[j].NullCell? then 1 else 0
  }

  /** A row under construction: the first `|starts|` cells are written, and `top` was the tail cursor before the row. */
  ghost predicate Partial(block: seq<byte>, h: BlockHeader, specs: seq<ColumnSpec>, done: Committed,
                          cells: seq<Cell>, starts: seq<nat>, counts: seq<nat>, top: nat)
  {
    && Based(block, h, specs, done) && OldRead(block, h, specs, done, top)
    && h.poolBase <= h.tailCursor <= top <= U32_MAX
    && |starts| <= |cells| == |specs| == |counts| && DescOffset(|specs|) <= |block|
    && NewRead(block, h, specs, cells, starts, top) && NewCounts(block, specs, cells, 0, |starts|, counts)
    && (forall c: nat :: c < |specs| ==> counts[c] == done.nullBase[c] + NullsIn(done.rows, c))
  }

  /** A row being rolled back: the cursor is restored and the nulls of the first `i` columns are taken off. */
  ghost predicate Undoing(block: seq<byte>, h: BlockHeader, specs: seq<ColumnSpec>, done: Committed, cells: seq<Cell>,
                          i: nat, written: nat, counts: seq<nat>) {
    && Based(block, h, specs, done) && OldRead(block, h, specs, done, h.tailCursor)
    && h.poolBase <= h.tailCursor <= U32_MAX
    && i <= written <= |cells| == |specs| == |counts| && DescOffset(|specs|) <= |block|
    && NewCounts(block, specs, cells, i, written, counts) && BitsTell(block, h, specs, cells, written)
    && (forall c: nat :: c < |specs| ==> counts[c] == done.nullBase[c] + NullsIn(done.rows, c))
  }

  lemma OnlyLength(block: seq<byte>, block': seq<byte>, specs: seq<ColumnSpec>, rows: nat, c: nat, row: nat, lo: nat,
                   hi: nat)
    requires InRange(block, specs, rows, c, row) && OnlyCell(block, block', specs, rows, c, row, lo, hi)
    ensures |block'| == |block|
  {
  }

  lemma OldStep(block: seq<byte>, block': seq<byte>, h: BlockHeader, specs: seq<ColumnSpec>, done: Committed, top: nat,
                c: nat, lo: nat, hi: nat)
    requires Based(block, h, specs, done) && OldRead(block, h, specs, done, top)
    requires c < |specs| && OnlyCell(block, block', specs, h.maxRows, c, h.rowCount, lo, hi) && h.poolBase <= lo
             && hi <= top
    ensures OldRead(block', h, specs, done, top)
  {
    hide CellReads, OnlyCell, PayloadsApart, LaidOut, ColumnStart;
    LaidOutBounds(block, h, specs);
    OnlyLength(block, block', specs, h.maxRows, c, h.rowCount, lo, hi);
    forall k: nat, c': nat | k < |done.rows|
        && c' < |specs| ensures RowReads(block', h.(tailCursor := top), specs, done, k, c') {
      assert RowReads(block, h.(tailCursor := top), specs, done, k, c');
      OthersRead(block, block', specs, h.maxRows, c, h.rowCount, lo, hi, c', done.base + k, done.rows[k][c'],
                 StartOf(done, k, c'));
    }
  }

  lemma NewStep(block: seq<byte>, block': seq<byte>, h: BlockHeader, specs: seq<ColumnSpec>, done: Committed,
                cells: seq<Cell>, starts: seq<nat>, top: nat, next: nat)
    requires Based(block, h, specs, done) && |starts| < |cells| == |specs|
             && NewRead(block, h, specs, cells, starts, top)
    requires h.poolBase <= next <= h.tailCursor <= top
    requires CellStored(block, block', specs, h.maxRows, |starts|, h.rowCount, cells[|starts|], next, h.tailCursor)
    requires IsLong(cells[|starts|]) ==> next + |cells[|starts|].bytes| == h.tailCursor
    ensures NewRead(block', h.(tailCursor := next), specs, cells, starts + [next], top)
  {
    hide CellReads, OnlyCell, PayloadsApart, LaidOut, ColumnStart, PartsOf;
    LaidOutBounds(block, h, specs);
    OnlyLength(block, block', specs, h.maxRows, |starts|, h.rowCount, next, h.tailCursor);
    var c, starts' := |starts|, starts + [next];
    forall j: nat | j < |starts'| ensures CellReads(block', specs, h.maxRows, j, h.rowCount, cells[j], starts'[j]) {
      if j < c {
        OthersRead(block, block', specs, h.maxRows, c, h.rowCount, next, h.tailCursor, j, h.rowCount, cells[j],
                   starts[j]);
      }
    }
  }

  /** Descriptors other than `c` are untouched; `c` only counts its null. */
  lemma DescStep(block: seq<byte>, block': seq<byte>, h: BlockHeader, specs: seq<ColumnSpec>, done: Committed,
                 cells: seq<Cell>, c: nat, counts: seq<nat>, next: nat)
    requires Based(block, h, specs, done) && c < |cells| == |specs| == |counts| && DescOffset(|specs|) <= |block|
    requires NewCounts(block, specs, cells, 0, c, counts) && h.poolBase <= next <= h.tailCursor
    requires CellStored(block, block', specs, h.maxRows, c, h.rowCount, cells[c], next, h.tailCursor)
    ensures |block'| == |block| && NewCounts(block', specs, cells, 0, c + 1, counts)
    ensures Based(block', h.(tailCursor := next), specs, done)
  {
    hide CellReads, PayloadsApart, ColumnStart, DecodeDesc, DescAt, PlannedColumn;
    forall j: nat | j < |specs| && j != c ensures DescAt(block', j) == DescAt(block, j) {
      DescsKept(block, block', specs, h.maxRows, c, h.rowCount, next, h.tailCursor, j);
    }
    hide OnlyCell;
    forall j | 0 <= j < |specs| ensures DescPlanned(DescAt(block', j), specs, h.maxRows, j) {
      assert DescPlanned(DescAt(block, j), specs, h.maxRows, j);
    }
  }

  // ---- Committing and rolling back ---------------------------------------------------------------

  ghost function Commit(done: Committed, cells: seq<Cell>, starts: seq<nat>): Committed {
    var k := |done.rows|;
    done.(rows := done.rows + [cells],
          starts := map p: (nat, nat) | p in done.starts.Keys + (set c: nat | c < |starts| :: (k, c)) ::
                      if p.0 == k && p.1 < |starts| then starts[p.1]
                          else if p in done.starts then done.starts[p] else 0)
  }

  lemma CommitStarts(done: Committed, specs: seq<ColumnSpec>, cells: seq<Cell>, starts: seq<nat>)
    requires Shaped(done, specs) && |cells| == |specs| == |starts|
    ensures var done' := Commit(done, cells, starts);
            && Shaped(done', specs)
            && (forall k: nat, c: nat :: k < |done.rows| && c < |specs| ==> StartOf(done', k, c) == StartOf(done, k, c))
            && (forall c: nat :: c < |specs| ==> StartOf(done', |done.rows|, c) == starts[c])
  {
  }

  lemma NullsAppend(rows: seq<seq<Cell>>, cells: seq<Cell>, c: nat)
    requires c < |cells| && forall k :: 0 <= k < |rows| ==> c < |rows[k]|
    ensures NullsIn(rows + [cells], c) == NullsIn(rows, c) + if cells[c].NullCell? then 1 else 0
  {
    assert (rows + [cells])[..|rows|] == rows;
  }

  lemma CommitReads(block: seq<byte>, h: BlockHeader, specs: seq<ColumnSpec>, done: Committed, cells: seq<Cell>,
                    starts: seq<nat>, top: nat)
    requires Based(block, h, specs, done) && OldRead(block, h, specs, done, top) && |cells| == |specs| == |starts|
    requires NewRead(block, h, specs, cells, starts, top) && h.tailCursor <= top
    ensures Shaped(Commit(done, cells, starts), specs)
    ensures AllRead(block, h.(rowCount := h.rowCount + 1), specs, Commit(done, cells, starts))
  {
    hide CellReads, LaidOut, PayloadsApart, Commit;
    CommitRows(done, cells, starts);
    CommitStarts(done, specs, cells, starts);
    var done', h' := Commit(done, cells, starts), h.(rowCount := h.rowCount + 1);
    forall k: nat, c: nat | k < |done'.rows| && c < |specs| ensures RowReads(block, h', specs, done', k, c) {
      if k < |done.rows| { assert RowReads(block, h.(tailCursor := top), specs, done, k, c); }
    }
  }

  lemma CommitRows(done: Committed, cells: seq<Cell>, starts: seq<nat>)
    ensures var done' := Commit(done, cells, starts);
            done'.rows == done.rows + [cells] && done'.base == done.base && done'.nullBase == done.nullBase
  {
  }

  lemma CommitApart(block: seq<byte>, h: BlockHeader, specs: seq<ColumnSpec>, done: Committed, cells: seq<Cell>,
                    starts: seq<nat>, top: nat)
    requires Based(block, h, specs, done) && OldRead(block, h, specs, done, top) && |cells| == |specs| == |starts|
    requires NewRead(block, h, specs, cells, starts, top)
    ensures Shaped(Commit(done, cells, starts), specs) && PayloadsApart(Commit(done, cells, starts), specs)
  {
    hide CellReads, LaidOut, Commit;
    CommitRows(done, cells, starts);
    CommitStarts(done, specs, cells, starts);
    var done' := Commit(done, cells, starts);
    forall k: nat, c: nat, k': nat, c': nat |
      k < |done'.rows| && k' < |done'.rows| && c < |specs| && c' < |specs| && (k, c) != (k', c')
      && IsLong(done'.rows[k][c]) && IsLong(done'.rows[k'][c'])
      ensures StartOf(done', k, c) + |done'.rows[k][c].bytes| <= StartOf(done', k', c')
              || StartOf(done', k', c') + |done'.rows[k'][c'].bytes| <= StartOf(done', k, c)
    {
      if k < |done.rows| { assert RowReads(block, h.(tailCursor := top), specs, done, k, c); }
      if k' < |done.rows| { assert RowReads(block, h.(tailCursor := top), specs, done, k', c'); }
    }
  }

  /** A complete row becomes committed. */
  lemma CommitOk(block: seq<byte>, h: BlockHeader, specs: seq<ColumnSpec>, done: Committed, cells: seq<Cell>,
                 starts: seq<nat>, counts: seq<nat>, top: nat)
    requires Partial(block, h, specs, done, cells, starts, counts, top) && |starts| == |cells|
    ensures EncoderOk(block, h.(rowCount := h.rowCount + 1), specs, Commit(done, cells, starts))
  {
    CommitReads(block, h, specs, done, cells, starts, top);
    CommitApart(block, h, specs, done, cells, starts, top);
    CommitRows(done, cells, starts);
    hide CellReads, Commit, OldRead, NewRead, AllRead, PayloadsApart, DescAt, DescPlanned, ColumnStart;
    var done' := Commit(done, cells, starts);
    forall c: nat | c < |specs| ensures DescAt(block, c).nullCount == done'.nullBase[c] + NullsIn(done'.rows, c) {
      NullsAppend(done.rows, cells, c);
    }
  }

  /** The validity bits of the cells already written tell which of them are null. */
  ghost predicate BitsTell(block: seq<byte>, h: BlockHeader, specs: seq<ColumnSpec>, cells: seq<Cell>, written: nat)
    requires written <= |cells| == |specs| && h.rowCount < h.maxRows && Holds(block, specs, h.maxRows)
  {
    forall j: nat :: j < written ==>
      (cells[j].NullCell? <==> specs[j].nullable && !ValidBit(block, specs, h.maxRows, j, h.rowCount))
  }

  lemma ReadTells(block: seq<byte>, h: BlockHeader, specs: seq<ColumnSpec>, cells: seq<Cell>, starts: seq<nat>,
                  top: nat)
    requires |starts| <= |cells| == |specs| && h.rowCount < h.maxRows && Holds(block, specs, h.maxRows)
    requires NewRead(block, h, specs, cells, starts, top)
    ensures BitsTell(block, h, specs, cells, |starts|)
  {
    hide ColumnStart, ValidBit, BoolBit, Slot, ViewReads;
    forall j: nat | j < |starts|
      ensures cells[j].NullCell? <==> specs[j].nullable && !ValidBit(block, specs, h.maxRows, j, h.rowCount)
    {
      assert CellReads(block, specs, h.maxRows, j, h.rowCount, cells[j], starts[j]);
    }
  }

  /** Taking one null off a column's count undoes it and disturbs nothing else. */
  lemma RollbackStep(block: seq<byte>, h: BlockHeader, specs: seq<ColumnSpec>, done: Committed, cells: seq<Cell>,
                     i: nat, written: nat, counts: seq<nat>)
    requires Undoing(block, h, specs, done, cells, i, written, counts) && i < written && cells[i].NullCell?
    ensures var d := DescAt(block, i);
            d.nullCount > 0
                && Undoing(SetDesc(block, specs, h.maxRows, i, d.(nullCount := d.nullCount - 1)), h, specs, done,
                           cells, i + 1, written, counts)
  {
    hide LaidOut, CellReads, PayloadsApart, ColumnStart, DecodeDesc, OnlyCell, SetDesc, OldRead, AllRead, ValidBit,
        EncodeDesc, DescFits;
    var d := DescAt(block, i);
    var d' := d.(nullCount := d.nullCount - 1);
    DescBounded(block, specs, i);
    var (block', top) := (SetDesc(block, specs, h.maxRows, i, d'), h.tailCursor);
    LaidOutBounds(block, h, specs);
    SetDescParts(block, specs, h.maxRows, i, h.rowCount, d', top, top);
    OldStep(block, block', h, specs, done, top, i, top, top);
    RollbackDescs(block, block', h, specs, i, d');
    hide DescAt;
    forall j: nat | j < |specs| && j != i ensures DescAt(block', j) == DescAt(block, j) {
      DescsKept(block, block', specs, h.maxRows, i, h.rowCount, top, top, j);
    }
    forall j: nat | j < written ensures ValidBit(block', specs, h.maxRows, j, h.rowCount)
        == ValidBit(block, specs, h.maxRows, j, h.rowCount) {
      if j != i { BitsKept(block, block', specs, h.maxRows, i, h.rowCount, top, top, j, h.rowCount); }
    }
  }

  lemma DescBounded(block: seq<byte>, specs: seq<ColumnSpec>, i: nat)
    requires i < |specs| && DescOffset(|specs|) <= |block|
    ensures DescFits(DescAt(block, i))
            && (DescAt(block, i).nullCount > 0 ==>
                  DescFits(DescAt(block, i).(nullCount := DescAt(block, i).nullCount - 1)))
  {
    DecodedFits(block[DescOffset(i)..DescOffset(i) + DESC_LEN]);
    hide DecodeDesc;
  }

  /** The layout does not depend on null counts. */
  lemma RollbackDescs(block: seq<byte>, block': seq<byte>, h: BlockHeader, specs: seq<ColumnSpec>, i: nat,
                      d: ColumnDesc)
    requires LaidOut(block, h, specs) && InRange(block, specs, h.maxRows, i, h.rowCount)
             && DescOffset(|specs|) <= |block| == |block'|
    requires OnlyCell(block, block', specs, h.maxRows, i, h.rowCount, h.tailCursor, h.tailCursor)
    requires PartsOf(block', specs, h.maxRows, i, h.rowCount).desc == d
             && d == DescAt(block, i).(nullCount := d.nullCount)
    ensures LaidOut(block', h, specs)
  {
    hide ColumnStart, DecodeDesc, OnlyCell, DescAt, PlannedColumn;
    forall j | 0 <= j < |specs| ensures DescPlanned(DescAt(block', j), specs, h.maxRows, j) {
      assert DescPlanned(DescAt(block, j), specs, h.maxRows, j);
      if j != i { DescsKept(block, block', specs, h.maxRows, i, h.rowCount, h.tailCursor, h.tailCursor, j); }
    }
  }

  lemma ScanStep(specs: seq<ColumnSpec>, counts: seq<nat>, poolBase: nat, cells: seq<Cell>, c: nat, cursor: nat)
    requires |counts| == |cells| == |specs| && c < |specs|
    ensures var w := WriteOutcome(specs[c], counts[c], poolBase, cursor, cells[c]);
            ScanRow(specs, counts, poolBase, cells, c, cursor)
            == match w case CellWritten(next) => ScanRow(specs, counts, poolBase, cells, c + 1, next)
                       case CellFull => Full
                       case CellFailed(error) => Failed(error)
    ensures var w := WriteOutcome(specs[c], counts[c], poolBase, cursor, cells[c]);
            StopsAt(specs, counts, poolBase, cells, c, cursor)
            == if w.CellWritten? then StopsAt(specs, counts, poolBase, cells, c + 1, w.cursor) else c
  {
  }

  lemma ScanEnd(specs: seq<ColumnSpec>, counts: seq<nat>, poolBase: nat, cells: seq<Cell>, cursor: nat)
    requires |counts| == |cells| == |specs|
    ensures ScanRow(specs, counts, poolBase, cells, |specs|, cursor) == Appended
  {
  }

  // ---- Facts for the loops --------------------------------------------------------------------------

  lemma PartialFacts(block: seq<byte>, h: BlockHeader, specs: seq<ColumnSpec>, done: Committed,
                     cells: seq<Cell>, starts: seq<nat>, counts: seq<nat>, top: nat)
    requires Partial(block, h, specs, done, cells, starts, counts, top)
    ensures LaidOut(block, h, specs) && HeaderFits(h) && Holds(block, specs, h.maxRows) && h.rowCount < h.maxRows
    ensures |starts| <= |cells| == |specs| == |counts| && h.poolBase <= h.tailCursor <= top
    ensures |starts| < |specs| ==>
              PartsOf(block, specs, h.maxRows, |starts|, h.rowCount).desc.nullCount == counts[|starts|]
  {
    hide ColumnStart, DescAt, OldRead, NewRead, DescPlanned, PayloadsApart;
  }

  lemma EncoderHolds(block: seq<byte>, h: BlockHeader, specs: seq<ColumnSpec>, done: Committed)
    requires EncoderOk(block, h, specs, done)
    ensures DescOffset(|specs|) <= |block|
  {
  }

  lemma RowBegins(block: seq<byte>, h: BlockHeader, specs: seq<ColumnSpec>, done: Committed, cells: seq<Cell>,
                  counts: seq<nat>)
    requires EncoderOk(block, h, specs, done) && h.rowCount < h.maxRows && |cells| == |specs|
             && counts == Counts(block, specs)
    ensures Partial(block, h, specs, done, cells, [], counts, h.tailCursor)
  {
    hide CellReads, ColumnStart, PayloadsApart, DescPlanned, DescAt;
    assert h.(tailCursor := h.tailCursor) == h;
  }

  lemma StoredStep(block: seq<byte>, block': seq<byte>, h: BlockHeader, specs: seq<ColumnSpec>, done: Committed,
                   cells: seq<Cell>, starts: seq<nat>, counts: seq<nat>, top: nat, next: nat)
    requires Partial(block, h, specs, done, cells, starts, counts, top) && |starts| < |cells|
    requires h.poolBase <= next <= h.tailCursor
    requires CellStored(block, block', specs, h.maxRows, |starts|, h.rowCount, cells[|starts|], next, h.tailCursor)
    requires IsLong(cells[|starts|]) ==> next + |cells[|starts|].bytes| == h.tailCursor
    ensures Partial(block', h.(tailCursor := next), specs, done, cells, starts + [next], counts, top)
  {
    NewStep(block, block', h, specs, done, cells, starts, top, next);
    DescStep(block, block', h, specs, done, cells, |starts|, counts, next);
    assert OnlyCell(block, block', specs, h.maxRows, |starts|, h.rowCount, next, h.tailCursor);
    OldStep(block, block', h, specs, done, top, |starts|, next, h.tailCursor);
    hide CellReads, ColumnStart, PayloadsApart, LaidOut, OnlyCell, PartsOf, NewRead, NewCounts, AllRead;
    assert h.(tailCursor := next).(tailCursor := top) == h.(tailCursor := top);
  }

  /** A cell that fails leaves the committed rows readable, with the row's earlier nulls still counted. */
  lemma FailedStep(block: seq<byte>, block': seq<byte>, h: BlockHeader, specs: seq<ColumnSpec>, done: Committed,
                   cells: seq<Cell>, starts: seq<nat>, counts: seq<nat>, top: nat, next: nat)
    requires Partial(block, h, specs, done, cells, starts, counts, top) && |starts| < |cells|
    requires h.poolBase <= next <= h.tailCursor
    requires CellTouched(block, block', specs, h.maxRows, |starts|, h.rowCount, next, h.tailCursor)
    ensures |done.nullBase| == |cells| && next <= top
    ensures EncoderOk(block', h.(tailCursor := next), specs, Leak(done, cells, |starts|))
  {
    TouchedDescs(block, block', h, specs, done, |starts|, next);
    assert OnlyCell(block, block', specs, h.maxRows, |starts|, h.rowCount, next, h.tailCursor);
    OldStep(block, block', h, specs, done, top, |starts|, next, h.tailCursor);
    LeakReads(block', h, specs, done, cells, |starts|, top, next);
    LeakApart(done, specs, cells, |starts|);
    hide CellReads, ColumnStart, LaidOut, OnlyCell, PartsOf, NewRead, DescAt, RowReads, OldRead, AllRead, PayloadsApart;
  }

  lemma LeakReads(block: seq<byte>, h: BlockHeader, specs: seq<ColumnSpec>, done: Committed, cells: seq<Cell>, k: nat,
                  top: nat, next: nat)
    requires Shaped(done, specs) && Holds(block, specs, h.maxRows) && |cells| == |specs| && next <= top
    requires OldRead(block, h, specs, done, top)
    ensures AllRead(block, h.(tailCursor := next), specs, Leak(done, cells, k))
  {
    hide CellReads, ColumnStart;
    var h', done' := h.(tailCursor := next), Leak(done, cells, k);
    forall i: nat, c: nat | i < |done.rows| && c < |specs| ensures RowReads(block, h', specs, done', i, c) {
      assert RowReads(block, h.(tailCursor := top), specs, done, i, c);
    }
  }

  lemma LeakApart(done: Committed, specs: seq<ColumnSpec>, cells: seq<Cell>, k: nat)
    requires Shaped(done, specs) && PayloadsApart(done, specs) && |cells| == |specs|
    ensures Shaped(Leak(done, cells, k), specs) && PayloadsApart(Leak(done, cells, k), specs)
  {
    var done' := Leak(done, cells, k);
    forall i: nat, c: nat ensures StartOf(done', i, c) == StartOf(done, i, c) {}
  }

  lemma TouchedDescs(block: seq<byte>, block': seq<byte>, h: BlockHeader, specs: seq<ColumnSpec>, done: Committed,
                     c: nat, next: nat)
    requires Based(block, h, specs, done) && c < |specs| && DescOffset(|specs|) <= |block|
             && h.poolBase <= next <= h.tailCursor
    requires CellTouched(block, block', specs, h.maxRows, c, h.rowCount, next, h.tailCursor)
    ensures |block'| == |block| && Based(block', h.(tailCursor := next), specs, done)
    ensures forall j: nat :: j < |specs| ==> DescAt(block', j) == DescAt(block, j)
  {
    hide CellReads, PayloadsApart, ColumnStart, DecodeDesc, DescAt, PlannedColumn;
    forall j: nat | j < |specs| && j != c ensures DescAt(block', j) == DescAt(block, j) {
      DescsKept(block, block', specs, h.maxRows, c, h.rowCount, next, h.tailCursor, j);
    }
    hide OnlyCell;
    forall j | 0 <= j < |specs| ensures DescPlanned(DescAt(block', j), specs, h.maxRows, j) {
      assert DescPlanned(DescAt(block, j), specs, h.maxRows, j);
    }
  }

  lemma RollbackBegins(block: seq<byte>, h: BlockHeader, specs: seq<ColumnSpec>, done: Committed,
                       cells: seq<Cell>, starts: seq<nat>, counts: seq<nat>, top: nat)
    requires Partial(block, h, specs, done, cells, starts, counts, top)
    ensures Undoing(block, h.(tailCursor := top), specs, done, cells, 0, |starts|, counts)
  {
    hide CellReads, ColumnStart, ValidBit, PayloadsApart, DescPlanned, NewRead, NewCounts, DescAt;
    ReadTells(block, h, specs, cells, starts, top);
    assert h.(tailCursor := top).(tailCursor := top) == h.(tailCursor := top);
  }

  lemma UndoingFacts(block: seq<byte>, h: BlockHeader, specs: seq<ColumnSpec>, done: Committed, cells: seq<Cell>,
                     i: nat, written: nat, counts: seq<nat>)
    requires Undoing(block, h, specs, done, cells, i, written, counts)
    ensures LaidOut(block, h, specs) && HeaderFits(h) && Holds(block, specs, h.maxRows) && h.rowCount < h.maxRows
            && i <= written <= |cells| == |specs|
    ensures i < written ==>
              (cells[i].NullCell? <==> specs[i].nullable && !ValidBit(block, specs, h.maxRows, i, h.rowCount))
  {
    hide ColumnStart, DescAt, OldRead, ValidBit, DescPlanned, PayloadsApart;
  }

  lemma SkipNull(block: seq<byte>, h: BlockHeader, specs: seq<ColumnSpec>, done: Committed, cells: seq<Cell>, i: nat,
                 written: nat, counts: seq<nat>)
    requires Undoing(block, h, specs, done, cells, i, written, counts) && i < written && !cells[i].NullCell?
    ensures Undoing(block, h, specs, done, cells, i + 1, written, counts)
  {
    hide Based, DescAt, OldRead, BitsTell;
  }

  lemma Undone(block: seq<byte>, h: BlockHeader, specs: seq<ColumnSpec>, done: Committed, cells: seq<Cell>,
               written: nat, counts: seq<nat>)
    requires Undoing(block, h, specs, done, cells, written, written, counts)
    ensures Partial(block, h, specs, done, cells, [], counts, h.tailCursor)
  {
    hide Based, DescAt, OldRead, BitsTell, ColumnStart;
  }

  /** With the cursor and the counts restored, the committed state is intact. */
  lemma RolledBack(block: seq<byte>, h: BlockHeader, specs: seq<ColumnSpec>, done: Committed, cells: seq<Cell>,
                   counts: seq<nat>)
    requires Partial(block, h, specs, done, cells, [], counts, h.tailCursor)
    ensures EncoderOk(block, h, specs, done)
  {
    hide CellReads, ColumnStart, PayloadsApart, DescPlanned, DescAt;
    assert h.(tailCursor := h.tailCursor) == h;
  }

  // ---- Starting and finishing ---------------------------------------------------------------------------

  lemma Started(block: seq<byte>, h: BlockHeader, specs: seq<ColumnSpec>)
    requires |block| >= HEADER_LEN && h == HeaderAt(block) && LaidOut(block, h, specs)
    ensures EncoderOk(block, h, specs, Committed(h.rowCount, Counts(block, specs), [], map[]))
  {
    DecodedFits(block[..HEADER_LEN]);
    hide DecodeHeader, ColumnStart, DescPlanned, DescAt;
  }

  /** Cells only depend on the bytes from the first column on. */
  lemma ReadsFromColumns(block: seq<byte>, block': seq<byte>, specs: seq<ColumnSpec>, rows: nat, c: nat, row: nat,
                         cell: Cell, start: nat)
    requires InRange(block, specs, rows, c, row) && |block'| == |block|
    requires forall i: nat :: DescOffset(|specs|) <= i < |block| ==> block'[i] == block[i]
    requires CellReads(block, specs, rows, c, row, cell, start)
    ensures CellReads(block', specs, rows, c, row, cell, start)
  {
    hide ColumnStart, RowWidth, DecodeView, InlineView, OutlineView, ValuesOff, SlotStart, SlotEnd, ValidityOff;
    CellPlaces(specs, rows, c, row);
    PrefixHeld(block, specs, rows);
    assert ValidBit(block', specs, rows, c, row) == ValidBit(block, specs, rows, c, row);
    if specs[c].tag.Boolean? { assert BoolBit(block', specs, rows, c, row) == BoolBit(block, specs, rows, c, row); }
    assert Slot(block', specs, rows, c, row) == Slot(block, specs, rows, c, row);
    hide Slot, ValidBit, BoolBit;
    if IsLong(cell) { assert block'[start..start + |cell.bytes|] == block[start..start + |cell.bytes|]; }
  }

  lemma FinishOk(block: seq<byte>, h: BlockHeader, specs: seq<ColumnSpec>, done: Committed)
    requires EncoderOk(block, h, specs, done)
    ensures HEADER_LEN <= |block| && h.rowCount == done.base + |done.rows|
    ensures var block' := Splice(block, 0, EncodeHeader(h));
            EncoderOk(block', h, specs, done) && HeaderAt(block') == h && Opens(block')
  {
    hide CellReads, ColumnStart, DescPlanned, EncodeHeader, DecodeHeader, DescAt, PayloadsApart, HeaderFits;
    var block' := Splice(block, 0, EncodeHeader(h));
    HeaderStored(block, |specs|, h);
    assert LaidOut(block', h, specs);
    forall k: nat, c: nat | k < |done.rows| && c < |specs| ensures RowReads(block', h, specs, done, k, c) {
      assert RowReads(block, h, specs, done, k, c);
      ReadsFromColumns(block, block', specs, h.maxRows, c, done.base + k, done.rows[k][c], StartOf(done, k, c));
    }
  }

  // ---- The importer's checks ----------------------------------------------------------------------------

  /** `import_nulls` accepts the column. */
  ghost predicate NullsAccepted(block: seq<byte>, h: BlockHeader, specs: seq<ColumnSpec>, c: nat)
    requires c < |specs| && Holds(block, specs, h.maxRows) && DescOffset(|specs|) <= |block| && h.rowCount <= h.maxRows
  {
    var nullCount := DescAt(block, c).nullCount;
    if !specs[c].nullable then nullCount == 0
    else
      BitmapInside(block, specs, h.maxRows, c, h.rowCount);
      nullCount <= h.rowCount && nullCount == ClearBits(block, ValidityOff(specs, h.maxRows, c), h.rowCount)
  }

  lemma BitmapInside(block: seq<byte>, specs: seq<ColumnSpec>, rows: nat, c: nat, count: nat)
    requires c < |specs| && Holds(block, specs, rows) && count <= rows
    ensures count == 0 || ValidityOff(specs, rows, c) + (count - 1) / 8 < |block|
  {
    if count > 0 { CellPlaces(specs, rows, c, count - 1); }
  }

  /** The view in a slot points into the allocated tail, or nowhere. */
  predicate ViewAccepted(slot: seq<byte>, h: BlockHeader)
    requires |slot| == VIEW_LEN && h.poolBase <= h.tailCursor <= h.blockSize
  {
    var v := DecodeView(slot);
    && ViewError(v, h.blockSize - h.poolBase).None?
    && var offset := ViewOffset(v);
       offset.Ok? && (offset.value.Some? ==> offset.value.value >= h.tailCursor - h.poolBase)
  }

  /** Every valid view of the column points into the allocated tail. */
  ghost predicate TailAccepted(block: seq<byte>, h: BlockHeader, specs: seq<ColumnSpec>, c: nat)
    requires Holds(block, specs, h.maxRows) && c < |specs| && IsView(specs[c].tag) && h.rowCount <= h.maxRows
    requires h.poolBase <= h.tailCursor <= h.blockSize
  {
    forall row: nat :: row < h.rowCount && !(specs[c].nullable && !ValidBit(block, specs, h.maxRows, c, row)) ==>
      ViewAccepted(Slot(block, specs, h.maxRows, c, row), h)
  }

  /** `validate_view_tail`. */
  method ValidateViewTail(block: seq<byte>, h: BlockHeader, specs: seq<ColumnSpec>, c: nat) returns (ok: bool)
    requires LaidOut(block, h, specs) && Holds(block, specs, h.maxRows) && c < |specs| && IsView(specs[c].tag)
    ensures ok <==> TailAccepted(block, h, specs, c)
  {
    hide ViewAccepted, ValidBit, Slot, ColumnStart, DescPlanned;
    for row := 0 to h.rowCount
      invariant forall r: nat :: r < row && !(specs[c].nullable && !ValidBit(block, specs, h.maxRows, c, r)) ==>
                  ViewAccepted(Slot(block, specs, h.maxRows, c, r), h)
    {
      if specs[c].nullable && !ValidBit(block, specs, h.maxRows, c, row) { continue; }
      if !ViewAccepted(Slot(block, specs, h.maxRows, c, row), h) { return false; }
    }
    ok := true;
  }

  lemma {:induction false} ClearBitsAreNulls(block: seq<byte>, h: BlockHeader, specs: seq<ColumnSpec>,
                                             done: Committed, c: nat, n: nat)
    requires LaidOut(block, h, specs) && Holds(block, specs, h.maxRows) && Shaped(done, specs) && done.base == 0
             && AllRead(block, h, specs, done)
    requires n <= |done.rows| <= h.maxRows && c < |specs| && specs[c].nullable
    ensures n == 0 || ValidityOff(specs, h.maxRows, c) + (n - 1) / 8 < |block|
    ensures ClearBits(block, ValidityOff(specs, h.maxRows, c), n) == NullsIn(done.rows[..n], c)
  {
    hide ColumnStart, BoolBit, Slot, ViewReads, DescPlanned;
    BitmapInside(block, specs, h.maxRows, c, n);
    if n > 0 {
      ClearBitsAreNulls(block, h, specs, done, c, n - 1);
      assert done.rows[..n][..n - 1] == done.rows[..n - 1];
      assert RowReads(block, h, specs, done, n - 1, c);
    }
  }

  lemma {:induction false} NoNulls(block: seq<byte>, h: BlockHeader, specs: seq<ColumnSpec>, done: Committed, c: nat,
                                   n: nat)
    requires Holds(block, specs, h.maxRows) && Shaped(done, specs) && AllRead(block, h, specs, done)
    requires n <= |done.rows| && c < |specs| && !specs[c].nullable
    ensures NullsIn(done.rows[..n], c) == 0
  {
    hide ColumnStart, BoolBit, Slot, ViewReads, ValidBit;
    if n > 0 {
      NoNulls(block, h, specs, done, c, n - 1);
      assert done.rows[..n][..n - 1] == done.rows[..n - 1];
      assert RowReads(block, h, specs, done, n - 1, c);
    }
  }

  /**
   * Rows appended to a block that had none pass the importer's null-count check in a column exactly if the block
   * began with no null counted there and no failed row left one behind.
   */
  lemma ImporterAcceptsNulls(block: seq<byte>, h: BlockHeader, specs: seq<ColumnSpec>, done: Committed, c: nat)
    requires EncoderOk(block, h, specs, done) && done.base == 0 && c < |specs|
    ensures DescOffset(|specs|) <= |block| && (NullsAccepted(block, h, specs, c) <==> done.nullBase[c] == 0)
  {
    hide CellReads, ColumnStart, DescPlanned, DescAt, PayloadsApart, ClearBits;
    assert done.rows[..|done.rows|] == done.rows;
    if specs[c].nullable {
      ClearBitsAreNulls(block, h, specs, done, c, |done.rows|);
      BitmapInside(block, specs, h.maxRows, c, h.rowCount);
      NullsWithin(done.rows, c);
    } else {
      NoNulls(block, h, specs, done, c, |done.rows|);
    }
  }

  lemma {:induction false} NullsWithin(rows: seq<seq<Cell>>, c: nat)
    requires forall k :: 0 <= k < |rows| ==> c < |rows[k]|
    ensures NullsIn(rows, c) <= |rows|
  {
    if rows != [] { NullsWithin(rows[..|rows| - 1], c); }
  }

  /** Every committed view passes the importer's tail check. */
  lemma ImporterAcceptsViews(block: seq<byte>, h: BlockHeader, specs: seq<ColumnSpec>, done: Committed, k: nat, c: nat)
    requires EncoderOk(block, h, specs, done) && k < |done.rows| && c < |specs| && IsView(specs[c].tag)
    ensures done.base + k < h.maxRows
    ensures (specs[c].nullable && !ValidBit(block, specs, h.maxRows, c, done.base + k))
            || ViewAccepted(Slot(block, specs, h.maxRows, c, done.base + k), h)
  {
    hide CellReads, ColumnStart, DescPlanned, ValidBit, Slot, ViewAccepted, PayloadsApart;
    assert RowReads(block, h, specs, done, k, c);
    LaidOutBounds(block, h, specs);
    hide LaidOut;
    ViewOfCell(block, h, specs, c, done.base + k, done.rows[k][c], StartOf(done, k, c));
  }

  /** What the importer checks of every column. */
  ghost predicate Importable(block: seq<byte>, h: BlockHeader, specs: seq<ColumnSpec>)
    requires Holds(block, specs, h.maxRows) && DescOffset(|specs|) <= |block| && h.rowCount <= h.maxRows
    requires h.poolBase <= h.tailCursor <= h.blockSize
  {
    forall c: nat :: c < |specs| ==>
      NullsAccepted(block, h, specs, c) && (IsView(specs[c].tag) ==> TailAccepted(block, h, specs, c))
  }

  lemma ImportBounds(block: seq<byte>, h: BlockHeader, specs: seq<ColumnSpec>, done: Committed)
    requires EncoderOk(block, h, specs, done)
    ensures Holds(block, specs, h.maxRows) && DescOffset(|specs|) <= |block| && h.rowCount <= h.maxRows
    ensures h.poolBase <= h.tailCursor <= h.blockSize && |done.nullBase| == |specs|
  {
    LaidOutBounds(block, h, specs);
  }

  /** A block written from the start is importable exactly if no failed row left a null counted. */
  lemma ImportableExactly(block: seq<byte>, h: BlockHeader, specs: seq<ColumnSpec>, done: Committed)
    requires EncoderOk(block, h, specs, done) && done.base == 0
    ensures Holds(block, specs, h.maxRows) && DescOffset(|specs|) <= |block| && h.rowCount <= h.maxRows
    ensures h.poolBase <= h.tailCursor <= h.blockSize && |done.nullBase| == |specs|
    ensures Importable(block, h, specs) <==> forall c: nat :: c < |specs| ==> done.nullBase[c] == 0
  {
    ImportBounds(block, h, specs, done);
    hide NullsAccepted, ViewAccepted, ValidBit, Slot, ColumnStart;
    forall c: nat | c < |specs|
      ensures NullsAccepted(block, h, specs, c) <==> done.nullBase[c] == 0
      ensures IsView(specs[c].tag) ==> TailAccepted(block, h, specs, c)
    {
      ImporterAcceptsNulls(block, h, specs, done, c);
      if IsView(specs[c].tag) { ColumnTail(block, h, specs, done, c); }
    }
  }

  /** A page finished after a failed row is importable exactly if no null came before the failing column. */
  lemma FailedRowImports(block: seq<byte>, h: BlockHeader, specs: seq<ColumnSpec>, done: Committed, cells: seq<Cell>,
                         k: nat)
    requires |done.nullBase| == |cells| == |specs| && EncoderOk(block, h, specs, Leak(done, cells, k)) && done.base == 0
    requires forall c: nat :: c < |specs| ==> done.nullBase[c] == 0
    ensures Holds(block, specs, h.maxRows) && DescOffset(|specs|) <= |block| && h.rowCount <= h.maxRows
    ensures h.poolBase <= h.tailCursor <= h.blockSize
    ensures Importable(block, h, specs) <==> forall c: nat :: c < k && c < |cells| ==> !cells[c].NullCell?
  {
    hide EncoderOk, Importable;
    ImportableExactly(block, h, specs, Leak(done, cells, k));
    var leaked := Leak(done, cells, k).nullBase;
    forall c: nat | c < |specs| ensures leaked[c] == 0 <==> !(c < k && cells[c].NullCell?) {}
  }

  lemma ColumnTail(block: seq<byte>, h: BlockHeader, specs: seq<ColumnSpec>, done: Committed, c: nat)
    requires EncoderOk(block, h, specs, done) && done.base == 0 && c < |specs| && IsView(specs[c].tag)
    ensures h.rowCount <= h.maxRows && h.poolBase <= h.tailCursor <= h.blockSize && TailAccepted(block, h, specs, c)
  {
    ImportBounds(block, h, specs, done);
    assert h.rowCount == |done.rows|;
    hide EncoderOk, ViewAccepted, ValidBit, Slot, ColumnStart;
    forall row: nat | row < h.rowCount && !(specs[c].nullable && !ValidBit(block, specs, h.maxRows, c, row))
      ensures ViewAccepted(Slot(block, specs, h.maxRows, c, row), h)
    {
      ImporterAcceptsViews(block, h, specs, done, row, c);
    }
  }

  lemma ViewOfCell(block: seq<byte>, h: BlockHeader, specs: seq<ColumnSpec>, c: nat, row: nat, cell: Cell, start: nat)
    requires InRange(block, specs, h.maxRows, c, row) && IsView(specs[c].tag)
             && CellReads(block, specs, h.maxRows, c, row, cell, start)
    requires h.poolBase == ColumnStart(specs, h.maxRows, |specs|) <= h.tailCursor <= h.blockSize <= U32_MAX
    requires IsLong(cell) ==> h.tailCursor <= start && start + |cell.bytes| <= h.blockSize
    ensures (specs[c].nullable && !ValidBit(block, specs, h.maxRows, c, row))
            || ViewAccepted(Slot(block, specs, h.maxRows, c, row), h)
  {
    hide ColumnStart, ValidBit, BoolBit, Slot, DecodeView, OutlineView, InlineView, ViewOffset, ViewError;
    if cell.Utf8Cell? || cell.BinaryCell? {
      if |cell.bytes| <= INLINE_LEN { InlineReads(cell.bytes, h.blockSize - h.poolBase); }
      else { OutlineReads(cell.bytes, start - h.poolBase, h.blockSize - h.poolBase); }
    }
  }

  /** The descriptors of a block tell its columns, so a block is laid out for one column list only. */
  lemma SameSpecs(block: seq<byte>, h: BlockHeader, specs: seq<ColumnSpec>, specs': seq<ColumnSpec>)
    requires LaidOut(block, h, specs) && LaidOut(block, h, specs')
    ensures specs == specs'
  {
    assert |specs| == |specs'|;
    forall i: nat | i < |specs| ensures specs[i] == specs'[i] {
      SpecsRecovered(block, h, specs, i);
      SpecsRecovered(block, h, specs', i);
    }
  }

  lemma EncoderLaid(block: seq<byte>, h: BlockHeader, specs: seq<ColumnSpec>, done: Committed)
    requires EncoderOk(block, h, specs, done)
    ensures LaidOut(block, h, specs) && |done.nullBase| == |specs| && h.rowCount == done.base + |done.rows|
  {
  }

  /** A nullable column and one that is not, and a row of two nulls. */
  const LEAKY := [ColumnSpec(Int32, true), ColumnSpec(Int32, false)]

  /** The row fails at its second null, but the first one stays counted, and the importer refuses the finished page. */
  method FinishAfterFailure(payload: array<byte>) returns (r: RowOutcome)
    requires payload.Length >= 512
    modifies payload
    ensures r == Failed(NullInNonNullableColumn) && Opens(payload[..])
    ensures var h := HeaderAt(payload[..]);
            && h.rowCount == 0 && Holds(payload[..], LEAKY, h.maxRows) && DescOffset(|LEAKY|) <= payload.Length
            && h.rowCount <= h.maxRows && h.poolBase <= h.tailCursor <= h.blockSize
            && !Importable(payload[..], h, LEAKY)
  {
    hide EncoderOk, LaidOut, IsPlan, Opens, Importable, Leak, ScanRow, StopsAt;
    LeakyFits();
    var plan := NewPlan(LEAKY, 1, 512);
    ColumnsPlanned(plan.value, LEAKY);
    var ok := InitBlock(payload, plan.value, LEAKY);
    var encoder := new Encoder(payload);
    EncoderLaid(payload[..], encoder.header, encoder.specs, encoder.done);
    SameSpecs(payload[..], encoder.header, encoder.specs, LEAKY);
    ghost var done, counts := encoder.done, Counts(payload[..], LEAKY);
    assert forall c: nat :: c < 2 ==> counts[c] == 0 && done.nullBase[c] == 0;
    LeakyStops(counts, encoder.header.poolBase, encoder.header.tailCursor);
    var cells := [NullCell, NullCell];
    r := encoder.AppendRow(cells);
    var _, _ := encoder.Finish();
    FailedRowImports(payload[..], encoder.header, LEAKY, done, cells, 1);
    assert cells[0].NullCell?;
  }

  lemma ColumnsPlanned(plan: LayoutPlan, specs: seq<ColumnSpec>)
    requires IsPlan(plan, specs)
    ensures |plan.columns| == |specs|
  {
  }

  lemma LeakyStops(counts: seq<nat>, poolBase: nat, cursor: nat)
    requires |counts| == 2 && counts[0] == 0
    ensures ScanRow(LEAKY, counts, poolBase, [NullCell, NullCell], 0, cursor) == Failed(NullInNonNullableColumn)
    ensures StopsAt(LEAKY, counts, poolBase, [NullCell, NullCell], 0, cursor) == 1
  {
  }

  lemma LeakyFits()
    ensures ColumnStart(LEAKY, 1, 2) <= 512
  {
  }
}
