/** What writing a run of rows of one column may touch, and what the rest of the block still reads as. */
module ColumnWrites {
  import opened Bytes
  import Bits
  import opened Bitmaps
  import opened ArrowLayout
  import opened ArrowBlock
  import opened RowCells

  /** What the front of the block holds for one cell. */
  datatype Front = Front(valid: bool, value: bool, slot: seq<byte>)

  function FrontOf(block: seq<byte>, specs: seq<ColumnSpec>, rows: nat, c: nat, row: nat): Front
    requires InRange(block, specs, rows, c, row)
  {
    Front(ValidBit(block, specs, rows, c, row), specs[c].tag.Boolean? && BoolBit(block, specs, rows, c, row),
          Slot(block, specs, rows, c, row))
  }

  /** Byte `i` belongs to the header, to descriptor or column `c`, or to the tail from `lo` to `hi`. */
  predicate InColumn(specs: seq<ColumnSpec>, rows: nat, c: nat, lo: nat, hi: nat, i: nat)
    requires c < |specs|
  {
    || i < HEADER_LEN || DescOffset(c) <= i < DescOffset(c + 1)
    || ColumnStart(specs, rows, c) <= i < ColumnStart(specs, rows, c + 1) || lo <= i < hi
  }

  /** Rows `from` to `to` of column `c`, its descriptor, the header and the tail from `lo` to `hi` may differ. */
  ghost predicate OnlyColumn(block: seq<byte>, block': seq<byte>, specs: seq<ColumnSpec>, rows: nat, c: nat,
                             from: nat, to: nat, lo: nat, hi: nat)
    requires c < |specs| && Holds(block, specs, rows)
  {
    && |block'| == |block|
    && (forall i: nat :: i < |block| && !InColumn(specs, rows, c, lo, hi, i) ==> block'[i] == block[i])
    && (forall r: nat :: r < rows && !(from <= r < to) ==>
          FrontOf(block', specs, rows, c, r) == FrontOf(block, specs, rows, c, r))
  }

  /** The front parts and the tail bytes decide what a cell reads as. */
  lemma FrontDecides(block: seq<byte>, block': seq<byte>, specs: seq<ColumnSpec>, rows: nat, c: nat, row: nat,
                     cell: Cell, start: nat)
    requires InRange(block, specs, rows, c, row) && |block'| == |block|
    requires FrontOf(block', specs, rows, c, row) == FrontOf(block, specs, rows, c, row)
    requires IsLong(cell) && start + |cell.bytes| <= |block| ==>
              block'[start..start + |cell.bytes|] == block[start..start + |cell.bytes|]
    requires CellReads(block, specs, rows, c, row, cell, start)
    ensures CellReads(block', specs, rows, c, row, cell, start)
  {
    hide ColumnStart, RowWidth, ValidBit, BoolBit, Slot, DecodeView, InlineView, OutlineView;
  }

  /** The front of a cell lies in its own column. */
  lemma OtherFronts(block: seq<byte>, block': seq<byte>, specs: seq<ColumnSpec>, rows: nat, c: nat, from: nat,
                    to: nat, lo: nat, hi: nat,
                    c': nat, row: nat)
    requires c < |specs| && InRange(block, specs, rows, c', row) && c' != c
    requires OnlyColumn(block, block', specs, rows, c, from, to, lo, hi) && ColumnStart(specs, rows, |specs|) <= lo
    ensures FrontOf(block', specs, rows, c', row) == FrontOf(block, specs, rows, c', row)
  {
    hide ColumnStart, RowWidth, FrontOf, SlotStart, SlotEnd, ValidityOff, ValuesOff;
    CellPlaces(specs, rows, c', row);
    ColumnsApart(specs, rows, c, c');
    StartsGrow(specs, rows, c' + 1, |specs|);
    PrefixHeld(block, specs, rows);
    var first, last := ColumnStart(specs, rows, c'), ColumnStart(specs, rows, c' + 1);
    forall i: nat | first <= i < last ensures block'[i] == block[i] {
      assert !InColumn(specs, rows, c, lo, hi, i);
    }
    SameRegion(block, block', specs, rows, c', row);
  }

  lemma SameRegion(block: seq<byte>, block': seq<byte>, specs: seq<ColumnSpec>, rows: nat, c: nat, row: nat)
    requires InRange(block, specs, rows, c, row) && |block'| == |block| && ColumnStart(specs, rows, c + 1) <= |block|
    requires forall i: nat :: ColumnStart(specs, rows, c) <= i < ColumnStart(specs, rows, c + 1) ==>
              block'[i] == block[i]
    ensures FrontOf(block', specs, rows, c, row) == FrontOf(block, specs, rows, c, row)
  {
    hide ColumnStart, RowWidth, SlotStart, SlotEnd, ValidityOff, ValuesOff;
    CellPlaces(specs, rows, c, row);
  }

  /** Cells outside the run read as before, their long payloads included. */
  lemma ReadsKept(block: seq<byte>, block': seq<byte>, specs: seq<ColumnSpec>, rows: nat, c: nat, from: nat, to: nat,
                  lo: nat, hi: nat,
                  c': nat, row: nat, cell: Cell, start: nat)
    requires c < |specs| && InRange(block, specs, rows, c', row) && (c' != c || !(from <= row < to))
    requires OnlyColumn(block, block', specs, rows, c, from, to, lo, hi) && ColumnStart(specs, rows, |specs|) <= lo
    requires CellReads(block, specs, rows, c', row, cell, start) && (IsLong(cell) ==> hi <= start)
    ensures CellReads(block', specs, rows, c', row, cell, start)
  {
    hide FrontOf, ColumnStart, CellReads;
    if c' != c { OtherFronts(block, block', specs, rows, c, from, to, lo, hi, c', row); }
    if IsLong(cell) {
      LongInTail(block, specs, rows, c', row, cell, start);
      TailKept(block, block', specs, rows, c, from, to, lo, hi, start, start + |cell.bytes|);
    }
    FrontDecides(block, block', specs, rows, c', row, cell, start);
  }

  lemma LongInTail(block: seq<byte>, specs: seq<ColumnSpec>, rows: nat, c: nat, row: nat, cell: Cell, start: nat)
    requires InRange(block, specs, rows, c, row) && CellReads(block, specs, rows, c, row, cell, start) && IsLong(cell)
    ensures ColumnStart(specs, rows, |specs|) <= start && start + |cell.bytes| <= |block|
  {
    hide ColumnStart, RowWidth, ValidBit, BoolBit, Slot, DecodeView, InlineView, OutlineView;
  }

  lemma TailKept(block: seq<byte>, block': seq<byte>, specs: seq<ColumnSpec>, rows: nat, c: nat, from: nat, to: nat,
                 lo: nat, hi: nat,
                 start: nat, end: nat)
    requires c < |specs| && Holds(block, specs, rows) && OnlyColumn(block, block', specs, rows, c, from, to, lo, hi)
    requires ColumnStart(specs, rows, |specs|) <= start <= end <= |block| && hi <= start
    ensures block'[start..end] == block[start..end]
  {
    hide ColumnStart, FrontOf;
    PrefixHeld(block, specs, rows);
    StartsGrow(specs, rows, c + 1, |specs|);
    forall i: nat | start <= i < end ensures block'[i] == block[i] {
      assert !InColumn(specs, rows, c, lo, hi, i);
    }
  }

  /** Descriptors of other columns are out of the way. */
  lemma OtherDescs(block: seq<byte>, block': seq<byte>, specs: seq<ColumnSpec>, rows: nat, c: nat, from: nat, to: nat,
                   lo: nat, hi: nat, j: nat)
    requires c < |specs| && j < |specs| && j != c && Holds(block, specs, rows)
    requires OnlyColumn(block, block', specs, rows, c, from, to, lo, hi) && ColumnStart(specs, rows, |specs|) <= lo
    ensures DescOffset(|specs|) <= |block| && DescAt(block', j) == DescAt(block, j)
  {
    hide ColumnStart, DecodeDesc, FrontOf;
    PrefixHeld(block, specs, rows);
    StartAligned(specs, rows, c);
    FrontBaseAfterPrefix(|specs|);
    hide FrontBase, Biased;
    forall i: nat | DescOffset(j) <= i < DescOffset(j) + DESC_LEN ensures block'[i] == block[i] {
      assert !InColumn(specs, rows, c, lo, hi, i);
    }
    assert block'[DescOffset(j)..DescOffset(j) + DESC_LEN] == block[DescOffset(j)..DescOffset(j) + DESC_LEN];
  }

  lemma OnlyColumnTrans(b0: seq<byte>, b1: seq<byte>, b2: seq<byte>, specs: seq<ColumnSpec>, rows: nat, c: nat,
                        from: nat, to: nat, lo: nat, hi: nat)
    requires c < |specs| && Holds(b0, specs, rows)
    requires OnlyColumn(b0, b1, specs, rows, c, from, to, lo, hi)
             && OnlyColumn(b1, b2, specs, rows, c, from, to, lo, hi)
    ensures OnlyColumn(b0, b2, specs, rows, c, from, to, lo, hi)
  {
    hide ColumnStart, FrontOf, InColumn;
  }

  lemma OnlyColumnSelf(block: seq<byte>, specs: seq<ColumnSpec>, rows: nat, c: nat, from: nat, to: nat, lo: nat,
                       hi: nat)
    requires c < |specs| && Holds(block, specs, rows)
    ensures OnlyColumn(block, block, specs, rows, c, from, to, lo, hi)
  {
  }

  // ---- The writes --------------------------------------------------------------------------------------

  /** Bytes stored in the header, in the free tail or in the descriptor change no cell's front. */
  lemma OutsideFront(block: seq<byte>, specs: seq<ColumnSpec>, rows: nat, c: nat, from: nat, to: nat, lo: nat,
                     hi: nat, at: nat, bytes: seq<byte>)
    requires c < |specs| && Holds(block, specs, rows) && at + |bytes| <= |block|
    requires || at + |bytes| <= HEADER_LEN
             || (ColumnStart(specs, rows, |specs|) <= at && lo <= at && at + |bytes| <= hi)
             || (DescOffset(c) <= at && at + |bytes| <= DescOffset(c + 1))
    ensures OnlyColumn(block, Splice(block, at, bytes), specs, rows, c, from, to, lo, hi)
  {
    hide ColumnStart, FrontOf;
    var block' := Splice(block, at, bytes);
    PrefixHeld(block, specs, rows);
    StartAligned(specs, rows, c);
    FrontBaseAfterPrefix(|specs|);
    StartsGrow(specs, rows, c + 1, |specs|);
    hide FrontBase, Biased;
    forall r: nat | r < rows ensures FrontOf(block', specs, rows, c, r) == FrontOf(block, specs, rows, c, r) {
      SameRegion(block, block', specs, rows, c, r);
    }
  }

  /** Only the column's own bytes differ, and rows outside the run keep their bits and slots. */
  lemma WithinColumn(block: seq<byte>, block': seq<byte>, specs: seq<ColumnSpec>, rows: nat, c: nat, from: nat,
                     to: nat, lo: nat, hi: nat)
    requires c < |specs| && Holds(block, specs, rows) && |block'| == |block|
    requires forall i: nat :: i < |block| && !(ColumnStart(specs, rows, c) <= i < ColumnStart(specs, rows, c + 1)) ==>
              block'[i] == block[i]
    requires forall r: nat :: r < rows && !(from <= r < to) ==>
              FrontOf(block', specs, rows, c, r) == FrontOf(block, specs, rows, c, r)
    ensures OnlyColumn(block, block', specs, rows, c, from, to, lo, hi)
  {
    hide ColumnStart, FrontOf;
  }

  /** The bits of rows `from` to `to` of the bitmap at `base` are as told; other bits and other bytes are as before. */
  ghost predicate BitsWritten(block: seq<byte>, block': seq<byte>, base: nat, rows: nat, from: nat, to: nat,
                              bits: seq<bool>) {
    && |block'| == |block| && from + |bits| == to <= rows && base + BitmapBytes(rows) <= |block|
    && (forall i: nat :: i < |block| && !(base <= i < base + BitmapBytes(rows)) ==> block'[i] == block[i])
    && (forall r: nat :: r < rows ==>
          BitOf(block', base, r) == if from <= r < to then bits[r - from] else BitOf(block, base, r))
  }

  /** A run of validity bits. */
  lemma ValidityWritten(block: seq<byte>, block': seq<byte>, specs: seq<ColumnSpec>, rows: nat, c: nat, from: nat,
                        to: nat, bits: seq<bool>,
                        lo: nat, hi: nat)
    requires c < |specs| && Holds(block, specs, rows)
    requires BitsWritten(block, block', ValidityOff(specs, rows, c), rows, from, to, bits)
    ensures OnlyColumn(block, block', specs, rows, c, from, to, lo, hi)
    ensures forall r: nat :: from <= r < to ==>
              FrontOf(block', specs, rows, c, r) == FrontOf(block, specs, rows, c, r).(valid := bits[r - from])
  {
    hide RowWidth, BitOf;
    var base := ValidityOff(specs, rows, c);
    assert ColumnStart(specs, rows, c + 1) == base + ValidityLen(rows) + ValuesLen(specs[c].tag, rows);
    assert base + BitmapBytes(rows) <= ValuesOff(specs, rows, c) <= ColumnStart(specs, rows, c + 1);
    hide ColumnStart, ValidityLen, ValuesLen, BitmapBytes;
    forall r: nat | r < rows
      ensures FrontOf(block', specs, rows, c, r)
              == FrontOf(block, specs, rows, c,
                         r).(valid := if from <= r < to then bits[r - from] else ValidBit(block, specs, rows, c, r))
    {
      CellPlaces(specs, rows, c, r);
      assert Slot(block', specs, rows, c, r) == Slot(block, specs, rows, c, r);
      assert specs[c].tag.Boolean? ==> BoolBit(block', specs, rows, c, r) == BoolBit(block, specs, rows, c, r) by {
        BitSame(block, block', ValuesOff(specs, rows, c), r);
      }
    }
    hide FrontOf;
    WithinColumn(block, block', specs, rows, c, from, to, lo, hi);
  }

  lemma BitSame(block: seq<byte>, block': seq<byte>, base: nat, row: nat)
    requires |block'| == |block|
    ensures base + row / 8 < |block| && block'[base + row / 8] == block[base + row / 8] ==>
              BitOf(block', base, row) == BitOf(block, base, row)
  {
  }

  /** A run of boolean values. */
  lemma BoolsWritten(block: seq<byte>, block': seq<byte>, specs: seq<ColumnSpec>, rows: nat, c: nat, from: nat,
                     to: nat, bits: seq<bool>,
                     lo: nat, hi: nat)
    requires c < |specs| && Holds(block, specs, rows) && specs[c].tag.Boolean?
    requires BitsWritten(block, block', ValuesOff(specs, rows, c), rows, from, to, bits)
    ensures OnlyColumn(block, block', specs, rows, c, from, to, lo, hi)
    ensures forall r: nat :: from <= r < to ==>
              FrontOf(block', specs, rows, c, r) == FrontOf(block, specs, rows, c, r).(value := bits[r - from])
  {
    hide BitOf;
    var base := ValuesOff(specs, rows, c);
    assert ColumnStart(specs, rows, c + 1) == base + ValuesLen(specs[c].tag, rows);
    assert base + BitmapBytes(rows) <= ColumnStart(specs, rows, c + 1);
    hide ColumnStart, ValidityLen, ValuesLen, BitmapBytes;
    forall r: nat | r < rows
      ensures FrontOf(block', specs, rows, c, r)
              == FrontOf(block, specs, rows, c,
                         r).(value := if from <= r < to then bits[r - from] else BoolBit(block, specs, rows, c, r))
    {
      CellPlaces(specs, rows, c, r);
      BitSame(block, block', ValidityOff(specs, rows, c), r);
    }
    hide FrontOf;
    WithinColumn(block, block', specs, rows, c, from, to, lo, hi);
  }

  function Concat(slots: seq<seq<byte>>): seq<byte> {
    if slots == [] then [] else Concat(slots[..|slots| - 1]) + slots[|slots| - 1]
  }

  lemma {:induction false} ConcatLength(slots: seq<seq<byte>>, w: nat)
    requires forall i :: 0 <= i < |slots| ==> |slots[i]| == w
    ensures |Concat(slots)| == |slots| * w
  {
    if slots != [] {
      ConcatLength(slots[..|slots| - 1], w);
      assert |slots| * w == (|slots| - 1) * w + w;
    }
  }

  lemma {:induction false} ConcatAt(slots: seq<seq<byte>>, w: nat, k: nat)
    requires k < |slots| && forall i :: 0 <= i < |slots| ==> |slots[i]| == w
    ensures k * w + w <= |Concat(slots)| && Concat(slots)[k * w..k * w + w] == slots[k]
  {
    ConcatLength(slots, w);
    var front := slots[..|slots| - 1];
    ConcatLength(front, w);
    if k < |slots| - 1 {
      ConcatAt(front, w, k);
      assert Concat(slots)[k * w..k * w + w] == Concat(front)[k * w..k * w + w];
    } else {
      assert k * w + w == |Concat(slots)|;
    }
  }

  lemma Spread(w: nat, a: nat, b: nat)
    requires a <= b
    ensures b * w == a * w + (b - a) * w
  {
  }

  lemma SlotRun(specs: seq<ColumnSpec>, rows: nat, c: nat, from: nat, to: nat)
    requires c < |specs| && from <= to <= rows
    ensures ValuesOff(specs, rows, c) <= SlotStart(specs, rows, c, from) <= SlotStart(specs, rows, c, to)
    ensures SlotStart(specs, rows, c, to) == SlotStart(specs, rows, c, from) + (to - from) * RowWidth(specs[c].tag)
    ensures SlotStart(specs, rows, c, to) <= ColumnStart(specs, rows, c + 1) <= ColumnStart(specs, rows, |specs|)
  {
    hide RowWidth, ColumnStart, ValuesOff, ValidityOff;
    var w := RowWidth(specs[c].tag);
    Spread(w, from, to);
    if to > 0 {
      CellPlaces(specs, rows, c, to - 1);
      Spread(w, to - 1, to);
    } else {
      EmptyRun(specs, rows, c);
    }
  }

  lemma EmptyRun(specs: seq<ColumnSpec>, rows: nat, c: nat)
    requires c < |specs|
    ensures ValuesOff(specs, rows, c) <= ColumnStart(specs, rows, c + 1) <= ColumnStart(specs, rows, |specs|)
  {
    StartsGrow(specs, rows, c + 1, |specs|);
  }

  lemma SlotAt(specs: seq<ColumnSpec>, rows: nat, c: nat, from: nat, r: nat)
    requires c < |specs|
    ensures r >= from ==>
              SlotStart(specs, rows, c, r) == SlotStart(specs, rows, c, from) + (r - from) * RowWidth(specs[c].tag)
    ensures r < from ==> SlotEnd(specs, rows, c, r) <= SlotStart(specs, rows, c, from)
    ensures SlotEnd(specs, rows, c, r) == SlotStart(specs, rows, c, r) + RowWidth(specs[c].tag)
  {
    hide RowWidth, ColumnStart;
    var w := RowWidth(specs[c].tag);
    if r >= from { Spread(w, from, r); } else { Bits.MulApart(w, r, from); }
  }

  /** A run of slots copied at once. */
  lemma SlotsWritten(block: seq<byte>, specs: seq<ColumnSpec>, rows: nat, c: nat, from: nat, to: nat,
                     slots: seq<seq<byte>>, lo: nat, hi: nat)
    requires c < |specs| && Holds(block, specs, rows) && !specs[c].tag.Boolean? && from + |slots| == to <= rows
    requires forall i :: 0 <= i < |slots| ==> |slots[i]| == RowWidth(specs[c].tag)
    ensures SlotStart(specs, rows, c, from) + |Concat(slots)| <= |block|
    ensures var block' := Splice(block, SlotStart(specs, rows, c, from), Concat(slots));
            && OnlyColumn(block, block', specs, rows, c, from, to, lo, hi)
            && forall r: nat :: from <= r < to ==>
                FrontOf(block', specs, rows, c, r) == FrontOf(block, specs, rows, c, r).(slot := slots[r - from])
  {
    SlotRun(specs, rows, c, from, to);
    ConcatLength(slots, RowWidth(specs[c].tag));
    var block' := Splice(block, SlotStart(specs, rows, c, from), Concat(slots));
    hide ColumnStart;
    forall r: nat | r < rows
      ensures FrontOf(block', specs, rows, c, r)
              == FrontOf(block, specs, rows, c,
                         r).(slot := if from <= r < to then slots[r - from] else Slot(block, specs, rows, c, r))
    {
      OneSlot(block, specs, rows, c, from, to, slots, r);
    }
    hide FrontOf;
    if rows > 0 { CellPlaces(specs, rows, c, 0); }
    WithinColumn(block, block', specs, rows, c, from, to, lo, hi);
  }

  lemma OneSlot(block: seq<byte>, specs: seq<ColumnSpec>, rows: nat, c: nat, from: nat, to: nat,
                slots: seq<seq<byte>>, r: nat)
    requires c < |specs| && Holds(block, specs, rows) && !specs[c].tag.Boolean? && from + |slots| == to <= rows
             && r < rows
    requires forall i :: 0 <= i < |slots| ==> |slots[i]| == RowWidth(specs[c].tag)
    requires SlotStart(specs, rows, c, from) + |Concat(slots)| <= |block|
             && |Concat(slots)| == |slots| * RowWidth(specs[c].tag)
    ensures var block' := Splice(block, SlotStart(specs, rows, c, from), Concat(slots));
            FrontOf(block', specs, rows, c, r)
            == FrontOf(block, specs, rows, c,
                       r).(slot := if from <= r < to then slots[r - from] else Slot(block, specs, rows, c, r))
  {
    hide ColumnStart, RowWidth, Concat, SlotStart, ValuesOff, ValidityOff, SlotEnd, BitOf;
    var at, bytes := SlotStart(specs, rows, c, from), Concat(slots);
    var block' := Splice(block, at, bytes);
    CellPlaces(specs, rows, c, r);
    SlotRun(specs, rows, c, from, to);
    BitSame(block, block', ValidityOff(specs, rows, c), r);
    SlotBytes(block, specs, rows, c, from, to, slots, r);
  }

  lemma SlotBytes(block: seq<byte>, specs: seq<ColumnSpec>, rows: nat, c: nat, from: nat, to: nat,
                  slots: seq<seq<byte>>, r: nat)
    requires c < |specs| && Holds(block, specs, rows) && from + |slots| == to <= rows && r < rows
    requires forall i :: 0 <= i < |slots| ==> |slots[i]| == RowWidth(specs[c].tag)
    requires SlotStart(specs, rows, c, from) + |Concat(slots)| <= |block|
             && |Concat(slots)| == |slots| * RowWidth(specs[c].tag)
    ensures var block' := Splice(block, SlotStart(specs, rows, c, from), Concat(slots));
            Slot(block', specs, rows, c, r) == if from <= r < to then slots[r - from]
                else Slot(block, specs, rows, c, r)
  {
    hide ColumnStart, RowWidth, Concat, SlotStart, ValuesOff, ValidityOff, SlotEnd;
    var at, bytes := SlotStart(specs, rows, c, from), Concat(slots);
    CellPlaces(specs, rows, c, r);
    SlotAt(specs, rows, c, from, r);
    if from <= r < to {
      ConcatAt(slots, RowWidth(specs[c].tag), r - from);
      SpliceReads(block, at, bytes, (r - from) * RowWidth(specs[c].tag), RowWidth(specs[c].tag));
    } else {
      assert SlotEnd(specs, rows, c, r) <= at || at + |bytes| <= SlotStart(specs, rows, c, r) by {
        if r >= to {
          SlotRun(specs, rows, c, from, to);
          SlotsFollow(specs, rows, c, to, r);
        }
      }
      SpliceApart(block, at, bytes, SlotStart(specs, rows, c, r), SlotEnd(specs, rows, c, r));
    }
  }

  lemma SlotsFollow(specs: seq<ColumnSpec>, rows: nat, c: nat, to: nat, r: nat)
    requires c < |specs| && to <= r
    ensures SlotStart(specs, rows, c, to) <= SlotStart(specs, rows, c, r)
  {
    hide ColumnStart, RowWidth, ValuesOff;
    if to < r { Bits.MulApart(RowWidth(specs[c].tag), to, r); }
  }

  lemma SpliceReads(block: seq<byte>, at: nat, bytes: seq<byte>, off: nat, w: nat)
    requires at + |bytes| <= |block| && off + w <= |bytes|
    ensures Splice(block, at, bytes)[at + off..at + off + w] == bytes[off..off + w]
  {
  }
}
