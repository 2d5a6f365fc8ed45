/** The paging loop of a scan: rows from a stream onto page blocks, with retries on smaller pages. */
module PageSource {
  import opened Common
  import opened Bytes
  import opened ArrowLayout
  import opened ArrowBlock
  import opened RowCells
  import RowEncoder
  import RowEstimator

  type Row = seq<Cell>

  datatype SourceError =
    | Estimation(estimate: RowEstimator.EstimateError) | Layout(layout: LayoutError) | PayloadTooSmall | ZeroRows
    | RowFailed(row: RowEncoder.RowError) | BudgetExceeded | NoProgress | EmptySchemaFull

  datatype Filled = Page(payloadLen: nat) | Eof | Failed(error: SourceError)

  // ---- Which rows are due ------------------------------------------------------------------

  /** The rows a filter lets through, in order. Filters may change between rows, so they see the position too. */
  function Kept(keep: (nat, Row) -> bool, rows: seq<Row>): seq<Row> {
    if rows == [] then []
    else
      var last := |rows| - 1;
      Kept(keep, rows[..last]) + (if keep(last, rows[last]) then [rows[last]] else [])
  }

  lemma KeptNext(keep: (nat, Row) -> bool, rows: seq<Row>, pos: nat)
    requires pos < |rows|
    ensures Kept(keep, rows[..pos + 1]) == Kept(keep, rows[..pos]) + (if keep(pos, rows[pos]) then [rows[pos]] else [])
  {
    assert rows[..pos + 1][..pos] == rows[..pos];
  }

  function Waiting(pending: Option<Row>): seq<Row> {
    if pending.Some? then [pending.value] else []
  }

  /** What was due after the rows already consumed is what is due after the whole scan, further on. */
  lemma {:induction false} KeptPrefix(keep: (nat, Row) -> bool, rows: seq<Row>, pos: nat)
    requires pos <= |rows|
    ensures Kept(keep, rows[..pos]) <= Kept(keep, rows)
    decreases |rows| - pos
  {
    if pos < |rows| {
      KeptPrefix(keep, rows, pos + 1);
      KeptNext(keep, rows, pos);
    } else {
      assert rows[..pos] == rows;
    }
  }

  /** Every row has a cell for every column. */
  ghost predicate Wide(specs: seq<ColumnSpec>, rows: seq<Row>) {
    forall i :: 0 <= i < |rows| ==> |rows[i]| == |specs|
  }

  lemma {:induction false} KeptWide(keep: (nat, Row) -> bool, specs: seq<ColumnSpec>, rows: seq<Row>)
    requires Wide(specs, rows)
    ensures Wide(specs, Kept(keep, rows))
  {
    if rows != [] { KeptWide(keep, specs, rows[..|rows| - 1]); }
  }

  // ---- What a page makes of a row --------------------------------------------------------------

  /** Null counts of a page on which nothing has been written. */
  function NoneYet(n: nat): (counts: seq<nat>)
    ensures |counts| == n && forall c :: 0 <= c < n ==> counts[c] == 0
  {
    seq(n, _ => 0)
  }

  /** Null counts of a page that holds these rows. */
  ghost function NullCounts(specs: seq<ColumnSpec>, page: seq<Row>): (counts: seq<nat>)
    requires Wide(specs, page)
    ensures |counts| == |specs|
  {
    seq(|specs|, c requires 0 <= c < |specs| => RowEncoder.NullsIn(page, c))
  }

  /** What the rows of a page take from its tail. */
  function TailOf(page: seq<Row>): nat {
    if page == [] then 0 else TailOf(page[..|page| - 1]) + RowEncoder.LongBytes(page[|page| - 1])
  }

  lemma TailOfNext(page: seq<Row>, row: Row)
    ensures TailOf(page + [row]) == TailOf(page) + RowEncoder.LongBytes(row)
  {
    assert (page + [row])[..|page|] == page;
  }

  /** Where the tail of a page that holds these rows begins. */
  function Cursor(blockSize: nat, page: seq<Row>): nat {
    if TailOf(page) <= blockSize then blockSize - TailOf(page) else 0
  }

  /** What offering a row to a page of `size` row slots comes to, when the page already holds the rows of `page`. */
  ghost function OfferTo(specs: seq<ColumnSpec>, blockSize: nat, size: nat, page: seq<Row>, row: Row):
      RowEncoder.RowOutcome
    requires Wide(specs, page) && |row| == |specs|
  {
    if |page| >= size then RowEncoder.Full
    else RowEncoder.ScanRow(specs, NullCounts(specs, page), RowEstimator.PoolBase(specs, size), row, 0,
                            Cursor(blockSize, page))
  }

  /** How many of the rows that are due a page takes, once it has taken `n`. */
  ghost function Reach(specs: seq<ColumnSpec>, blockSize: nat, size: nat, due: seq<Row>, n: nat): (end: nat)
    requires Wide(specs, due) && n <= |due|
    ensures n <= end <= |due|
    decreases |due| - n
  {
    if n < |due| && OfferTo(specs, blockSize, size, due[..n], due[n]) == RowEncoder.Appended
    then Reach(specs, blockSize, size, due, n + 1)
    else n
  }

  /** A page takes its rows one after the other. */
  ghost predicate Takes(specs: seq<ColumnSpec>, blockSize: nat, size: nat, page: seq<Row>) {
    Wide(specs, page) && forall i :: 0 <= i < |page| ==>
      OfferTo(specs, blockSize, size, page[..i], page[i]) == RowEncoder.Appended
  }

  lemma TakesNext(specs: seq<ColumnSpec>, blockSize: nat, size: nat, page: seq<Row>, row: Row)
    requires Takes(specs, blockSize, size, page) && |row| == |specs|
    requires OfferTo(specs, blockSize, size, page, row) == RowEncoder.Appended
    ensures Takes(specs, blockSize, size, page + [row])
  {
    hide OfferTo;
    var more := page + [row];
    forall i | 0 <= i < |more| ensures OfferTo(specs, blockSize, size, more[..i], more[i]) == RowEncoder.Appended {
      if i < |page| { assert more[..i] == page[..i]; } else { assert more[..i] == page; }
    }
  }

  /** Rows that a page has taken are part of its reach. */
  lemma {:induction false} TakesReach(specs: seq<ColumnSpec>, blockSize: nat, size: nat, due: seq<Row>, n: nat,
                                      from: nat)
    requires from <= n <= |due| && Wide(specs, due) && Takes(specs, blockSize, size, due[..n])
    ensures Reach(specs, blockSize, size, due, from) == Reach(specs, blockSize, size, due, n)
    decreases n - from
  {
    hide OfferTo;
    if from < n {
      assert due[..n][..from] == due[..from];
      TakesReach(specs, blockSize, size, due, n, from + 1);
    }
  }

  /** A row that fills even a page of its own. */
  ghost predicate TooLargeAlone(specs: seq<ColumnSpec>, blockSize: nat, row: Row) {
    |row| == |specs| && OfferTo(specs, blockSize, 1, [], row) == RowEncoder.Full
  }

  /** Less room below the tail never lets a row through that was turned away. */
  lemma {:induction false} FullGrows(specs: seq<ColumnSpec>, counts: seq<nat>, a: nat, b: nat, row: Row, c: nat,
                                     cursor: nat)
    requires |counts| == |row| == |specs| && c <= |specs| && a <= b
    requires RowEncoder.ScanRow(specs, counts, a, row, c, cursor) == RowEncoder.Full
    ensures RowEncoder.ScanRow(specs, counts, b, row, c, cursor) == RowEncoder.Full
    decreases |specs| - c
  {
    var w := RowEncoder.WriteOutcome(specs[c], counts[c], a, cursor, row[c]);
    if w.CellWritten? { FullGrows(specs, counts, a, b, row, c + 1, w.cursor); }
  }

  /** A row that a blank page of one slot turns away is turned away by every blank page. */
  lemma BlankRefuses(specs: seq<ColumnSpec>, blockSize: nat, row: Row, size: nat)
    requires TooLargeAlone(specs, blockSize, row)
    ensures OfferTo(specs, blockSize, size, [], row) == RowEncoder.Full
  {
    hide ColumnStart, RowEncoder.ScanRow;
    if size > 0 {
      RowEstimator.StartMonotone(specs, 1, size, |specs|);
      var (one, all) := (RowEstimator.PoolBase(specs, 1), RowEstimator.PoolBase(specs, size));
      FullGrows(specs, NullCounts(specs, []), one, all, row, 0, blockSize);
    }
  }

  /** Without variable width columns nothing is allocated in the tail, so no row is turned away for room. */
  lemma {:induction false} FixedNeverFull(specs: seq<ColumnSpec>, counts: seq<nat>, poolBase: nat, cells: Row, c: nat,
                                          cursor: nat)
    requires |counts| == |cells| == |specs| && c <= |specs| && forall s :: s in specs ==> !IsView(s.tag)
    ensures RowEncoder.ScanRow(specs, counts, poolBase, cells, c, cursor) != RowEncoder.Full
    decreases |specs| - c
  {
    if c < |specs| { FixedNeverFull(specs, counts, poolBase, cells, c + 1, cursor); }
  }

  /** Bytes past the block are no part of it. */
  lemma LaidOutPrefix(block: seq<byte>, h: BlockHeader, specs: seq<ColumnSpec>)
    requires LaidOut(block, h, specs) && HeaderAt(block) == h && DescOffset(|specs|) <= h.blockSize
    ensures LaidOut(block[..h.blockSize], h, specs) && HeaderAt(block[..h.blockSize]) == h
            && Opens(block[..h.blockSize])
  {
    hide ColumnStart, DescPlanned, DecodeHeader, DecodeDesc;
    var b := block[..h.blockSize];
    assert b[..HEADER_LEN] == block[..HEADER_LEN];
    forall i: nat | i < |specs| ensures DescAt(b, i) == DescAt(block, i) {
      assert b[DescOffset(i)..DescOffset(i) + DESC_LEN] == block[DescOffset(i)..DescOffset(i) + DESC_LEN];
    }
    assert LaidOut(b, h, specs);
  }

  /** A page that opens and reads back exactly these rows. */
  ghost predicate PageHolds(block: seq<byte>, blockSize: nat, specs: seq<ColumnSpec>, rows: seq<Row>) {
    && Opens(block) && HeaderAt(block).blockSize == blockSize && HeaderAt(block).rowCount == |rows|
    && exists done: RowEncoder.Committed ::
         && done.base == 0 && done.nullBase == NoneYet(|specs|) && done.rows == rows
         && RowEncoder.EncoderOk(block, HeaderAt(block), specs, done)
  }

  /** The importer takes the page: its null counts and its views check out in every column. */
  ghost predicate Imports(block: seq<byte>, specs: seq<ColumnSpec>) {
    |block| >= HEADER_LEN &&
    var h := HeaderAt(block);
    && Holds(block, specs, h.maxRows) && DescOffset(|specs|) <= |block| && h.rowCount <= h.maxRows
    && h.poolBase <= h.tailCursor <= h.blockSize && RowEncoder.Importable(block, h, specs)
  }

  lemma PageImports(block: seq<byte>, blockSize: nat, specs: seq<ColumnSpec>, rows: seq<Row>)
    requires PageHolds(block, blockSize, specs, rows)
    ensures Imports(block, specs)
  {
    hide RowEncoder.EncoderOk, RowEncoder.Importable;
    var h := HeaderAt(block);
    var done: RowEncoder.Committed :|
      done.base == 0 && done.nullBase == NoneYet(|specs|) && done.rows == rows
          && RowEncoder.EncoderOk(block, h, specs, done);
    RowEncoder.ImportableExactly(block, h, specs, done);
  }

  // ---- Why a row fails ------------------------------------------------------------------------------

  /** What is wrong with a cell that fails, when the cells before it leave the tail at `cursor`. */
  ghost predicate Faulty(spec: ColumnSpec, poolBase: nat, cursor: nat, cell: Cell, error: RowEncoder.RowError) {
    match error
    case NullInNonNullableColumn => cell.NullCell? && !spec.nullable
    case TypeMismatch => !cell.NullCell? && RowEncoder.CellTypeError(spec.tag, cell) == Some(error)
    case InvalidUuidWidth => !cell.NullCell? && RowEncoder.CellTypeError(spec.tag, cell) == Some(error)
    case RowValueTooLarge => Matches(spec.tag, cell) && IsLong(cell) && |cell.bytes| > I32_MAX
    case CountOverflow => false
    case TailOverflow => RowEncoder.Overlong(spec, cell, cursor)
    case OffsetTooLarge =>
      && Matches(spec.tag, cell) && IsLong(cell) && |cell.bytes| <= I32_MAX
      && poolBase + |cell.bytes| + I32_MAX < cursor
  }

  lemma FaultyExactly(spec: ColumnSpec, nullCount: nat, poolBase: nat, cursor: nat, cell: Cell,
                      error: RowEncoder.RowError)
    requires nullCount < U32_MAX
    ensures RowEncoder.WriteOutcome(spec, nullCount, poolBase, cursor, cell) == RowEncoder.CellFailed(error) <==>
              Faulty(spec, poolBase, cursor, cell, error)
  {
  }

  /**
   * A row fails on a page exactly if the page has a slot left and the first cell that is not written is at fault, with
   * the tail where the rows of the page and the row's earlier cells leave it.
   */
  lemma FailsForACell(specs: seq<ColumnSpec>, blockSize: nat, size: nat, page: seq<Row>, row: Row,
                      error: RowEncoder.RowError) returns (stop: nat)
    requires Wide(specs, page) && |row| == |specs| && size <= U32_MAX
    ensures stop <= |specs| && RowEncoder.LongBytes(row[..stop]) <= Cursor(blockSize, page)
    ensures stop == RowEncoder.StopsAt(specs, NullCounts(specs, page), RowEstimator.PoolBase(specs, size), row, 0,
                                       Cursor(blockSize, page))
    ensures OfferTo(specs, blockSize, size, page, row) == RowEncoder.Failed(error) <==>
              && |page| < size && stop < |specs|
              && Faulty(specs[stop], RowEstimator.PoolBase(specs, size),
                        Cursor(blockSize, page) - RowEncoder.LongBytes(row[..stop]), row[stop], error)
  {
    hide RowEncoder.ScanRow, RowEncoder.StopsAt, RowEncoder.WriteOutcome, Faulty, Cursor, ColumnStart;
    var (counts, poolBase, cursor) :=
      (NullCounts(specs, page), RowEstimator.PoolBase(specs, size), Cursor(blockSize, page));
    stop := RowEncoder.StopsAt(specs, counts, poolBase, row, 0, cursor);
    RowEncoder.StopsWith(specs, counts, poolBase, row, 0, cursor, cursor);
    if |page| < size && stop < |specs| {
      RowEncoder.NullsWithin(page, stop);
      FaultyExactly(specs[stop], counts[stop], poolBase, cursor - RowEncoder.LongBytes(row[..stop]), row[stop], error);
    }
  }

  /** A long value of the right type that fits below the tail, but not above the pool base. */
  predicate Squeezed(spec: ColumnSpec, poolBase: nat, cursor: nat, cell: Cell) {
    && Matches(spec.tag, cell) && IsLong(cell) && |cell.bytes| <= I32_MAX
    && |cell.bytes| <= cursor < poolBase + |cell.bytes|
  }

  /**
   * A row is turned away by a page exactly if its slots are used up or the first cell not written would reach below the
   * pool base; it is taken exactly if every cell is written.
   */
  lemma TurnedAwayExactly(specs: seq<ColumnSpec>, blockSize: nat, size: nat, page: seq<Row>, row: Row)
      returns (stop: nat)
    requires Wide(specs, page) && |row| == |specs|
    ensures stop <= |specs| && RowEncoder.LongBytes(row[..stop]) <= Cursor(blockSize, page)
    ensures stop == RowEncoder.StopsAt(specs, NullCounts(specs, page), RowEstimator.PoolBase(specs, size), row, 0,
                                       Cursor(blockSize, page))
    ensures OfferTo(specs, blockSize, size, page, row) == RowEncoder.Full <==>
              || |page| >= size
              || (stop < |specs|
                  && Squeezed(specs[stop], RowEstimator.PoolBase(specs, size),
                              Cursor(blockSize, page) - RowEncoder.LongBytes(row[..stop]), row[stop]))
    ensures OfferTo(specs, blockSize, size, page, row) == RowEncoder.Appended <==> |page| < size && stop == |specs|
  {
    hide RowEncoder.ScanRow, RowEncoder.StopsAt, Cursor, ColumnStart;
    var (counts, poolBase, cursor) :=
      (NullCounts(specs, page), RowEstimator.PoolBase(specs, size), Cursor(blockSize, page));
    stop := RowEncoder.StopsAt(specs, counts, poolBase, row, 0, cursor);
    RowEncoder.StopsWith(specs, counts, poolBase, row, 0, cursor, cursor);
  }

  /** One string column, and a row of it. */
  const TEXTS := [ColumnSpec(Utf8View, false)]

  function TextRow(n: nat): Row { [Utf8Cell(seq(n, _ => 0))] }

  lemma TextOffered(blockSize: nat, size: nat, page: seq<Row>, n: nat)
    requires Wide(TEXTS, page) && |page| < size && INLINE_LEN < n <= I32_MAX && blockSize <= I32_MAX
    ensures OfferTo(TEXTS, blockSize, size, page, TextRow(n))
            == if n > Cursor(blockSize, page) then RowEncoder.Failed(RowEncoder.TailOverflow)
               else if Cursor(blockSize, page) - n < RowEstimator.PoolBase(TEXTS, size) then RowEncoder.Full
               else RowEncoder.Appended
    ensures RowEncoder.LongBytes(TextRow(n)) == n
  {
    hide ColumnStart, TailOf, NullCounts;
    assert TextRow(n)[..0] == [];
    var (counts, poolBase, cursor) :=
      (NullCounts(TEXTS, page), RowEstimator.PoolBase(TEXTS, size), Cursor(blockSize, page));
    assert RowEncoder.WriteOutcome(TEXTS[0], counts[0], poolBase, cursor, TextRow(n)[0])
           == RowEncoder.TailOutcome(poolBase, cursor, n);
    if n <= cursor {
      assert RowEncoder.ScanRow(TEXTS, counts, poolBase, TextRow(n), 1, cursor - n) == RowEncoder.Appended;
    }
  }

  /**
   * A row that overflows the tail does not wait for the next page: on 64 KiB pages of one string column each of these
   * rows fits a page of its own, but the second one fails on any page that has taken the first.
   */
  lemma TwoRowScan(size: nat)
    requires 2 <= size && RowEstimator.PoolBase(TEXTS, size) <= 25536
    ensures var due := [TextRow(40000), TextRow(30000)];
            && OfferTo(TEXTS, 65536, 1, [], due[0]) == OfferTo(TEXTS, 65536, 1, [], due[1]) == RowEncoder.Appended
            && Reach(TEXTS, 65536, size, due, 0) == 1
            && OfferTo(TEXTS, 65536, size, due[..1], due[1]) == RowEncoder.Failed(RowEncoder.TailOverflow)
  {
    hide OfferTo, ColumnStart, RowEncoder.LongBytes;
    var (first, second) := (TextRow(40000), TextRow(30000));
    RowEstimator.StartMonotone(TEXTS, 1, size, 1);
    TextOffered(65536, 1, [], 40000);
    TextOffered(65536, 1, [], 30000);
    TextOffered(65536, size, [], 40000);
    TextOffered(65536, size, [first], 30000);
    assert [first] == [] + [first];
    TailOfNext([], first);
    var due := [first, second];
    assert due[..0] == [] && due[..1] == [first];
  }

  // ---- The page source --------------------------------------------------------------------------

  class Source {
    const specs: seq<ColumnSpec>
    const blockSize: nat
    const fetchBatch: nat
    const rows: seq<Row>            // what the scan session will deliver
    const capped: bool              // whether the session ends at its own row limit rather than at the portal's end
    const keep: (nat, Row) -> bool  // the runtime filters, by position and row
    const singleRowDrains: bool
    const estimator: RowEstimator.Estimator?
    var pos: nat                    // rows consumed so far
    var pending: Option<Row>        // a consumed row that did not fit its page
    ghost var emitted: seq<Row>     // rows on the pages returned so far

    /** The estimator, if there is one. */
    ghost function Own(): set<RowEstimator.Estimator> { if estimator == null then {} else {estimator} }

    ghost predicate Shape()
      reads this, estimator
    {
      && |specs| <= U16_MAX && blockSize <= U32_MAX && 0 < fetchBatch <= U32_MAX && pos <= |rows|
      && Wide(specs, rows) && (pending.Some? ==> |pending.value| == |specs|)
      && (estimator == null <==> specs == [])
      && (estimator != null ==> estimator.Valid() && estimator.specs == specs && estimator.blockSize == blockSize)
      && (singleRowDrains <==> estimator != null && estimator.hasVariableWidth)
    }

    /** Every consumed row that passes the filters is on a page or waiting, in order. */
    ghost predicate Valid()
      reads this, estimator
    {
      Shape() && emitted + Waiting(pending) == Kept(keep, rows[..pos])
    }

    /** A page under construction with `size` row slots, and what has gone onto it. */
    ghost predicate OnPage(h: BlockHeader, done: RowEncoder.Committed, size: nat) {
      && done.base == 0 && done.nullBase == NoneYet(|specs|)
      && h.rowCount == |done.rows| <= h.maxRows == size <= U32_MAX
      && h.blockSize == blockSize && h.poolBase == RowEstimator.PoolBase(specs, size)
      && h.tailCursor + TailOf(done.rows) == blockSize && Takes(specs, blockSize, size, done.rows)
    }

    /** The same as `Valid`, with the rows of the page under construction in between. */
    ghost predicate Filling(encoder: RowEncoder.Encoder, payload: array<byte>, size: nat)
      reads this, estimator, encoder, payload, encoder.payload
    {
      && Shape() && encoder.payload == payload && encoder.Valid() && encoder.specs == specs
      && OnPage(encoder.header, encoder.done, size)
      && emitted + encoder.done.rows + Waiting(pending) == Kept(keep, rows[..pos])
    }

    /** The rows that pass the filters and are not on the pages of `before`. */
    ghost function Due(before: seq<Row>): seq<Row> {
      if |before| <= |Kept(keep, rows)| then Kept(keep, rows)[|before|..] else []
    }

    lemma DueWide(before: seq<Row>)
      requires Shape()
      ensures Wide(specs, Due(before))
    {
      KeptWide(keep, specs, rows);
    }

    /** The rows on the page are the first ones due, the row waiting is the next, and the page reaches that far. */
    lemma DueIs(page: seq<Row>, size: nat, waiting: Option<Row>)
      requires Shape() && Takes(specs, blockSize, size, page)
      requires emitted + page + Waiting(waiting) == Kept(keep, rows[..pos])
      ensures var due := Due(emitted);
              && Wide(specs, due) && |page| + |Waiting(waiting)| <= |due| && page == due[..|page|]
              && Reach(specs, blockSize, size, due, 0) == Reach(specs, blockSize, size, due, |page|)
              && (waiting.Some? ==> due[|page|] == waiting.value && due[..|page| + 1] == page + [waiting.value])
              && (pos == |rows| && waiting.None? ==> |due| == |page|)
    {
      hide Kept, Reach, Takes, OfferTo;
      DueWide(emitted);
      KeptPrefix(keep, rows, pos);
      if pos == |rows| { assert rows[..pos] == rows; }
      var due, all := Due(emitted), Kept(keep, rows[..pos]);
      assert all[|emitted|..] == page + Waiting(waiting);
      assert Kept(keep, rows)[|emitted|..|all|] == page + Waiting(waiting);
      assert page == due[..|page|];
      TakesReach(specs, blockSize, size, due, |page|, 0);
    }

    /** A page of this size that holds the first `n` rows due turns the next one away. */
    ghost predicate TurnsAway(size: nat, due: seq<Row>, n: nat)
      requires Wide(specs, due)
    {
      n < |due| && OfferTo(specs, blockSize, size, due[..n], due[n]) == RowEncoder.Full
    }

    /** The first row due that a page of this size does not take fails on it. */
    ghost predicate Stops(size: nat, due: seq<Row>, error: RowEncoder.RowError)
      requires Wide(specs, due)
    {
      var n := Reach(specs, blockSize, size, due, 0);
      n < |due| && OfferTo(specs, blockSize, size, due[..n], due[n]) == RowEncoder.Failed(error)
    }

    /** The scan has stopped at that row. */
    ghost predicate Stopped(size: nat, error: RowEncoder.RowError)
      reads this
    {
      var due := Due(emitted);
      && pos <= |rows| && Wide(specs, due) && Stops(size, due, error)
      && Kept(keep, rows[..pos]) == emitted + due[..Reach(specs, blockSize, size, due, 0) + 1]
    }

    lemma StopsHere(page: seq<Row>, size: nat, row: Row, error: RowEncoder.RowError)
      requires Shape() && Takes(specs, blockSize, size, page) && |row| == |specs|
      requires emitted + page + [row] == Kept(keep, rows[..pos])
      requires OfferTo(specs, blockSize, size, page, row) == RowEncoder.Failed(error)
      ensures Stopped(size, error)
    {
      hide Kept, Takes, OfferTo;
      DueIs(page, size, Some(row));
      assert emitted + (page + [row]) == emitted + page + [row];
    }

    constructor (specs: seq<ColumnSpec>, blockSize: nat, fetchBatch: nat, rows: seq<Row>, capped: bool,
                 keep: (nat, Row) -> bool,
                 estimator: RowEstimator.Estimator?)
      requires |specs| <= U16_MAX && blockSize <= U32_MAX && 0 < fetchBatch <= U32_MAX
      requires Wide(specs, rows)
      requires estimator == null <==> specs == []
      requires estimator != null ==> estimator.Valid() && estimator.specs == specs && estimator.blockSize == blockSize
      ensures Valid() && emitted == [] && pending == None && pos == 0
      ensures this.specs == specs && this.blockSize == blockSize && this.fetchBatch == fetchBatch && this.rows == rows
              && this.capped == capped && this.keep == keep && this.estimator == estimator
    {
      this.specs, this.blockSize, this.fetchBatch, this.rows := specs, blockSize, fetchBatch, rows;
      this.capped, this.keep, this.estimator := capped, keep, estimator;
      this.singleRowDrains := estimator != null && estimator.hasVariableWidth;
      pos, pending, emitted := 0, None, [];
    }

    /** One row goes through to the page, with the encoder's verdict. */
    method Offer(row: Row, encoder: RowEncoder.Encoder, payload: array<byte>, ghost size: nat)
        returns (status: RowEncoder.RowOutcome)
      requires encoder.payload == payload && encoder.Valid() && encoder.specs == specs && |row| == |specs|
      requires OnPage(encoder.header, encoder.done, size)
      modifies payload, encoder`header, encoder`done
      ensures Wide(specs, old(encoder.done.rows))
              && status == OfferTo(specs, blockSize, size, old(encoder.done.rows), row)
      ensures !status.Failed? ==> encoder.Valid() && OnPage(encoder.header, encoder.done, size)
      ensures status.Appended? ==> encoder.done.rows == old(encoder.done.rows) + [row]
      ensures status.Full? ==> encoder.header == old(encoder.header) && encoder.done == old(encoder.done)
    {
      hide RowEncoder.EncoderOk, RowEncoder.ScanRow, RowEncoder.Counts, OnPage, OfferTo;
      ghost var h, done := encoder.header, encoder.done;
      OfferIs(payload[..], h, done, size, row);
      status := encoder.AppendRow(row);
      if status.Appended? {
        RowEncoder.EncoderLaid(payload[..], encoder.header, specs, encoder.done);
        PageTakes(h, done, encoder.header, encoder.done, size, row);
      }
    }

    /** The encoder sees of the page what its rows leave there. */
    lemma OfferIs(block: seq<byte>, h: BlockHeader, done: RowEncoder.Committed, size: nat, row: Row)
      requires RowEncoder.EncoderOk(block, h, specs, done) && OnPage(h, done, size) && |row| == |specs|
      ensures Wide(specs, done.rows) && DescOffset(|specs|) <= |block|
      ensures OfferTo(specs, blockSize, size, done.rows, row)
              == if h.rowCount >= h.maxRows then RowEncoder.Full
                 else RowEncoder.ScanRow(specs, RowEncoder.Counts(block, specs), h.poolBase, row, 0, h.tailCursor)
    {
      hide RowEncoder.EncoderOk, RowEncoder.ScanRow, RowEncoder.Counts, NullCounts, Takes, ColumnStart, TailOf, Wide;
      CountsKnown(block, h, specs, done);
    }

    lemma PageTakes(h: BlockHeader, done: RowEncoder.Committed, h': BlockHeader, done': RowEncoder.Committed, size: nat,
                    row: Row)
      requires OnPage(h, done, size) && Wide(specs, done.rows) && |row| == |specs|
      requires OfferTo(specs, blockSize, size, done.rows, row) == RowEncoder.Appended
      requires done'.rows == done.rows + [row] && done'.base == done.base && done'.nullBase == done.nullBase
      requires h' == h.(tailCursor := h'.tailCursor, rowCount := h'.rowCount)
               && h'.rowCount == done'.base + |done'.rows|
               && h'.tailCursor + RowEncoder.LongBytes(row) == h.tailCursor
      ensures OnPage(h', done', size)
    {
      hide RowEncoder.ScanRow, RowEncoder.LongBytes, NullCounts, Takes, ColumnStart, TailOf, Cursor;
      TailOfNext(done.rows, row);
      TakesNext(specs, blockSize, size, done.rows, row);
    }

    lemma CountsKnown(block: seq<byte>, h: BlockHeader, specs: seq<ColumnSpec>, done: RowEncoder.Committed)
      requires RowEncoder.EncoderOk(block, h, specs, done) && done.nullBase == NoneYet(|specs|)
      ensures Wide(specs, done.rows) && DescOffset(|specs|) <= |block|
              && RowEncoder.Counts(block, specs) == NullCounts(specs, done.rows)
    {
      hide RowEncoder.AllRead, RowEncoder.PayloadsApart, Holds;
      assert RowEncoder.CountsFit(block, specs, done);
    }

    // ---- One page -----------------------------------------------------------------------------

    /** Only a page of variable width columns turns a row away before its slots are used up. */
    lemma RefusesForRoom(size: nat, page: seq<Row>, row: Row)
      requires Shape() && Wide(specs, page) && |row| == |specs| && |page| < size
      requires OfferTo(specs, blockSize, size, page, row) == RowEncoder.Full
      ensures singleRowDrains
    {
      if !singleRowDrains {
        FixedNeverFull(specs, NullCounts(specs, page), RowEstimator.PoolBase(specs, size), row, 0,
                       Cursor(blockSize, page));
      }
    }

    /** Without columns only the front of the block has to fit. */
    ghost predicate SmallBlock(error: SourceError) {
      error == Layout(LayoutDoesNotFit(FrontBase(0))) && specs == [] && blockSize < FrontBase(0)
    }

    method Begin(attempted: nat, payload: array<byte>)
        returns (failure: Option<SourceError>, encoder: RowEncoder.Encoder?)
      requires Shape() && 0 < attempted <= U32_MAX && (estimator != null ==> attempted <= estimator.fixedRowCap)
      modifies payload
      ensures failure.Some? ==>
                (failure == Some(PayloadTooSmall) && payload.Length < blockSize) || SmallBlock(failure.value)
      ensures failure.None? ==>
                encoder != null && fresh(encoder) && encoder.payload == payload && encoder.Valid()
                    && encoder.specs == specs
      ensures failure.None? ==> OnPage(encoder.header, encoder.done, attempted) && encoder.done.rows == []
    {
      hide ColumnStart, LaidOut, IsPlan, RowEncoder.EncoderOk;
      encoder := null;
      if estimator != null { RowEstimator.PlanBelowCap(specs, blockSize, estimator.fixedRowCap, attempted); }
      var plan := NewPlan(specs, attempted, blockSize);
      if plan.Err? {
        if specs == [] { StartsAtFront(specs, attempted); }
        return Some(Layout(plan.error)), null;
      }
      var ok := InitBlock(payload, plan.value, specs);
      if !ok { return Some(PayloadTooSmall), null; }
      encoder := new RowEncoder.Encoder(payload);
      failure := None;
      RowEncoder.EncoderLaid(payload[..], encoder.header, encoder.specs, encoder.done);
      RowEncoder.SameSpecs(payload[..], encoder.header, encoder.specs, specs);
      PlanFacts(plan.value, specs);
      assert encoder.done.nullBase == NoneYet(|specs|);
    }

    /** One row of the session goes through the filters to the page, or waits because the page is full. */
    method Take(budget: nat, encoder: RowEncoder.Encoder, payload: array<byte>, ghost size: nat)
        returns (failure: Option<SourceError>, appended: nat)
      requires Filling(encoder, payload, size) && pending.None? && pos < |rows| && |encoder.done.rows| < size
      requires singleRowDrains ==> budget == 1
      modifies this`pos, this`pending, payload, encoder`header, encoder`done
      ensures pos == old(pos) + 1 <= |rows| && appended <= 1
      ensures Fate(old(encoder.done.rows), size, failure, appended)
      ensures failure.Some? ==> Stopped(size, failure.value.row)
      ensures failure.None? ==> Filling(encoder, payload, size)
      ensures failure.None? ==>
                encoder.done.rows
                == if appended == 1 then old(encoder.done.rows) + [rows[pos - 1]] else old(encoder.done.rows)
    {
      hide RowEncoder.EncoderOk, RowEncoder.Encoder.Valid, Kept, OnPage, OfferTo, Stopped;
      failure, appended := None, 0;
      var row := rows[pos];
      KeptNext(keep, rows, pos);
      ghost var before := encoder.done.rows;
      OnPageTakes(encoder.header, encoder.done, size);
      pos := pos + 1;
      if keep(pos - 1, row) {
        var status := Offer(row, encoder, payload, size);
        match status
        case Appended =>
          appended := 1;
          assert emitted + (before + [row]) == emitted + before + [row];
        case Full =>
          RefusesForRoom(size, before, row);
          if budget != 1 {
            failure := Some(BudgetExceeded);
            return;
          }
          pending := Some(row);
        case Failed(error) =>
          StopsHere(before, size, row, error);
          failure := Some(RowFailed(error));
      }
    }

    lemma OnPageTakes(h: BlockHeader, done: RowEncoder.Committed, size: nat)
      requires OnPage(h, done, size)
      ensures Takes(specs, blockSize, size, done.rows) && Wide(specs, done.rows)
    {
    }

    /** What becomes of the row just consumed, when the page held the rows of `page`. */
    ghost predicate Fate(page: seq<Row>, size: nat, failure: Option<SourceError>, appended: nat)
      reads this
    {
      && 0 < pos <= |rows| && Wide(specs, page) && |rows[pos - 1]| == |specs|
      && var row := rows[pos - 1];
         var outcome := OfferTo(specs, blockSize, size, page, row);
         && (failure.None? || failure.value.RowFailed?)
         && (forall e :: failure == Some(RowFailed(e)) <==> keep(pos - 1, row) && outcome == RowEncoder.Failed(e))
         && (appended == 1 <==> keep(pos - 1, row) && outcome == RowEncoder.Appended)
         && (pending == Some(row) <==> keep(pos - 1, row) && outcome == RowEncoder.Full)
         && (pending.Some? ==> pending == Some(row) && singleRowDrains)
    }

    /**
     * One drain of the session, of up to `budget` rows. A row that does not fit fails the scan when the budget was
     * more than that row, but pages that can turn a row away are never given such a budget.
     */
    method Drain(budget: nat, encoder: RowEncoder.Encoder, payload: array<byte>, ghost size: nat)
        returns (failure: Option<SourceError>, eof: bool, consumed: nat, appended: nat)
      requires Filling(encoder, payload, size) && pending.None?
      requires 0 < budget <= size - |encoder.done.rows| && (singleRowDrains ==> budget == 1)
      modifies this`pos, this`pending, payload, encoder`header, encoder`done
      ensures failure.Some? ==> failure.value.RowFailed? && Stopped(size, failure.value.row)
      ensures failure.None? ==> Filling(encoder, payload, size)
      ensures failure.None? ==>
                |encoder.done.rows| == |old(encoder.done.rows)| + appended && appended <= consumed <= budget
      ensures failure.None? && pending.Some? ==>
                && singleRowDrains && |pending.value| == |specs| && Wide(specs, encoder.done.rows)
                && OfferTo(specs, blockSize, size, encoder.done.rows, pending.value) == RowEncoder.Full
      ensures failure.None? ==> pos == old(pos) + consumed && (eof ==> pos == |rows|) && (consumed == 0 ==> eof)
    {
      hide Filling, OfferTo, Stopped;
      FillingShape(encoder, payload, size);
      failure, eof, consumed, appended := None, false, 0, 0;
      var left := |rows| - pos;
      if left == 0 && capped { return None, true, 0, 0; }
      var fetch := if fetchBatch < budget then fetchBatch else budget;
      if capped && left < fetch { fetch := left; }
      var available := if left < fetch then left else fetch;
      while consumed < available
        invariant consumed <= available && pos == old(pos) + consumed <= |rows| && appended <= consumed
        invariant Filling(encoder, payload, size) && Wide(specs, encoder.done.rows)
        invariant |encoder.done.rows| == |old(encoder.done.rows)| + appended
        invariant pending.Some? ==>
                    && singleRowDrains && consumed == 1 && |pending.value| == |specs|
                    && OfferTo(specs, blockSize, size, encoder.done.rows, pending.value) == RowEncoder.Full
      {
        var stopped, taken := Take(budget, encoder, payload, size);
        if stopped.Some? { return stopped, false, consumed, appended; }
        consumed, appended := consumed + 1, appended + taken;
        FillingShape(encoder, payload, size);
      }
      eof := available < fetch || (capped && pos == |rows|);
    }

    lemma FillingShape(encoder: RowEncoder.Encoder, payload: array<byte>, size: nat)
      requires Filling(encoder, payload, size)
      ensures Shape() && |encoder.done.rows| == encoder.header.rowCount && Wide(specs, encoder.done.rows)
    {
    }

    /** Rows and tail bytes the estimator has counted. */
    ghost function Seen(): (nat, nat)
      reads this, estimator
    {
      if estimator == null then (0, 0) else (estimator.observedRows, estimator.observedTail)
    }

    /** The finished page in the payload overflows the estimator's 64-bit counters. */
    ghost predicate CountersFull(payload: array<byte>, seen: (nat, nat))
      reads payload
    {
      payload.Length >= HEADER_LEN && RowEstimator.Estimator.Overflowed(seen.0, seen.1, HeaderAt(payload[..]))
    }

    /** The page is closed and handed over, and the estimator learns from it. */
    method Finish(encoder: RowEncoder.Encoder, payload: array<byte>, ghost size: nat) returns (r: Filled)
      requires Filling(encoder, payload, size)
      modifies this`emitted, payload, Own()`observedRows, Own()`observedTail, Own()`backoff
      ensures r == Page(blockSize) || (r == Failed(Estimation(RowEstimator.ObservationOverflow)) && estimator != null
                && CountersFull(payload, old(Seen())))
      ensures r.Page? ==> Valid() && emitted == old(emitted) + old(encoder.done.rows)
      ensures r.Page? ==> PageHolds(payload[..], blockSize, specs, old(encoder.done.rows))
      ensures r.Failed? ==> emitted == old(emitted)
    {
      hide RowEncoder.EncoderOk, Kept, LaidOut, Opens, Takes;
      var rowCount, payloadLen := encoder.Finish();
      RowEncoder.EncoderLaid(payload[..], encoder.header, specs, encoder.done);
      assert PageHolds(payload[..], blockSize, specs, encoder.done.rows);
      if estimator != null {
        FrontInside(payload[..], encoder.header, specs);
        LaidOutPrefix(payload[..], encoder.header, specs);
        var observed := estimator.ObserveEncodedBlock(payload[..payloadLen]);
        if observed.Bad? { return Failed(Estimation(observed.error)); }
      }
      emitted := emitted + encoder.done.rows;
      r := Page(payloadLen);
    }

    /** The tail bytes to expect of rows, as a ratio. */
    ghost function Ratio(): (r: (nat, nat))
      reads this, estimator
      ensures r.1 > 0
    {
      if estimator == null then (0, 1) else estimator.Ratio()
    }

    /** The cap on the next page's row slots. */
    ghost function Cap(): nat
      reads this, estimator
    {
      if estimator == null then 0 else estimator.Cap()
    }

    /** The row slots of the next page. */
    ghost function Slots(ratio: (nat, nat), cap: nat): nat
      requires ratio.1 > 0
    {
      if estimator == null then fetchBatch
      else if !estimator.hasVariableWidth then estimator.fixedRowCap
      else
        var best := RowEstimator.BestRows(specs, blockSize, ratio, cap);
        if best == 0 then 1 else best
    }

    /** The row slots settled on: while a blank page turns the first row due away, the cap is halved. */
    ghost function Settled(ratio: (nat, nat), cap: nat, due: seq<Row>): nat
      requires ratio.1 > 0 && Wide(specs, due)
      decreases cap
    {
      var size := Slots(ratio, cap);
      if singleRowDrains && 1 < size <= cap && TurnsAway(size, due, 0) then Settled(ratio, (size + 1) / 2, due)
      else size
    }

    lemma SlotsEstimated(size: nat, best: nat)
      requires Shape() && estimator != null
      requires !estimator.hasVariableWidth ==> size == estimator.fixedRowCap
      requires estimator.hasVariableWidth ==>
                 && RowEstimator.IsEstimate(specs, blockSize, Ratio().0, Ratio().1, Cap(), best)
                 && size == if best == 0 then 1 else best
      ensures size == Slots(Ratio(), Cap())
    {
      hide RowEstimator.IsEstimate;
      if estimator.hasVariableWidth { RowEstimator.BestIsUnique(specs, blockSize, Ratio(), Cap(), best); }
    }

    /** A page that turned away its first row is tried again with a smaller row count. */
    method Retry(attempted: nat) returns (r: Option<Filled>)
      requires Valid() && pending.Some? && singleRowDrains && 0 < attempted <= estimator.fixedRowCap
               && attempted <= Cap()
      modifies Own()`backoff
      ensures Valid() && Seen() == old(Seen())
      ensures r.None? ==> 1 < attempted && Cap() == (attempted + 1) / 2
      ensures r.Some? ==> attempted == 1 && r == Some(Failed(Estimation(RowEstimator.SingleRowDoesNotFitPage)))
    {
      if estimator == null { return Some(Failed(EmptySchemaFull)); }
      var observed := estimator.ObserveEmptyFullPage(attempted);
      if observed.Bad? { return Some(Failed(Estimation(observed.error))); }
      r := None;
    }

    /** What a call that fails may report, and what must then be so. */
    ghost predicate Explained(error: SourceError, payload: array<byte>, seen: (nat, nat), attempted: nat)
      reads this, payload, estimator
    {
      var due := Due(emitted);
      && Wide(specs, due)
      && match error
         case RowFailed(e) => Stopped(attempted, e)
         case PayloadTooSmall => payload.Length < blockSize
         case Layout(_) => SmallBlock(error)
         case Estimation(e) =>
           || (e == RowEstimator.ArithmeticOverflow && Seen() == seen && estimator != null && estimator.Stuck())
           || (e == RowEstimator.ObservationOverflow && CountersFull(payload, seen)
               && var n := Reach(specs, blockSize, attempted, due, 0);
                  0 < n && Closes(attempted, due, n))
           || (e == RowEstimator.SingleRowDoesNotFitPage && attempted == 1 && due != []
               && pending == Some(due[0]) && TooLargeAlone(specs, blockSize, due[0]))
         case _ => false
    }

    /** A page that holds the first `n` rows due is complete: no row is left, or it turns the next one away. */
    ghost predicate Closes(size: nat, due: seq<Row>, n: nat)
      requires Wide(specs, due)
    {
      n == |due| || TurnsAway(size, due, n)
    }

    /** What a page attempt leaves behind. */
    ghost predicate Attempted(r: Option<Filled>, payload: array<byte>, before: seq<Row>, seen: (nat, nat),
                              attempted: nat)
      reads this, payload, estimator
    {
      var due := Due(before);
      && Wide(specs, due)
      && match r
         case None =>
           && Valid() && emitted == before && Seen() == seen && singleRowDrains
           && 1 < attempted && Cap() == (attempted + 1) / 2 && TurnsAway(attempted, due, 0)
         case Some(Page(len)) =>
           var n := Reach(specs, blockSize, attempted, due, 0);
           && Valid() && len == blockSize && 0 < n && emitted == before + due[..n] && Closes(attempted, due, n)
           && PageHolds(payload[..], blockSize, specs, due[..n])
         case Some(Eof) => Valid() && emitted == before && due == [] && pos == |rows| && pending.None?
         case Some(Failed(error)) => emitted == before && Explained(error, payload, seen, attempted)
    }

    /** The waiting row goes to the new page first. */
    method OfferPending(attempted: nat, encoder: RowEncoder.Encoder, payload: array<byte>)
        returns (r: Option<Filled>, written: nat)
      requires Filling(encoder, payload, attempted) && pending.Some? && encoder.done.rows == []
      requires 0 < attempted && (estimator != null ==> attempted <= estimator.fixedRowCap)
      requires singleRowDrains ==> attempted <= Cap()
      modifies this`pending, payload, encoder`header, encoder`done, Own()`backoff
      ensures written == 0 ==> Attempted(r, payload, old(emitted), old(Seen()), attempted)
      ensures written > 0 ==>
                Filling(encoder, payload, attempted) && pending.None? && |encoder.done.rows| == written == 1
      ensures written > 0 ==> Cap() == old(Cap())
    {
      hide Kept, PageHolds, RowEncoder.Encoder.Valid, OnPage, Reach, Due, Stopped, CountersFull, OfferTo;
      r, written := None, 0;
      FillingNone(encoder, payload, attempted);
      DueIs([], attempted, pending);
      EmptyPrefix(Due(emitted));
      var status := Offer(pending.value, encoder, payload, attempted);
      match status
      case Appended =>
        assert emitted + [pending.value] == emitted + [] + [pending.value];
        written, pending := 1, None;
      case Full =>
        RefusesForRoom(attempted, [], pending.value);
        r := Retry(attempted);
      case Failed(error) =>
        StopsHere([], attempted, pending.value, error);
        r := Some(Failed(RowFailed(error)));
    }

    lemma FillingNone(encoder: RowEncoder.Encoder, payload: array<byte>, size: nat)
      requires Filling(encoder, payload, size) && encoder.done.rows == []
      ensures Valid()
    {
      assert emitted + [] == emitted;
    }

    lemma FillingStarts(encoder: RowEncoder.Encoder, payload: array<byte>, size: nat)
      requires Valid() && encoder.payload == payload && encoder.Valid() && encoder.specs == specs
               && OnPage(encoder.header, encoder.done, size) && encoder.done.rows == []
      ensures Filling(encoder, payload, size)
    {
      assert emitted + [] == emitted;
    }

    /** A complete page follows the pages before it. */
    method FinishPage(encoder: RowEncoder.Encoder, payload: array<byte>, attempted: nat) returns (r: Option<Filled>)
      requires Filling(encoder, payload, attempted) && encoder.done.rows != []
      requires Wide(specs, Due(emitted)) && Closes(attempted, Due(emitted), |encoder.done.rows|)
      modifies this`emitted, payload, Own()`observedRows, Own()`observedTail, Own()`backoff
      ensures Attempted(r, payload, old(emitted), old(Seen()), attempted)
    {
      hide Kept, PageHolds, CountersFull, OfferTo, RowEncoder.EncoderOk, Takes;
      DueIs(encoder.done.rows, attempted, pending);
      hide Filling, Due;
      var filled := Finish(encoder, payload, attempted);
      r := Some(filled);
    }

    /** The inner loop: rows are drained until the page is full, a row waits, or the scan ends. */
    method FillRows(attempted: nat, encoder: RowEncoder.Encoder, payload: array<byte>, first: nat)
        returns (r: Option<Filled>)
      requires Filling(encoder, payload, attempted) && pending.None? && |encoder.done.rows| == first <= attempted
      requires 0 < attempted && (estimator != null ==> attempted <= estimator.fixedRowCap)
      requires singleRowDrains ==> attempted <= Cap()
      modifies this`pos, this`pending, this`emitted, payload, encoder`header, encoder`done,
               Own()`observedRows, Own()`observedTail, Own()`backoff
      ensures Attempted(r, payload, old(emitted), old(Seen()), attempted)
    {
      hide Filling, Kept, OfferTo, PageHolds, RowEncoder.Encoder.Valid, CountersFull, Stopped;
      var written := first;
      FillingShape(encoder, payload, attempted);
      while written < attempted
        invariant Filling(encoder, payload, attempted) && pending.None? && emitted == old(emitted) && pos <= |rows|
                  && Seen() == old(Seen()) && Cap() == old(Cap())
        invariant |encoder.done.rows| == written <= attempted
        decreases |rows| - pos
      {
        var budget := if singleRowDrains then 1 else attempted - written;
        var stopped, eof, consumed, appended := Drain(budget, encoder, payload, attempted);
        if stopped.Some? {
          StoppedWide(attempted, stopped.value.row);
          return Some(Failed(stopped.value));
        }
        written := written + appended;
        FillingDue(encoder, payload, attempted);
        if pending.Some? {
          if written > 0 {
            r := FinishPage(encoder, payload, attempted);
            return;
          }
          FillingNone(encoder, payload, attempted);
          r := Retry(attempted);
          return;
        }
        if eof {
          if written == 0 {
            FillingNone(encoder, payload, attempted);
            return Some(Eof);
          }
          r := FinishPage(encoder, payload, attempted);
          return;
        }
        if consumed == 0 { return Some(Failed(NoProgress)); }
      }
      FillingDue(encoder, payload, attempted);
      SlotsUsedUp(encoder, payload, attempted);
      r := FinishPage(encoder, payload, attempted);
    }

    lemma StoppedWide(size: nat, error: RowEncoder.RowError)
      requires Stopped(size, error)
      ensures Wide(specs, Due(emitted))
    {
    }

    lemma FillingDue(encoder: RowEncoder.Encoder, payload: array<byte>, size: nat)
      requires Filling(encoder, payload, size)
      ensures Shape() && Wide(specs, Due(emitted)) && Wide(specs, encoder.done.rows)
      ensures pending.Some? && OfferTo(specs, blockSize, size, encoder.done.rows, pending.value) == RowEncoder.Full ==>
                TurnsAway(size, Due(emitted), |encoder.done.rows|)
                    && Due(emitted)[|encoder.done.rows|] == pending.value
      ensures pending.None? && pos == |rows| ==> |encoder.done.rows| == |Due(emitted)|
    {
      hide Kept, OfferTo, Takes;
      DueIs(encoder.done.rows, size, pending);
    }

    lemma SlotsUsedUp(encoder: RowEncoder.Encoder, payload: array<byte>, size: nat)
      requires Filling(encoder, payload, size) && |encoder.done.rows| == size
      ensures Wide(specs, Due(emitted)) && Closes(size, Due(emitted), size)
    {
      hide Kept, Takes;
      DueIs(encoder.done.rows, size, pending);
    }

    /** One round of the outer loop: a page of at most `attempted` rows. */
    method FillPage(attempted: nat, payload: array<byte>) returns (r: Option<Filled>)
      requires Valid() && 0 < attempted <= U32_MAX && (estimator != null ==> attempted <= estimator.fixedRowCap)
      requires singleRowDrains ==> attempted <= Cap()
      modifies this`pos, this`pending, this`emitted, payload,
               Own()`observedRows, Own()`observedTail, Own()`backoff
      ensures Attempted(r, payload, old(emitted), old(Seen()), attempted)
    {
      hide Filling, Attempted, Kept, RowEncoder.EncoderOk, OnPage;
      var failure, encoder := Begin(attempted, payload);
      if failure.Some? {
        BeginFailed(failure.value, payload, attempted);
        return Some(Failed(failure.value));
      }
      FillingStarts(encoder, payload, attempted);
      var written := 0;
      if pending.Some? {
        r, written := OfferPending(attempted, encoder, payload);
        if written == 0 { return; }
      }
      r := FillRows(attempted, encoder, payload, written);
    }

    lemma BeginFailed(error: SourceError, payload: array<byte>, attempted: nat)
      requires Shape() && ((error == PayloadTooSmall && payload.Length < blockSize) || SmallBlock(error))
      ensures Attempted(Some(Failed(error)), payload, emitted, Seen(), attempted)
    {
      DueWide(emitted);
    }

    /** At the end of the scan the pages hold every row that passes the filters, in order and once each. */
    lemma ScanComplete()
      requires Valid() && pos == |rows| && pending.None?
      ensures emitted == Kept(keep, rows)
    {
      assert emitted + [] == emitted && rows[..|rows|] == rows;
    }

    /** Whether the call got as far as its rows. */
    static predicate Began(r: Filled) {
      r.Failed? ==> r.error != PayloadTooSmall && !r.error.Layout?
                    && r.error != Estimation(RowEstimator.ArithmeticOverflow)
    }

    /** A call that gets to its rows fails for one exactly if the first row that the page does not take fails on it. */
    lemma FailsExactly(r: Filled, payload: array<byte>, before: seq<Row>, seen: (nat, nat), attempted: nat,
                       error: RowEncoder.RowError)
      requires Attempted(Some(r), payload, before, seen, attempted)
      ensures Wide(specs, Due(before))
              && (r == Failed(RowFailed(error)) <==> Began(r) && Stops(attempted, Due(before), error))
    {
      hide PageHolds, Kept, CountersFull;
      if Began(r) && Stops(attempted, Due(before), error) && r.Failed? && r.error.Estimation? {
        EmptyPrefix(Due(before));
      }
    }

    /**
     * It fails with the tail overflowed exactly if, of the first row the page does not take, the first cell not written
     * is longer than what the rows of the page and the cells before it leave below the tail.
     */
    lemma OverflowsExactly(r: Filled, payload: array<byte>, before: seq<Row>, seen: (nat, nat), attempted: nat)
        returns (n: nat, stop: nat)
      requires Attempted(Some(r), payload, before, seen, attempted)
      ensures var due := Due(before);
              && Wide(specs, due) && n == Reach(specs, blockSize, attempted, due, 0) <= |due| && stop <= |specs|
              && (n < |due| ==>
                    && stop == RowEncoder.StopsAt(specs, NullCounts(specs, due[..n]),
                                                  RowEstimator.PoolBase(specs, attempted), due[n], 0,
                                                  Cursor(blockSize, due[..n]))
                    && RowEncoder.LongBytes(due[n][..stop]) <= Cursor(blockSize, due[..n]))
              && (r == Failed(RowFailed(RowEncoder.TailOverflow)) <==>
                    && Began(r) && n < |due| && n < attempted && stop < |specs|
                    && RowEncoder.Overlong(specs[stop], due[n][stop],
                                           Cursor(blockSize, due[..n]) - RowEncoder.LongBytes(due[n][..stop])))
    {
      hide Attempted, Due, Reach, Cursor, NullCounts, RowEncoder.ScanRow, RowEncoder.StopsAt, RowEncoder.Overlong,
          ColumnStart;
      FailsExactly(r, payload, before, seen, attempted, RowEncoder.TailOverflow);
      var due := Due(before);
      n, stop := Reach(specs, blockSize, attempted, due, 0), 0;
      if n < |due| {
        var (counts, poolBase, cursor) := (NullCounts(specs, due[..n]), RowEstimator.PoolBase(specs, attempted),
                                           Cursor(blockSize, due[..n]));
        stop := RowEncoder.StopsAt(specs, counts, poolBase, due[n], 0, cursor);
        RowEncoder.TailOverflowsExactly(specs, counts, poolBase, due[n], cursor);
      }
    }

    /** It gives up exactly if the first row due fits no page. */
    lemma GivesUpExactly(r: Filled, payload: array<byte>, before: seq<Row>, seen: (nat, nat), attempted: nat)
      requires Attempted(Some(r), payload, before, seen, attempted)
      ensures r == Failed(Estimation(RowEstimator.SingleRowDoesNotFitPage)) <==>
                Began(r) && Due(before) != [] && TooLargeAlone(specs, blockSize, Due(before)[0])
    {
      hide PageHolds, Kept, CountersFull, OfferTo, TooLargeAlone;
      var due := Due(before);
      if Began(r) && due != [] && TooLargeAlone(specs, blockSize, due[0]) {
        EmptyPrefix(due);
        BlankRefuses(specs, blockSize, due[0], attempted);
      }
    }

    lemma EmptyPrefix(due: seq<Row>)
      ensures due[..0] == []
    {
    }

    /**
     * `fill_next_page_with_snapshot`. The page holds as many of the rows due as a page of the settled size takes, and a
     * call fails for a row exactly if the first row not taken fails there, and gives up exactly if the first row due
     * fits no page. Retries end because each one is given fewer rows than the one before.
     */
    method FillNextPage(payload: array<byte>) returns (r: Filled, ghost attempted: nat)
      requires Valid()
      modifies this`pos, this`pending, this`emitted, payload,
               Own()`observedRows, Own()`observedTail, Own()`backoff
      ensures Attempted(Some(r), payload, old(emitted), old(Seen()), attempted)
      ensures Wide(specs, Due(old(emitted)))
      ensures Began(r) ==> attempted == Settled(old(Ratio()), old(Cap()), Due(old(emitted)))
      ensures forall e :: r == Failed(RowFailed(e)) <==> Began(r) && Stops(attempted, Due(old(emitted)), e)
      ensures r == Failed(Estimation(RowEstimator.SingleRowDoesNotFitPage)) <==>
                Began(r) && Due(old(emitted)) != [] && TooLargeAlone(specs, blockSize, Due(old(emitted))[0])
      ensures r.Eof? ==> emitted == Kept(keep, rows)
      ensures r.Page? ==> Imports(payload[..], specs)
    {
      hide Attempted, Imports, Kept, Due, Settled, Stops, Wide;
      DueWide(emitted);
      ghost var due := Due(emitted);
      while true
        invariant Valid() && emitted == old(emitted) && Seen() == old(Seen()) && Ratio() == old(Ratio())
        invariant Settled(Ratio(), Cap(), due) == Settled(old(Ratio()), old(Cap()), due)
        decreases Cap()
      {
        var page, size := FillSized(payload);
        attempted := size;
        if page.Some? {
          forall e ensures page.value == Failed(RowFailed(e)) <==> Began(page.value) && Stops(attempted, due, e) {
            FailsExactly(page.value, payload, old(emitted), old(Seen()), attempted, e);
          }
          GivesUpExactly(page.value, payload, old(emitted), old(Seen()), attempted);
          PageDone(page.value, payload, old(emitted), old(Seen()), attempted);
          return page.value, attempted;
        }
      }
    }

    lemma PageDone(r: Filled, payload: array<byte>, before: seq<Row>, seen: (nat, nat), attempted: nat)
      requires Attempted(Some(r), payload, before, seen, attempted)
      ensures r.Eof? ==> emitted == Kept(keep, rows)
      ensures r.Page? ==> Imports(payload[..], specs)
    {
      hide PageHolds, Imports, Kept, Reach, OfferTo, CountersFull;
      if r.Eof? { ScanComplete(); }
      if r.Page? {
        var due := Due(before);
        PageImports(payload[..], blockSize, specs, due[..Reach(specs, blockSize, attempted, due, 0)]);
      }
    }

    /** The estimate, and a page of that size. */
    method FillSized(payload: array<byte>) returns (r: Option<Filled>, ghost size: nat)
      requires Valid()
      modifies this`pos, this`pending, this`emitted, payload,
               Own()`observedRows, Own()`observedTail, Own()`backoff
      ensures Wide(specs, Due(old(emitted)))
      ensures r.None? ==>
                && Valid() && emitted == old(emitted) && Seen() == old(Seen()) && Ratio() == old(Ratio())
                && Cap() < old(Cap())
                && Settled(Ratio(), Cap(), Due(old(emitted))) == Settled(Ratio(), old(Cap()), Due(old(emitted)))
      ensures r.Some? ==> Attempted(r, payload, old(emitted), old(Seen()), size)
      ensures r.Some? && Began(r.value) ==> size == Settled(old(Ratio()), old(Cap()), Due(old(emitted)))
    {
      hide PageHolds, Kept, TooLargeAlone, CountersFull, RowEstimator.Estimator.Stuck, Reach, OfferTo, Due,
          Slots, RowEstimator.IsEstimate, Stops, Wide, Closes, Stopped, TurnsAway;
      DueWide(emitted);
      ghost var due, ratio, cap := Due(emitted), Ratio(), Cap();
      var rowsPerPage := fetchBatch;
      if estimator == null {
        NoEstimator();
      } else {
        var estimate, best := estimator.EstimateRows();
        if estimate.Bad? { return Some(Failed(Estimation(estimate.error))), 0; }
        rowsPerPage := estimate.value.rowsPerPage;
        SlotsEstimated(rowsPerPage, best);
      }
      size := rowsPerPage;
      if rowsPerPage == 0 {
        r := Some(Failed(ZeroRows));
        return;
      }
      r := FillPage(rowsPerPage, payload);
      if r.Some? && Began(r.value) { NoRetry(r.value, payload, old(emitted), old(Seen()), size); }
    }

    lemma NoEstimator()
      requires estimator == null
      ensures fetchBatch == Slots(Ratio(), Cap())
    {
    }

    /** A call that does not retry took the first row due, or was down to one row. */
    lemma NoRetry(r: Filled, payload: array<byte>, before: seq<Row>, seen: (nat, nat), attempted: nat)
      requires Attempted(Some(r), payload, before, seen, attempted) && Began(r)
      ensures Wide(specs, Due(before)) && (TurnsAway(attempted, Due(before), 0) ==> attempted == 1)
    {
      hide PageHolds, Kept, CountersFull, OfferTo;
    }
  }

  // ---- A scan that fails although every row fits a page ----------------------------------------------

  lemma TextFront(rows: nat)
    ensures 60 + 16 * rows <= RowEstimator.PoolBase(TEXTS, rows) <= 60 + 17 * rows + 1 + 2 * ALIGNMENT
  {
    assert FrontBase(1) == 60;
    assert ColumnStart(TEXTS, rows, 1) == FrontBase(1) + ValidityLen(rows) + ValuesLen(Utf8View, rows);
  }

  /** A 64 KiB page of one string column, at the 64 tail bytes a row that are expected first. */
  lemma TextSlots(cap: nat)
    requires RowEstimator.IsFixedCap(TEXTS, 65536, cap)
    ensures var size := RowEstimator.BestRows(TEXTS, 65536, (64, 1), cap);
            2 <= size <= cap && RowEstimator.PoolBase(TEXTS, size) <= 25536
  {
    hide ColumnStart, RowEstimator.BestRows;
    TextFront(0);
    TextFront(2);
    assert RowEstimator.PlanFits(TEXTS, 65536, 2);
    var best := RowEstimator.BestExists(TEXTS, 65536, 64, 1, cap);
    assert RowEstimator.TailFits(TEXTS, 65536, 64, 1, 2);
    RowEstimator.BestIsUnique(TEXTS, 65536, (64, 1), cap, best);
    TextFront(best);
  }

  lemma {:induction false} KeptAll(keep: (nat, Row) -> bool, rows: seq<Row>)
    requires forall i, row :: keep(i, row)
    ensures Kept(keep, rows) == rows
  {
    if rows != [] { KeptAll(keep, rows[..|rows| - 1]); }
  }

  /** A new source of those two rows settles on a size at which it stops. */
  lemma TwoRowsStop(source: Source, cap: nat)
    requires source.specs == TEXTS && source.blockSize == 65536 && source.rows == [TextRow(40000), TextRow(30000)]
    requires source.estimator != null && source.estimator.hasVariableWidth && (forall i, row :: source.keep(i, row))
    requires RowEstimator.IsFixedCap(TEXTS, 65536, cap) && Wide(TEXTS, source.Due([]))
    ensures source.Stops(source.Settled((64, 1), cap, source.Due([])), source.Due([]), RowEncoder.TailOverflow)
  {
    hide ColumnStart, OfferTo, Kept, RowEstimator.IsFixedCap, RowEstimator.BestRows, TextRow;
    KeptAll(source.keep, source.rows);
    var due, size := source.rows, RowEstimator.BestRows(TEXTS, 65536, (64, 1), cap);
    assert source.Due([]) == due;
    TextSlots(cap);
    TwoRowScan(size);
    assert due[..0] == [] && due[..1] == [TextRow(40000)];
    assert !source.TurnsAway(size, due, 0);
  }

  /** Two rows that each fit a page of their own: the first call fails. */
  method ScanTwoRows(payload: array<byte>) returns (r: Filled)
    requires payload.Length >= 65536
    modifies payload
    ensures r == Failed(RowFailed(RowEncoder.TailOverflow))
  {
    hide ColumnStart, OfferTo, Reach, Kept, RowEstimator.IsFixedCap, TextRow, Source.Stops, Source.Settled, Source.Due,
        PageHolds, Source.CountersFull, Imports, RowEstimator.IsEstimate, TooLargeAlone, Source.TurnsAway;
    TextFront(0);
    TextFront(4 * 65536);
    var cap := RowEstimator.ComputeFixedRowCap(TEXTS, 65536);
    TextSlots(cap.value);
    var estimator := new RowEstimator.Estimator(TEXTS, 65536, cap.value, 64);
    TextRowWide(40000);
    TextRowWide(30000);
    var source := new Source(TEXTS, 65536, 1024, [TextRow(40000), TextRow(30000)], false, (_, _) => true, estimator);
    assert IsView(TEXTS[0].tag);
    ghost var attempted;
    source.DueWide([]);
    TwoRowsStop(source, cap.value);
    r, attempted := source.FillNextPage(payload);
  }

  lemma TextRowWide(n: nat)
    ensures |TextRow(n)| == |TEXTS|
  {
  }

  lemma FrontInside(block: seq<byte>, h: BlockHeader, specs: seq<ColumnSpec>)
    requires LaidOut(block, h, specs)
    ensures DescOffset(|specs|) <= h.blockSize <= |block|
  {
    StartsGrow(specs, h.maxRows, 0, |specs|);
  }

  lemma PlanFacts(plan: LayoutPlan, specs: seq<ColumnSpec>)
    requires IsPlan(plan, specs)
    ensures |plan.columns| == |specs| && plan.poolBase == RowEstimator.PoolBase(specs, plan.maxRows)
  {
  }
}
