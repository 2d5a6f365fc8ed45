/** Blocks as bytes: header and descriptor codecs, validation on open, initialization and `ByteView` slots. */
module ArrowBlock {
  import opened Common
  import opened Bytes
  import opened ArrowLayout

  // ---- Header and descriptors --------------------------------------------------------

  datatype BlockHeader = BlockHeader(
    magic: nat, version: nat, flags: nat, blockSize: nat, maxRows: nat, rowCount: nat, colCount: nat,
    reserved0: nat, frontBase: nat, poolBase: nat, tailCursor: nat, reserved1: nat)

  datatype ColumnDesc = ColumnDesc(tag: nat, flags: nat, validityOff: nat, valuesOff: nat, nullCount: nat,
                                   reserved0: nat)

  const HEADER_WIDTHS: seq<nat> := [4, 2, 2, 4, 4, 4, 2, 2, 4, 4, 4, 4]
  const DESC_WIDTHS: seq<nat> := [2, 2, 4, 4, 4, 4]

  function HeaderFields(h: BlockHeader): seq<nat> {
    [h.magic, h.version, h.flags, h.blockSize, h.maxRows, h.rowCount, h.colCount,
     h.reserved0, h.frontBase, h.poolBase, h.tailCursor, h.reserved1]
  }

  function DescFields(d: ColumnDesc): seq<nat> {
    [d.tag, d.flags, d.validityOff, d.valuesOff, d.nullCount, d.reserved0]
  }

  lemma Widths()
    ensures Size(HEADER_WIDTHS) == HEADER_LEN && Size(DESC_WIDTHS) == DESC_LEN
    ensures Pow256(2) == U16_MAX + 1 && Pow256(4) == U32_MAX + 1
  {
    assert HEADER_WIDTHS[1..][1..][1..][1..][1..][1..] == [2, 2, 4, 4, 4, 4];
    DescWidths();
    assert Size([2, 2, 4, 4, 4, 4]) == DESC_LEN;
  }

  lemma DescWidths()
    ensures Size([2, 2, 4, 4, 4, 4]) == 20
  {
    var w := [2, 2, 4, 4, 4, 4];
    assert w[1..] == [2, 4, 4, 4, 4] && [2, 4, 4, 4, 4][1..] == [4, 4, 4, 4] && [4, 4, 4, 4][1..] == [4, 4, 4];
    assert [4, 4, 4][1..] == [4, 4] && [4, 4][1..] == [4] && [4][1..] == [];
    assert Size([4]) == 4 && Size([4, 4]) == 8 && Size([4, 4, 4]) == 12 && Size([4, 4, 4, 4]) == 16;
  }

  ghost predicate HeaderFits(h: BlockHeader) {
    && h.magic <= U32_MAX && h.version <= U16_MAX && h.flags <= U16_MAX && h.blockSize <= U32_MAX
    && h.maxRows <= U32_MAX
    && h.rowCount <= U32_MAX && h.colCount <= U16_MAX && h.reserved0 <= U16_MAX && h.frontBase <= U32_MAX
    && h.poolBase <= U32_MAX && h.tailCursor <= U32_MAX && h.reserved1 <= U32_MAX
  }

  ghost predicate DescFits(d: ColumnDesc) {
    && d.tag <= U16_MAX && d.flags <= U16_MAX && d.validityOff <= U32_MAX && d.valuesOff <= U32_MAX
    && d.nullCount <= U32_MAX && d.reserved0 <= U32_MAX
  }

  function EncodeHeader(h: BlockHeader): (bytes: seq<byte>)
    ensures |bytes| == HEADER_LEN
  {
    Widths();
    Pack(HeaderFields(h), HEADER_WIDTHS)
  }

  function DecodeHeader(bytes: seq<byte>): BlockHeader
    requires |bytes| == HEADER_LEN
  {
    Widths();
    var f := Unpack(bytes, HEADER_WIDTHS);
    BlockHeader(f[0], f[1], f[2], f[3], f[4], f[5], f[6], f[7], f[8], f[9], f[10], f[11])
  }

  function EncodeDesc(d: ColumnDesc): (bytes: seq<byte>)
    ensures |bytes| == DESC_LEN
  {
    Widths();
    Pack(DescFields(d), DESC_WIDTHS)
  }

  function DecodeDesc(bytes: seq<byte>): ColumnDesc
    requires |bytes| == DESC_LEN
  {
    Widths();
    var f := Unpack(bytes, DESC_WIDTHS);
    ColumnDesc(f[0], f[1], f[2], f[3], f[4], f[5])
  }

  /** A header survives the trip through its bytes. */
  lemma HeaderRoundTrip(h: BlockHeader)
    requires HeaderFits(h)
    ensures DecodeHeader(EncodeHeader(h)) == h
  {
    HeaderFieldsFit(h);
    hide Pack, Unpack, Fits;
    Widths();
    UnpackPack(HeaderFields(h), HEADER_WIDTHS);
  }

  lemma HeaderFieldsFit(h: BlockHeader)
    requires HeaderFits(h)
    ensures Fits(HeaderFields(h), HEADER_WIDTHS)
  {
    Widths();
    hide Pow256, Size;
  }

  lemma DescFieldsFit(d: ColumnDesc)
    requires DescFits(d)
    ensures Fits(DescFields(d), DESC_WIDTHS)
  {
    Widths();
    hide Pow256, Size;
  }

  lemma DescRoundTrip(d: ColumnDesc)
    requires DescFits(d)
    ensures DecodeDesc(EncodeDesc(d)) == d
  {
    DescFieldsFit(d);
    hide Pack, Unpack, Fits;
    Widths();
    UnpackPack(DescFields(d), DESC_WIDTHS);
  }

  lemma DecodedFits(bytes: seq<byte>)
    ensures |bytes| == HEADER_LEN ==> HeaderFits(DecodeHeader(bytes))
    ensures |bytes| == DESC_LEN ==> DescFits(DecodeDesc(bytes))
  {
    Widths();
    if |bytes| == HEADER_LEN { UnpackFits(bytes, HEADER_WIDTHS); }
    if |bytes| == DESC_LEN { UnpackFits(bytes, DESC_WIDTHS); }
  }

  function DescOffset(i: nat): nat { HEADER_LEN + i * DESC_LEN }

  function HeaderAt(block: seq<byte>): BlockHeader
    requires |block| >= HEADER_LEN
  {
    DecodeHeader(block[..HEADER_LEN])
  }

  function DescAt(block: seq<byte>, i: nat): ColumnDesc
    requires |block| >= DescOffset(i + 1)
  {
    DecodeDesc(block[DescOffset(i)..DescOffset(i) + DESC_LEN])
  }

  // ---- Opening a block ----------------------------------------------------------------------

  /** `validate_header`. */
  function HeaderError(h: BlockHeader, descCount: nat): Option<LayoutError> {
    if h.magic != BLOCK_MAGIC then Some(InvalidMagic)
    else if h.version != BLOCK_VERSION then Some(InvalidVersion)
    else if h.rowCount > h.maxRows then Some(RowCountExceedsMaxRows)
    else if h.colCount != descCount then Some(ColumnCountMismatch)
    else if h.frontBase != FrontBase(descCount) then Some(FrontBaseMismatch)
    else if h.frontBase > h.poolBase || h.poolBase > h.tailCursor
        || h.tailCursor > h.blockSize then Some(InvalidHeaderBounds)
    else if !Biased(h.frontBase) || !Biased(h.poolBase) then Some(MisalignedFrontRegion)
    else None
  }

  /** The spec a descriptor stands for, when its type tag is known. */
  function SpecOf(d: ColumnDesc): Option<ColumnSpec> {
    match FromRaw(d.tag)
    case None => None
    case Some(tag) => Some(ColumnSpec(tag, IsNullable(d.flags)))
  }

  /** Column `i` is described exactly as planning its recovered specs would, apart from spare flag bits. */
  ghost predicate DescPlanned(d: ColumnDesc, specs: seq<ColumnSpec>, rows: nat, i: nat)
    requires i < |specs|
  {
    var c := PlannedColumn(specs, rows, i);
    d.tag == ToRaw(c.tag) && d.validityOff == c.validityOff && d.valuesOff == c.valuesOff
    && HasViewFlag(d.flags) == IsView(c.tag) && IsNullable(d.flags) == specs[i].nullable && d.reserved0 == 0
  }

  /** The block is one that planning `specs` would lay out, at some stage of being filled. */
  ghost predicate LaidOut(block: seq<byte>, h: BlockHeader, specs: seq<ColumnSpec>) {
    && h.magic == BLOCK_MAGIC && h.version == BLOCK_VERSION && h.colCount == |specs| && h.rowCount <= h.maxRows
    && h.frontBase == FrontBase(|specs|) && h.poolBase == ColumnStart(specs, h.maxRows, |specs|)
    && h.poolBase <= h.tailCursor <= h.blockSize <= |block|
    && |block| >= DescOffset(|specs|)
    && forall i :: 0 <= i < |specs| ==> DescPlanned(DescAt(block, i), specs, h.maxRows, i)
  }

  /** What `BlockRef::open` should accept. */
  ghost predicate Opens(block: seq<byte>) {
    |block| >= HEADER_LEN && exists specs :: LaidOut(block, HeaderAt(block), specs)
  }

  /** `column_layout_from_desc`: the checks on one descriptor alone. */
  function DescError(d: ColumnDesc, rows: nat): (e: Option<LayoutError>)
    requires rows <= U32_MAX
  {
    match FromRaw(d.tag)
    case None => Some(InvalidTypeTag)
    case Some(tag) =>
      if HasViewFlag(d.flags) != IsView(tag) then Some(InconsistentViewFlag)
      else if CheckedValuesLen(tag, rows).Err? then Some(SizeOverflow)
      else None
  }

  lemma {:induction false} StartOfPrefix(specs: seq<ColumnSpec>, more: seq<ColumnSpec>, rows: nat, i: nat)
    requires |specs| == |more| && i <= |specs| && forall j :: 0 <= j < i ==> specs[j] == more[j]
    ensures ColumnStart(specs, rows, i) == ColumnStart(more, rows, i)
  {
    hide ValidityLen, ValuesLen, FrontBase;
    if i > 0 { StartOfPrefix(specs, more, rows, i - 1); }
  }

  /** The recovered columns, padded to `n`; used while the columns are recovered one by one. */
  function Recovered(n: nat, found: seq<ColumnSpec>): (specs: seq<ColumnSpec>)
    requires |found| <= n
    ensures |specs| == n && forall j :: 0 <= j < |found| ==> specs[j] == found[j]
  {
    found + seq(n - |found|, _ => ColumnSpec(Boolean, false))
  }

  /** The fault of a header that each error stands for, those before it being absent. */
  ghost predicate HeaderFaulty(h: BlockHeader, error: LayoutError) {
    match error
    case InvalidMagic => h.magic != 0x3242_4150
    case InvalidVersion => h.magic == 0x3242_4150 && h.version != 1
    case RowCountExceedsMaxRows => h.magic == 0x3242_4150 && h.version == 1 && h.rowCount > h.maxRows
    case FrontBaseMismatch =>
      h.magic == 0x3242_4150 && h.version == 1 && h.rowCount <= h.maxRows && h.frontBase != FrontBase(h.colCount)
    case InvalidHeaderBounds =>
      && h.magic == 0x3242_4150 && h.version == 1 && h.rowCount <= h.maxRows && h.frontBase == FrontBase(h.colCount)
      && !(h.frontBase <= h.poolBase <= h.tailCursor <= h.blockSize)
    case MisalignedFrontRegion =>
      && h.magic == 0x3242_4150 && h.version == 1 && h.rowCount <= h.maxRows && h.frontBase == FrontBase(h.colCount)
      && h.frontBase <= h.poolBase <= h.tailCursor <= h.blockSize && h.poolBase % 16 != 12
    case _ => false
  }

  /** The fault of a descriptor whose column must start at `cursor`. */
  ghost predicate DescFaulty(d: ColumnDesc, rows: nat, cursor: nat, error: LayoutError) {
    match error
    case InvalidTypeTag => !(1 <= d.tag <= 14)
    case InconsistentViewFlag => 1 <= d.tag <= 14 && (d.flags / 2 % 2 == 1) != (d.tag == 8 || d.tag == 9)
    case ColumnDescMismatch =>
      1 <= d.tag <= 14
      && (d.validityOff != cursor || d.valuesOff != cursor + ValidityLen(rows) || d.reserved0 != 0)
    case SizeOverflow =>
      1 <= d.tag <= 14 && cursor + ValidityLen(rows) + ValuesLen(FromRaw(d.tag).value, rows) > U32_MAX
    case _ => false
  }

  /** What is wrong with a block that is refused: its length, its header, or its first faulty descriptor. */
  ghost predicate Faults(block: seq<byte>, error: LayoutError) {
    if |block| < HEADER_LEN then error == BlockSliceTooSmall
    else
      var h := HeaderAt(block);
      if |block| < h.blockSize || |block| < DescOffset(h.colCount) then error == BlockSliceTooSmall
      else HeaderFaulty(h, error) || DescsFault(block, h, error)
  }

  ghost predicate DescsFault(block: seq<byte>, h: BlockHeader, error: LayoutError)
    requires |block| >= DescOffset(h.colCount)
  {
    HeaderError(h, h.colCount).None? &&
    exists found: seq<ColumnSpec>, cursor: nat :: Checked(block, h, found, cursor)
      && if |found| < h.colCount then DescFaulty(DescAt(block, |found|), h.maxRows, cursor, error)
         else error == PoolBaseMismatch && cursor != h.poolBase
  }

  /** `BlockRef::open`: accepts exactly the blocks that planning their own recovered specs lays out. */
  method Open(block: seq<byte>) returns (r: Result<BlockHeader>)
    ensures r.Ok? <==> Opens(block)
    ensures r.Ok? ==> r.value == HeaderAt(block)
    ensures r.Err? ==> Faults(block, r.error)
  {
    if |block| < HEADER_LEN { return Err(BlockSliceTooSmall); }
    var h := HeaderAt(block);
    DecodedFits(block[..HEADER_LEN]);
    var n := h.colCount;
    if |block| < h.blockSize || |block| < DescOffset(n) {
      RefusedUnless(block, |block| >= h.blockSize && |block| >= DescOffset(n));
      return Err(BlockSliceTooSmall);
    }
    var headerError := HeaderError(h, n);
    if headerError.Some? {
      HeaderErrorRefuses(block);
      return Err(headerError.value);
    }
    r := CheckDescs(block, h);
  }

  lemma RefusedUnless(block: seq<byte>, enough: bool)
    requires |block| >= HEADER_LEN
    requires var h := HeaderAt(block); enough <==> |block| >= h.blockSize && |block| >= DescOffset(h.colCount)
    ensures !enough ==> !Opens(block)
  {
  }

  lemma HeaderInOrder(block: seq<byte>, h: BlockHeader, specs: seq<ColumnSpec>)
    requires LaidOut(block, h, specs)
    ensures HeaderError(h, h.colCount).None?
  {
    hide ValidityLen, ValuesLen, FrontBase, DescAt;
    StartAligned(specs, h.maxRows, |specs|);
    StartAligned(specs, h.maxRows, 0);
  }

  lemma HeaderErrorRefuses(block: seq<byte>)
    requires |block| >= HEADER_LEN && HeaderError(HeaderAt(block), HeaderAt(block).colCount).Some?
    ensures !Opens(block)
  {
    var h := HeaderAt(block);
    if Opens(block) {
      var specs :| LaidOut(block, h, specs);
      HeaderInOrder(block, h, specs);
    }
  }

  /** A laid-out block recovers its specs from its own descriptors. */
  lemma SpecsRecovered(block: seq<byte>, h: BlockHeader, specs: seq<ColumnSpec>, i: nat)
    requires LaidOut(block, h, specs) && i < |specs|
    ensures SpecOf(DescAt(block, i)) == Some(specs[i])
  {
    assert DescPlanned(DescAt(block, i), specs, h.maxRows, i);
    assert ToRaw(specs[i].tag) == DescAt(block, i).tag;
    TagRoundTrip(specs[i].tag);
  }

  lemma TagRoundTrip(tag: TypeTag)
    ensures FromRaw(ToRaw(tag)) == Some(tag)
  {
  }

  /** The first `|found|` descriptors are in order and describe `found`; the next column starts at `cursor`. */
  ghost predicate Checked(block: seq<byte>, h: BlockHeader, found: seq<ColumnSpec>, cursor: nat) {
    && |found| <= h.colCount && |block| >= DescOffset(h.colCount)
    && cursor == ColumnStart(Recovered(h.colCount, found), h.maxRows, |found|) <= U32_MAX
    && (forall j :: 0 <= j < |found| ==> SpecOf(DescAt(block, j)) == Some(found[j]))
    && (forall j :: 0 <= j < |found| ==> DescPlanned(DescAt(block, j), Recovered(h.colCount, found), h.maxRows, j))
  }

  /** The checks on one descriptor, given where its column must start. */
  predicate DescGood(d: ColumnDesc, rows: nat, cursor: nat)
    requires rows <= U32_MAX
  {
    && DescError(d, rows).None? && d.validityOff == cursor && cursor + ValidityLen(rows) <= U32_MAX
    && d.valuesOff == cursor + ValidityLen(rows) && d.reserved0 == 0
    && cursor + ValidityLen(rows) + ValuesLen(FromRaw(d.tag).value, rows) <= U32_MAX
  }

  /** The checks in the order they are made. */
  function DescCheck(d: ColumnDesc, rows: nat, cursor: nat): Option<LayoutError>
    requires rows <= U32_MAX
  {
    if DescError(d, rows).Some? then DescError(d, rows)
    else
      var validityLen, valuesLen := ValidityLen(rows), CheckedValuesLen(FromRaw(d.tag).value, rows).value;
      if d.validityOff != cursor then Some(ColumnDescMismatch)
      else if cursor + validityLen > U32_MAX then Some(SizeOverflow)
      else if d.valuesOff != cursor + validityLen then Some(ColumnDescMismatch)
      else if cursor + validityLen + valuesLen > U32_MAX then Some(SizeOverflow)
      else if d.reserved0 != 0 then Some(ColumnDescMismatch)
      else None
  }

  lemma DescChecked(d: ColumnDesc, rows: nat, cursor: nat)
    requires rows <= U32_MAX
    ensures DescCheck(d, rows, cursor).None? <==> DescGood(d, rows, cursor)
    ensures DescCheck(d, rows, cursor).Some? ==> DescFaulty(d, rows, cursor, DescCheck(d, rows, cursor).value)
  {
    hide ValidityLen, ValuesLen;
  }

  lemma BlamesDesc(block: seq<byte>, h: BlockHeader, found: seq<ColumnSpec>, cursor: nat, error: LayoutError)
    requires |block| >= DescOffset(h.colCount) && HeaderError(h, h.colCount).None? && Checked(block, h, found, cursor)
    requires if |found| < h.colCount then DescFaulty(DescAt(block, |found|), h.maxRows, cursor, error)
             else error == PoolBaseMismatch && cursor != h.poolBase
    ensures DescsFault(block, h, error)
  {
    hide Checked, DescFaulty, HeaderError;
  }

  /** `validate_desc_layout_in_block`: one cursor over the descriptors. */
  method CheckDescs(block: seq<byte>, h: BlockHeader) returns (r: Result<BlockHeader>)
    requires |block| >= HEADER_LEN && h == HeaderAt(block) && h.blockSize <= |block|
             && |block| >= DescOffset(h.colCount)
    requires HeaderFits(h) && HeaderError(h, h.colCount).None?
    ensures r.Ok? <==> Opens(block)
    ensures r.Ok? ==> r.value == h
    ensures r.Err? ==> DescsFault(block, h, r.error)
  {
    var cursor: nat := h.frontBase;
    ghost var found: seq<ColumnSpec> := [];
    NothingChecked(block, h);
    hide Checked, Opens, HeaderError, DescAt, ValidityLen, ValuesLen, DescsFault, DescFaulty, DescCheck;
    for i := 0 to h.colCount
      invariant |found| == i && Checked(block, h, found, cursor)
    {
      var d := DescAt(block, i);
      var error := DescCheck(d, h.maxRows, cursor);
      DescChecked(d, h.maxRows, cursor);
      if error.Some? {
        DescRefuses(block, h, found, cursor);
        BlamesDesc(block, h, found, cursor, error.value);
        return Err(error.value);
      }
      var tag := FromRaw(d.tag).value;
      CheckedNext(block, h, found, cursor);
      cursor := cursor + ValidityLen(h.maxRows) + CheckedValuesLen(tag, h.maxRows).value;
      found := found + [ColumnSpec(tag, IsNullable(d.flags))];
    }
    if cursor != h.poolBase {
      PoolRefuses(block, h, found, cursor);
      BlamesDesc(block, h, found, cursor, PoolBaseMismatch);
      return Err(PoolBaseMismatch);
    }
    AllChecked(block, h, found, cursor);
    r := Ok(h);
  }

  lemma NothingChecked(block: seq<byte>, h: BlockHeader)
    requires |block| >= DescOffset(h.colCount) && HeaderFits(h) && h.frontBase == FrontBase(h.colCount)
    ensures Checked(block, h, [], h.frontBase)
  {
  }

  lemma CheckedNext(block: seq<byte>, h: BlockHeader, found: seq<ColumnSpec>, cursor: nat)
    requires Checked(block, h, found, cursor) && |found| < h.colCount && h.maxRows <= U32_MAX
    requires DescGood(DescAt(block, |found|), h.maxRows, cursor)
    ensures var d := DescAt(block, |found|);
            Checked(block, h, found + [ColumnSpec(FromRaw(d.tag).value, IsNullable(d.flags))],
                    cursor + ValidityLen(h.maxRows) + ValuesLen(FromRaw(d.tag).value, h.maxRows))
  {
    hide ValidityLen, ValuesLen, FrontBase, DescAt, DescPlanned, Recovered, FromRaw, ToRaw, IsNullable, HasViewFlag,
        CheckedValuesLen, ColumnStart;
    var i, d := |found|, DescAt(block, |found|);
    var next := ColumnSpec(FromRaw(d.tag).value, IsNullable(d.flags));
    var older, newer := Recovered(h.colCount, found), Recovered(h.colCount, found + [next]);
    forall j: nat | j <= i ensures older[..j] == newer[..j] { RecoveredAlike(h.colCount, found, next, j); }
    StartOfPrefix(older, newer, h.maxRows, i);
    StartStep(newer, h.maxRows, i);
    GoodIsPlanned(d, newer, h.maxRows, i);
    forall j | 0 <= j < i ensures DescPlanned(DescAt(block, j), newer, h.maxRows, j) {
      PlannedAlike(DescAt(block, j), older, newer, h.maxRows, j);
    }
  }

  lemma RecoveredAlike(n: nat, found: seq<ColumnSpec>, next: ColumnSpec, j: nat)
    requires j <= |found| < n
    ensures Recovered(n, found)[..j] == Recovered(n, found + [next])[..j]
            && Recovered(n, found + [next])[|found|] == next
  {
    assert (found + [next])[..j] == found[..j];
  }

  lemma PlannedAlike(d: ColumnDesc, specs: seq<ColumnSpec>, specs': seq<ColumnSpec>, rows: nat, j: nat)
    requires j < |specs| == |specs'| && specs[..j + 1] == specs'[..j + 1] && DescPlanned(d, specs, rows, j)
    ensures DescPlanned(d, specs', rows, j)
  {
    hide ValidityLen, ValuesLen, FrontBase, ColumnStart;
    assert specs[j] == specs[..j + 1][j] && specs'[j] == specs'[..j + 1][j];
    assert specs[..j] == specs[..j + 1][..j] && specs'[..j] == specs'[..j + 1][..j];
    StartOfPrefix(specs, specs', rows, j);
  }

  lemma GoodIsPlanned(d: ColumnDesc, specs: seq<ColumnSpec>, rows: nat, i: nat)
    requires i < |specs| && rows <= U32_MAX && DescGood(d, rows, ColumnStart(specs, rows, i))
    requires specs[i] == ColumnSpec(FromRaw(d.tag).value, IsNullable(d.flags))
    ensures DescPlanned(d, specs, rows, i)
  {
    hide ValidityLen, ValuesLen, FrontBase, ColumnStart, CheckedValuesLen;
  }

  lemma PlannedIsGood(d: ColumnDesc, specs: seq<ColumnSpec>, rows: nat, i: nat)
    requires i < |specs| && rows <= U32_MAX && DescPlanned(d, specs, rows, i)
             && ColumnStart(specs, rows, i + 1) <= U32_MAX
    ensures DescGood(d, rows, ColumnStart(specs, rows, i))
  {
    hide ValidityLen, ValuesLen, FrontBase, CheckedValuesLen, ToRaw;
    TagRoundTrip(specs[i].tag);
    hide FromRaw;
    assert FromRaw(d.tag) == Some(specs[i].tag);
    assert CheckedValuesLen(specs[i].tag, rows).Ok?;
  }

  /** In a laid-out block every descriptor passes its checks. */
  lemma LaidOutGood(block: seq<byte>, h: BlockHeader, found: seq<ColumnSpec>, cursor: nat, specs: seq<ColumnSpec>)
    requires LaidOut(block, h, specs) && Checked(block, h, found, cursor) && |found| < h.colCount && HeaderFits(h)
    ensures DescGood(DescAt(block, |found|), h.maxRows, cursor)
  {
    hide ValidityLen, ValuesLen, FrontBase, DescAt, DescPlanned, DescGood, SpecOf, ColumnStart;
    var i := |found|;
    forall j | 0 <= j <= i ensures SpecOf(DescAt(block, j)) == Some(specs[j]) { SpecsRecovered(block, h, specs, j); }
    StartOfPrefix(Recovered(h.colCount, found), specs, h.maxRows, i);
    StartsGrow(specs, h.maxRows, i + 1, |specs|);
    PlannedIsGood(DescAt(block, i), specs, h.maxRows, i);
  }

  /** If a descriptor fails its checks, no specs lay the block out. */
  lemma DescRefuses(block: seq<byte>, h: BlockHeader, found: seq<ColumnSpec>, cursor: nat)
    requires |block| >= HEADER_LEN && h == HeaderAt(block) && HeaderFits(h)
    requires Checked(block, h, found, cursor) && |found| < h.colCount
             && !DescGood(DescAt(block, |found|), h.maxRows, cursor)
    ensures !Opens(block)
  {
    hide LaidOut, Checked, DescGood;
    if Opens(block) {
      var specs :| LaidOut(block, h, specs);
      LaidOutGood(block, h, found, cursor, specs);
    }
  }

  lemma PoolIsPlanned(block: seq<byte>, h: BlockHeader, found: seq<ColumnSpec>, cursor: nat, specs: seq<ColumnSpec>)
    requires LaidOut(block, h, specs) && Checked(block, h, found, cursor) && |found| == h.colCount
    ensures h.poolBase == cursor
  {
    hide ValidityLen, ValuesLen, FrontBase, DescAt;
    forall j | 0 <= j < |specs| ensures SpecOf(DescAt(block, j)) == Some(specs[j]) {
      SpecsRecovered(block, h, specs, j);
    }
    StartOfPrefix(Recovered(h.colCount, found), specs, h.maxRows, |specs|);
  }

  lemma PoolRefuses(block: seq<byte>, h: BlockHeader, found: seq<ColumnSpec>, cursor: nat)
    requires |block| >= HEADER_LEN && h == HeaderAt(block) && Checked(block, h, found, cursor) && |found| == h.colCount
    requires h.poolBase != cursor
    ensures !Opens(block)
  {
    hide LaidOut, Checked;
    if Opens(block) {
      var specs :| LaidOut(block, h, specs);
      PoolIsPlanned(block, h, found, cursor, specs);
    }
  }

  lemma AllChecked(block: seq<byte>, h: BlockHeader, found: seq<ColumnSpec>, cursor: nat)
    requires |block| >= HEADER_LEN && h == HeaderAt(block) && h.blockSize <= |block| && HeaderError(h, h.colCount).None?
    requires Checked(block, h, found, cursor) && |found| == h.colCount && h.poolBase == cursor
    ensures Opens(block)
  {
    hide ValidityLen, ValuesLen, FrontBase, DescAt;
    assert Recovered(h.colCount, found) == found;
    assert LaidOut(block, h, found);
  }

  // ---- Initializing a block ---------------------------------------------------------------------

  /** `LayoutPlan::block_header`. */
  function InitialHeader(plan: LayoutPlan): BlockHeader {
    BlockHeader(BLOCK_MAGIC, BLOCK_VERSION, 0, plan.blockSize, plan.maxRows, 0, |plan.columns|, 0, plan.frontBase,
                plan.poolBase, plan.blockSize, 0)
  }

  /** `ColumnLayout::desc`. */
  function InitialDesc(c: ColumnLayout): ColumnDesc {
    ColumnDesc(ToRaw(c.tag), c.flags, c.validityOff, c.valuesOff, 0, 0)
  }

  lemma InitialFits(plan: LayoutPlan, specs: seq<ColumnSpec>)
    requires IsPlan(plan, specs)
    ensures HeaderFits(InitialHeader(plan)) && DescOffset(|specs|) <= plan.frontBase <= plan.poolBase <= plan.blockSize
    ensures |plan.columns| == |specs|
    ensures forall i :: 0 <= i < |specs| ==> DescFits(InitialDesc(plan.columns[i]))
  {
    hide ValidityLen, ValuesLen, ToRaw;
    StartAligned(specs, plan.maxRows, |specs|);
    FrontBaseAfterPrefix(|specs|);
    hide FrontBase;
    forall i | 0 <= i < |specs| ensures DescFits(InitialDesc(plan.columns[i])) {
      StartsGrow(specs, plan.maxRows, i + 1, |specs|);
      RawSmall(specs[i].tag);
    }
  }

  lemma RawSmall(tag: TypeTag)
    ensures ToRaw(tag) <= 14
  {
  }

  lemma PlannedDesc(plan: LayoutPlan, specs: seq<ColumnSpec>, i: nat)
    requires IsPlan(plan, specs) && i < |specs|
    ensures DescPlanned(InitialDesc(plan.columns[i]), specs, plan.maxRows, i)
  {
    hide ValidityLen, ValuesLen, ToRaw, ColumnStart;
  }

  /** Storing a descriptor leaves the header and the other descriptors as they were. */
  lemma DescStored(block: seq<byte>, n: nat, i: nat, d: ColumnDesc)
    requires i < n && DescOffset(n) <= |block| && DescFits(d)
    ensures var block' := Splice(block, DescOffset(i), EncodeDesc(d));
            HeaderAt(block') == HeaderAt(block) && DescAt(block', i) == d
            && forall j: nat :: j < n && j != i ==> DescAt(block', j) == DescAt(block, j)
  {
    hide EncodeDesc, DecodeDesc, DecodeHeader, DescFits;
    var block' := Splice(block, DescOffset(i), EncodeDesc(d));
    DescRoundTrip(d);
    SpliceApart(block, DescOffset(i), EncodeDesc(d), 0, HEADER_LEN);
    forall j: nat | j < n && j != i ensures DescAt(block', j) == DescAt(block, j) {
      SpliceApart(block, DescOffset(i), EncodeDesc(d), DescOffset(j), DescOffset(j) + DESC_LEN);
    }
  }

  lemma HeaderStored(block: seq<byte>, n: nat, h: BlockHeader)
    requires DescOffset(n) <= |block| && HeaderFits(h)
    ensures var block' := Splice(block, 0, EncodeHeader(h));
            HeaderAt(block') == h && forall j: nat :: j < n ==> DescAt(block', j) == DescAt(block, j)
  {
    hide EncodeHeader, DecodeHeader, DecodeDesc, HeaderFits;
    HeaderRoundTrip(h);
    var block' := Splice(block, 0, EncodeHeader(h));
    assert block'[..HEADER_LEN] == block'[0..HEADER_LEN];
    forall j: nat | j < n ensures DescAt(block', j) == DescAt(block, j) {
      SpliceApart(block, 0, EncodeHeader(h), DescOffset(j), DescOffset(j) + DESC_LEN);
    }
  }

  /** `init_block`: the block becomes the empty block of the plan, so it opens. */
  method InitBlock(block: array<byte>, plan: LayoutPlan, ghost specs: seq<ColumnSpec>) returns (ok: bool)
    requires IsPlan(plan, specs)
    modifies block
    ensures ok <==> plan.blockSize <= block.Length
    ensures !ok ==> block[..] == old(block[..])
    ensures ok ==>
              LaidOut(block[..], InitialHeader(plan), specs) && HeaderAt(block[..]) == InitialHeader(plan)
                  && Opens(block[..])
    ensures ok ==> forall i :: 0 <= i < |specs| ==> DescAt(block[..], i) == InitialDesc(plan.columns[i])
  {
    hide EncodeHeader, EncodeDesc, HeaderFits, DescFits, HeaderAt, DescAt, IsPlan, LaidOut, InitialHeader,
        InitialDesc, Opens;
    if block.Length < plan.blockSize { return false; }
    InitialFits(plan, specs);
    Store(block, 0, Zeros(plan.blockSize));
    HeaderStored(block[..], |specs|, InitialHeader(plan));
    Store(block, 0, EncodeHeader(InitialHeader(plan)));
    for i := 0 to |plan.columns|
      invariant HeaderAt(block[..]) == InitialHeader(plan)
      invariant forall j :: 0 <= j < i ==> DescAt(block[..], j) == InitialDesc(plan.columns[j])
    {
      DescStored(block[..], |specs|, i, InitialDesc(plan.columns[i]));
      Store(block, DescOffset(i), EncodeDesc(InitialDesc(plan.columns[i])));
    }
    InitialLaidOut(block[..], plan, specs);
    ok := true;
  }

  lemma InitialLaidOut(block: seq<byte>, plan: LayoutPlan, specs: seq<ColumnSpec>)
    requires IsPlan(plan, specs) && DescOffset(|specs|) <= |block| && plan.blockSize <= |block|
    requires HeaderAt(block) == InitialHeader(plan)
    requires forall i :: 0 <= i < |specs| ==> DescAt(block, i) == InitialDesc(plan.columns[i])
    ensures LaidOut(block, InitialHeader(plan), specs) && Opens(block)
  {
    hide DescAt, HeaderAt, DescPlanned, PlannedColumn, ColumnStart;
    forall i | 0 <= i < |specs| ensures DescPlanned(DescAt(block, i), specs, plan.maxRows, i) {
      PlannedDesc(plan, specs, i);
    }
    assert LaidOut(block, InitialHeader(plan), specs);
  }

  // ---- ByteView slots ---------------------------------------------------------------------------------

  /** A 16-byte slot: a length, then the payload itself or prefix, buffer index and offset. */
  datatype ByteView = ByteView(len: int, data: seq<byte>)

  function ToI32(raw: nat): int
    requires raw <= U32_MAX
  {
    if raw <= I32_MAX then raw else raw - U32_MAX - 1
  }

  ghost predicate ViewFits(v: ByteView) {
    -(I32_MAX as int) - 1 <= v.len <= I32_MAX && |v.data| == INLINE_LEN
  }

  function EncodeView(v: ByteView): (bytes: seq<byte>)
    requires |v.data| == INLINE_LEN
    ensures |bytes| == VIEW_LEN
  {
    Le(if v.len >= 0 then v.len else if v.len + U32_MAX + 1 >= 0 then v.len + U32_MAX + 1 else 0, 4) + v.data
  }

  function DecodeView(bytes: seq<byte>): (v: ByteView)
    requires |bytes| == VIEW_LEN
    ensures |v.data| == INLINE_LEN
  {
    Widths();
    FromLeBound(bytes[..4]);
    ByteView(ToI32(FromLe(bytes[..4])), bytes[4..])
  }

  lemma ViewRoundTrip(v: ByteView)
    requires ViewFits(v)
    ensures DecodeView(EncodeView(v)) == v
  {
    Widths();
    LeRoundTrip(if v.len >= 0 then v.len else v.len + U32_MAX + 1, 4);
    assert EncodeView(v)[4..] == v.data;
  }

  /** `ByteView::new_inline` and `ByteView::new_outline`. */
  function InlineView(bytes: seq<byte>): (v: ByteView)
    requires |bytes| <= INLINE_LEN
    ensures ViewFits(v)
  {
    ByteView(|bytes|, bytes + Zeros(INLINE_LEN - |bytes|))
  }

  function OutlineView(bytes: seq<byte>, offset: nat): (v: ByteView)
    requires INLINE_LEN < |bytes| <= I32_MAX && offset <= I32_MAX
    ensures ViewFits(v)
  {
    ByteView(|bytes|, bytes[..4] + Le(0, 4) + Le(offset, 4))
  }

  /** The offset of an out-of-line value, as the reader sees it. */
  function ViewOffset(v: ByteView): Result<Option<nat>>
    requires |v.data| == INLINE_LEN
  {
    Widths();
    FromLeBound(v.data[8..12]);
    if v.len < 0 then Err(NegativeByteViewLength)
    else if v.len <= INLINE_LEN then Ok(None)
    else
      var offset := ToI32(FromLe(v.data[8..12]));
      if offset < 0 then Err(NegativeViewOffset) else Ok(Some(offset))
  }

  /** `ByteView::validate`. */
  function ViewError(v: ByteView, poolCapacity: nat): Option<LayoutError>
    requires |v.data| == INLINE_LEN
  {
    Widths();
    FromLeBound(v.data[4..8]);
    if v.len < 0 then Some(NegativeByteViewLength)
    else if v.len <= INLINE_LEN then None
    else if ToI32(FromLe(v.data[4..8])) != 0 then Some(InvalidViewBufferIndex)
    else
      var offset := ViewOffset(v);
      if offset.Err? then Some(offset.error)
      else if offset.value.value + v.len > U32_MAX then Some(SizeOverflow)
      else if offset.value.value + v.len > poolCapacity then Some(ViewOffsetOutOfBounds)
      else None
  }

  /** An outline view tells the reader its offset and length, and is valid exactly when its bytes lie in the pool. */
  lemma OutlineReads(bytes: seq<byte>, offset: nat, poolCapacity: nat)
    requires INLINE_LEN < |bytes| <= I32_MAX && offset <= I32_MAX && poolCapacity <= U32_MAX
    ensures var v := OutlineView(bytes, offset);
            && v.len == |bytes| && v.data[..4] == bytes[..4] && ViewOffset(v) == Ok(Some(offset))
            && (ViewError(v, poolCapacity).None? <==> offset + |bytes| <= poolCapacity)
  {
    hide Le, FromLe, Pow256;
    Widths();
    var v := OutlineView(bytes, offset);
    ThreeParts(bytes[..4], Le(0, 4), Le(offset, 4));
    LeRoundTrip(0, 4);
    LeRoundTrip(offset, 4);
  }

  lemma ThreeParts(a: seq<byte>, b: seq<byte>, c: seq<byte>)
    requires |a| == |b| == |c| == 4
    ensures (a + b + c)[..4] == a && (a + b + c)[4..8] == b && (a + b + c)[8..12] == c
  {
  }

  /** An inline view carries its payload, and is always valid. */
  lemma InlineReads(bytes: seq<byte>, poolCapacity: nat)
    requires |bytes| <= INLINE_LEN
    ensures var v := InlineView(bytes);
            v.len == |bytes| && v.data[..|bytes|] == bytes && ViewOffset(v) == Ok(None)
                && ViewError(v, poolCapacity).None?
  {
  }
}
