/** The scan specs inside a plan envelope: what they hold, how they are written and how they are read. */
module PlanWire {
  import opened Common
  import opened Bytes
  import opened MsgPack

  const SPEC_TAG: nat := 6          // an array length that is only ever compared: seven fields follow it
  const SPEC_VERSION: nat := 1
  const RELATION_TAG: nat := 2
  const HINTS_TAG: nat := 2
  const COMPILED_TAG: nat := 11
  const FILTER_TAG: nat := 2

  /** What decoding an embedded protobuf message comes to. `Short` is an underflow inside a complete payload. */
  datatype Proto = Whole | Short | Malformed

  datatype Relation = Relation(schema: Option<seq<byte>>, table: seq<byte>)
  datatype Filter = Filter(index: nat, sql: seq<byte>)
  datatype Columns = Columns(selected: seq<nat>, output: seq<nat>, filterOnly: seq<nat>, residual: seq<nat>)
  datatype Compiled = Compiled(sql: seq<byte>, requestedLimit: Option<nat>, sqlLimit: Option<nat>, columns: Columns,
                               pushed: seq<Filter>, residual: seq<seq<byte>>, allCompiled: bool, dummyProjection: bool)
  datatype Hints = Hints(fetch: Option<nat>, rowCap: Option<nat>)
  datatype ScanSpec = ScanSpec(scanId: nat, tableOid: nat, relation: Relation, compiled: Compiled, hints: Hints,
                               schema: seq<byte>)

  /** What the codec is built on: UTF-8, the protobuf decoders, and the check of a rebuilt spec. */
  datatype Codec = Codec(utf8: seq<byte> -> bool, expr: seq<byte> -> Proto, schema: seq<byte> -> Proto,
                         accepts: ScanSpec -> bool)

  // ---- Reading ---------------------------------------------------------------------------

  function ReadTag(b: seq<byte>, expected: nat): (r: Parsed<()>)
    ensures r.Got? ==> |r.rest| < |b|
  {
    var (n, b1) :- Read(ArrayLen, b);
    if n != expected then Bad(ArrayLength) else Got((), b1)
  }

  function ReadText(codec: Codec, b: seq<byte>): (r: Parsed<seq<byte>>)
    ensures r.Got? ==> |r.rest| < |b|
  {
    var (len, b1) :- Read(StrLen, b);
    var (text, b2) :- Take(b1, len);
    if codec.utf8(text) then Got(text, b2) else Bad(InvalidUtf8)
  }

  /** An underflow inside a complete message reads like bytes that have not arrived yet. */
  function ReadProto(verdict: seq<byte> -> Proto, b: seq<byte>): (r: Parsed<seq<byte>>)
    ensures r.Got? ==> |r.rest| < |b|
  {
    var (len, b1) :- Read(BinLen, b);
    var (message, b2) :- Take(b1, len);
    match verdict(message)
    case Whole => Got(message, b2)
    case Short => More
    case Malformed => Bad(BrokenProtobuf)
  }

  function ReadOptionalWord(b: seq<byte>): (r: Parsed<Option<nat>>)
    ensures r.Got? ==> |r.rest| < |b|
  {
    var (present, b1) :- Read(Flag, b);
    if present == 0 then Got(None, b1)
    else
      var (v, b2) :- Read(U64, b1);
      Got(Some(v), b2)
  }

  function ReadOptionalText(codec: Codec, b: seq<byte>): (r: Parsed<Option<seq<byte>>>)
    ensures r.Got? ==> |r.rest| < |b|
  {
    var (present, b1) :- Read(Flag, b);
    if present == 0 then Got(None, b1)
    else
      var (t, b2) :- ReadText(codec, b1);
      Got(Some(t), b2)
  }

  function ReadWords(b: seq<byte>, n: nat): (r: Parsed<seq<nat>>)
    ensures r.Got? ==> |r.rest| <= |b|
    decreases n
  {
    if n == 0 then Got([], b)
    else
      var (v, b1) :- Read(U64, b);
      var (vs, b2) :- ReadWords(b1, n - 1);
      Got([v] + vs, b2)
  }

  function ReadWordList(b: seq<byte>): (r: Parsed<seq<nat>>)
    ensures r.Got? ==> |r.rest| < |b|
  {
    var (n, b1) :- Read(ArrayLen, b);
    ReadWords(b1, n)
  }

  function ReadFilter(codec: Codec, b: seq<byte>): (r: Parsed<Filter>)
    ensures r.Got? ==> |r.rest| < |b|
  {
    var (_, b1) :- ReadTag(b, FILTER_TAG);
    var (index, b2) :- Read(U64, b1);
    var (sql, b3) :- ReadText(codec, b2);
    Got(Filter(index, sql), b3)
  }

  function ReadFilters(codec: Codec, b: seq<byte>, n: nat): (r: Parsed<seq<Filter>>)
    ensures r.Got? ==> |r.rest| <= |b|
    decreases n
  {
    if n == 0 then Got([], b)
    else
      var (f, b1) :- ReadFilter(codec, b);
      var (fs, b2) :- ReadFilters(codec, b1, n - 1);
      Got([f] + fs, b2)
  }

  function ReadFilterList(codec: Codec, b: seq<byte>): (r: Parsed<seq<Filter>>)
    ensures r.Got? ==> |r.rest| < |b|
  {
    var (n, b1) :- Read(ArrayLen, b);
    ReadFilters(codec, b1, n)
  }

  function ReadExprs(codec: Codec, b: seq<byte>, n: nat): (r: Parsed<seq<seq<byte>>>)
    ensures r.Got? ==> |r.rest| <= |b|
    decreases n
  {
    if n == 0 then Got([], b)
    else
      var (e, b1) :- ReadProto(codec.expr, b);
      var (es, b2) :- ReadExprs(codec, b1, n - 1);
      Got([e] + es, b2)
  }

  function ReadExprList(codec: Codec, b: seq<byte>): (r: Parsed<seq<seq<byte>>>)
    ensures r.Got? ==> |r.rest| < |b|
  {
    var (n, b1) :- Read(ArrayLen, b);
    ReadExprs(codec, b1, n)
  }

  function ReadRelation(codec: Codec, b: seq<byte>): (r: Parsed<Relation>)
    ensures r.Got? ==> |r.rest| < |b|
  {
    var (_, b1) :- ReadTag(b, RELATION_TAG);
    var (schema, b2) :- ReadOptionalText(codec, b1);
    var (table, b3) :- ReadText(codec, b2);
    Got(Relation(schema, table), b3)
  }

  function ReadColumns(b: seq<byte>): (r: Parsed<Columns>)
    ensures r.Got? ==> |r.rest| < |b|
  {
    var (selected, b1) :- ReadWordList(b);
    var (output, b2) :- ReadWordList(b1);
    var (filterOnly, b3) :- ReadWordList(b2);
    var (residual, b4) :- ReadWordList(b3);
    Got(Columns(selected, output, filterOnly, residual), b4)
  }

  function ReadCompiled(codec: Codec, b: seq<byte>): (r: Parsed<Compiled>)
    ensures r.Got? ==> |r.rest| < |b|
  {
    var (_, b1) :- ReadTag(b, COMPILED_TAG);
    var (sql, b2) :- ReadText(codec, b1);
    var (requested, b3) :- ReadOptionalWord(b2);
    var (limit, b4) :- ReadOptionalWord(b3);
    var (columns, b5) :- ReadColumns(b4);
    var (pushed, b6) :- ReadFilterList(codec, b5);
    var (residual, b7) :- ReadExprList(codec, b6);
    var (all, b8) :- Read(Flag, b7);
    var (dummy, b9) :- Read(Flag, b8);
    Got(Compiled(sql, requested, limit, columns, pushed, residual, all == 1, dummy == 1), b9)
  }

  function ReadHints(b: seq<byte>): (r: Parsed<Hints>)
    ensures r.Got? ==> |r.rest| < |b|
  {
    var (_, b1) :- ReadTag(b, HINTS_TAG);
    var (fetch, b2) :- ReadOptionalWord(b1);
    var (rowCap, b3) :- ReadOptionalWord(b2);
    Got(Hints(fetch, rowCap), b3)
  }

  function ReadSpec(codec: Codec, b: seq<byte>): (r: Parsed<ScanSpec>)
    ensures r.Got? ==> |r.rest| < |b|
  {
    var (_, b1) :- ReadTag(b, SPEC_TAG);
    var (version, b2) :- Read(U8, b1);
    if version != SPEC_VERSION then Bad(SpecVersion)
    else
      var (scanId, b3) :- Read(U64, b2);
      var (tableOid, b4) :- Read(U32, b3);
      var (relation, b5) :- ReadRelation(codec, b4);
      var (compiled, b6) :- ReadCompiled(codec, b5);
      var (hints, b7) :- ReadHints(b6);
      var (schema, b8) :- ReadProto(codec.schema, b7);
      var spec := ScanSpec(scanId, tableOid, relation, compiled, hints, schema);
      if codec.accepts(spec) then Got(spec, b8) else Bad(SpecRejected)
  }

  // ---- More input never changes a verdict ---------------------------------------------------

  lemma TagStable(b: seq<byte>, expected: nat, c: seq<byte>)
    ensures Extends(ReadTag(b, expected), ReadTag(b + c, expected), c)
  {
    hide Read;
    ReadStable(ArrayLen, b, c);
  }

  lemma TextStable(codec: Codec, b: seq<byte>, c: seq<byte>)
    ensures Extends(ReadText(codec, b), ReadText(codec, b + c), c)
  {
    hide Read, Take;
    ReadStable(StrLen, b, c);
    var len := Read(StrLen, b);
    if len.Got? { TakeStable(len.rest, len.value, c); }
  }

  lemma ProtoStable(verdict: seq<byte> -> Proto, b: seq<byte>, c: seq<byte>)
    ensures Extends(ReadProto(verdict, b), ReadProto(verdict, b + c), c)
  {
    hide Read, Take;
    ReadStable(BinLen, b, c);
    var len := Read(BinLen, b);
    if len.Got? { TakeStable(len.rest, len.value, c); }
  }

  lemma OptionalWordStable(b: seq<byte>, c: seq<byte>)
    ensures Extends(ReadOptionalWord(b), ReadOptionalWord(b + c), c)
  {
    hide Read;
    ReadStable(Flag, b, c);
    var present := Read(Flag, b);
    if present.Got? { ReadStable(U64, present.rest, c); }
  }

  lemma OptionalTextStable(codec: Codec, b: seq<byte>, c: seq<byte>)
    ensures Extends(ReadOptionalText(codec, b), ReadOptionalText(codec, b + c), c)
  {
    hide Read, ReadText;
    ReadStable(Flag, b, c);
    var present := Read(Flag, b);
    if present.Got? { TextStable(codec, present.rest, c); }
  }

  lemma {:induction false} WordsStable(b: seq<byte>, n: nat, c: seq<byte>)
    ensures Extends(ReadWords(b, n), ReadWords(b + c, n), c)
    decreases n
  {
    hide Read;
    if n > 0 {
      ReadStable(U64, b, c);
      var v := Read(U64, b);
      if v.Got? { WordsStable(v.rest, n - 1, c); }
    }
  }

  lemma WordListStable(b: seq<byte>, c: seq<byte>)
    ensures Extends(ReadWordList(b), ReadWordList(b + c), c)
  {
    hide Read, ReadWords;
    ReadStable(ArrayLen, b, c);
    var n := Read(ArrayLen, b);
    if n.Got? { WordsStable(n.rest, n.value, c); }
  }

  lemma FilterStable(codec: Codec, b: seq<byte>, c: seq<byte>)
    ensures Extends(ReadFilter(codec, b), ReadFilter(codec, b + c), c)
  {
    hide Read, ReadText, ReadTag;
    TagStable(b, FILTER_TAG, c);
    var tag := ReadTag(b, FILTER_TAG);
    if tag.Got? {
      ReadStable(U64, tag.rest, c);
      var index := Read(U64, tag.rest);
      if index.Got? { TextStable(codec, index.rest, c); }
    }
  }

  lemma {:induction false} FiltersStable(codec: Codec, b: seq<byte>, n: nat, c: seq<byte>)
    ensures Extends(ReadFilters(codec, b, n), ReadFilters(codec, b + c, n), c)
    decreases n
  {
    hide ReadFilter;
    if n > 0 {
      FilterStable(codec, b, c);
      var f := ReadFilter(codec, b);
      if f.Got? { FiltersStable(codec, f.rest, n - 1, c); }
    }
  }

  lemma FilterListStable(codec: Codec, b: seq<byte>, c: seq<byte>)
    ensures Extends(ReadFilterList(codec, b), ReadFilterList(codec, b + c), c)
  {
    hide Read, ReadFilters;
    ReadStable(ArrayLen, b, c);
    var n := Read(ArrayLen, b);
    if n.Got? { FiltersStable(codec, n.rest, n.value, c); }
  }

  lemma {:induction false} ExprsStable(codec: Codec, b: seq<byte>, n: nat, c: seq<byte>)
    ensures Extends(ReadExprs(codec, b, n), ReadExprs(codec, b + c, n), c)
    decreases n
  {
    hide ReadProto;
    if n > 0 {
      ProtoStable(codec.expr, b, c);
      var e := ReadProto(codec.expr, b);
      if e.Got? { ExprsStable(codec, e.rest, n - 1, c); }
    }
  }

  lemma ExprListStable(codec: Codec, b: seq<byte>, c: seq<byte>)
    ensures Extends(ReadExprList(codec, b), ReadExprList(codec, b + c), c)
  {
    hide Read, ReadExprs;
    ReadStable(ArrayLen, b, c);
    var n := Read(ArrayLen, b);
    if n.Got? { ExprsStable(codec, n.rest, n.value, c); }
  }

  lemma RelationStable(codec: Codec, b: seq<byte>, c: seq<byte>)
    ensures Extends(ReadRelation(codec, b), ReadRelation(codec, b + c), c)
  {
    hide ReadTag, ReadText, ReadOptionalText;
    TagStable(b, RELATION_TAG, c);
    var tag := ReadTag(b, RELATION_TAG);
    if tag.Got? {
      OptionalTextStable(codec, tag.rest, c);
      var schema := ReadOptionalText(codec, tag.rest);
      if schema.Got? { TextStable(codec, schema.rest, c); }
    }
  }

  lemma ColumnsStable(b: seq<byte>, c: seq<byte>)
    ensures Extends(ReadColumns(b), ReadColumns(b + c), c)
  {
    hide ReadWordList;
    WordListStable(b, c);
    var r1 := ReadWordList(b);
    if r1.Got? {
      WordListStable(r1.rest, c);
      var r2 := ReadWordList(r1.rest);
      if r2.Got? {
        WordListStable(r2.rest, c);
        var r3 := ReadWordList(r2.rest);
        if r3.Got? { WordListStable(r3.rest, c); }
      }
    }
  }

  lemma CompiledStable(codec: Codec, b: seq<byte>, c: seq<byte>)
    ensures Extends(ReadCompiled(codec, b), ReadCompiled(codec, b + c), c)
  {
    hide Read, ReadTag, ReadText, ReadOptionalWord, ReadColumns, ReadFilterList, ReadExprList;
    TagStable(b, COMPILED_TAG, c);
    var r1 := ReadTag(b, COMPILED_TAG);
    if r1.IsFailure() { return; }
    TextStable(codec, r1.rest, c);
    var r2 := ReadText(codec, r1.rest);
    if r2.IsFailure() { return; }
    OptionalWordStable(r2.rest, c);
    var r3 := ReadOptionalWord(r2.rest);
    if r3.IsFailure() { return; }
    OptionalWordStable(r3.rest, c);
    var r4 := ReadOptionalWord(r3.rest);
    if r4.IsFailure() { return; }
    ColumnsStable(r4.rest, c);
    var r5 := ReadColumns(r4.rest);
    if r5.IsFailure() { return; }
    FilterListStable(codec, r5.rest, c);
    var r6 := ReadFilterList(codec, r5.rest);
    if r6.IsFailure() { return; }
    ExprListStable(codec, r6.rest, c);
    var r7 := ReadExprList(codec, r6.rest);
    if r7.IsFailure() { return; }
    ReadStable(Flag, r7.rest, c);
    var r8 := Read(Flag, r7.rest);
    if r8.Got? { ReadStable(Flag, r8.rest, c); }
  }

  lemma HintsStable(b: seq<byte>, c: seq<byte>)
    ensures Extends(ReadHints(b), ReadHints(b + c), c)
  {
    hide ReadTag, ReadOptionalWord;
    TagStable(b, HINTS_TAG, c);
    var tag := ReadTag(b, HINTS_TAG);
    if tag.Got? {
      OptionalWordStable(tag.rest, c);
      var fetch := ReadOptionalWord(tag.rest);
      if fetch.Got? { OptionalWordStable(fetch.rest, c); }
    }
  }

  /** A spec that has been read, or refused, stays so however many bytes follow. */
  lemma SpecStable(codec: Codec, b: seq<byte>, c: seq<byte>)
    ensures Extends(ReadSpec(codec, b), ReadSpec(codec, b + c), c)
  {
    hide Read, ReadTag, ReadRelation, ReadCompiled, ReadHints, ReadProto;
    TagStable(b, SPEC_TAG, c);
    var r1 := ReadTag(b, SPEC_TAG);
    if r1.IsFailure() { return; }
    ReadStable(U8, r1.rest, c);
    var r2 := Read(U8, r1.rest);
    if r2.IsFailure() { return; }
    ReadStable(U64, r2.rest, c);
    var r3 := Read(U64, r2.rest);
    if r3.IsFailure() { return; }
    ReadStable(U32, r3.rest, c);
    var r4 := Read(U32, r3.rest);
    if r4.IsFailure() { return; }
    RelationStable(codec, r4.rest, c);
    var r5 := ReadRelation(codec, r4.rest);
    if r5.IsFailure() { return; }
    CompiledStable(codec, r5.rest, c);
    var r6 := ReadCompiled(codec, r5.rest);
    if r6.IsFailure() { return; }
    HintsStable(r6.rest, c);
    var r7 := ReadHints(r6.rest);
    if r7.Got? { ProtoStable(codec.schema, r7.rest, c); }
  }

  // ---- Writing ---------------------------------------------------------------------------

  predicate WordsFit(vs: seq<nat>) { |vs| <= U32_MAX && forall i :: 0 <= i < |vs| ==> vs[i] <= U64_MAX }

  predicate OptionFits(v: Option<nat>) { v.Some? ==> v.value <= U64_MAX }

  predicate RelationFits(r: Relation) { (r.schema.Some? ==> |r.schema.value| <= U32_MAX) && |r.table| <= U32_MAX }

  predicate FilterFits(f: Filter) { f.index <= U64_MAX && |f.sql| <= U32_MAX }

  predicate ColumnsFit(c: Columns) { WordsFit(c.selected) && WordsFit(c.output) && WordsFit(c.filterOnly)
                                    && WordsFit(c.residual) }

  predicate CompiledFits(c: Compiled) {
    && |c.sql| <= U32_MAX && OptionFits(c.requestedLimit) && OptionFits(c.sqlLimit) && ColumnsFit(c.columns)
    && |c.pushed| <= U32_MAX && (forall i :: 0 <= i < |c.pushed| ==> FilterFits(c.pushed[i]))
    && |c.residual| <= U32_MAX && (forall i :: 0 <= i < |c.residual| ==> |c.residual[i]| <= U32_MAX)
  }

  /** The counts and lengths that the wire format has room for. */
  predicate SpecFits(s: ScanSpec) {
    && s.scanId <= U64_MAX && s.tableOid <= U32_MAX && RelationFits(s.relation) && CompiledFits(s.compiled)
    && OptionFits(s.hints.fetch) && OptionFits(s.hints.rowCap) && |s.schema| <= U32_MAX
  }

  function WriteText(t: seq<byte>): seq<byte>
    requires |t| <= U32_MAX
  {
    Write(StrLen, |t|) + t
  }

  function WriteProto(m: seq<byte>): seq<byte>
    requires |m| <= U32_MAX
  {
    Write(BinLen, |m|) + m
  }

  function WriteOptionalWord(v: Option<nat>): seq<byte>
    requires OptionFits(v)
  {
    if v.Some? then Write(Flag, 1) + Write(U64, v.value) else Write(Flag, 0)
  }

  function WriteOptionalText(t: Option<seq<byte>>): seq<byte>
    requires t.Some? ==> |t.value| <= U32_MAX
  {
    if t.Some? then Write(Flag, 1) + WriteText(t.value) else Write(Flag, 0)
  }

  function WriteWords(vs: seq<nat>): seq<byte>
    requires forall i :: 0 <= i < |vs| ==> vs[i] <= U64_MAX
  {
    if vs == [] then [] else Write(U64, vs[0]) + WriteWords(vs[1..])
  }

  function WriteWordList(vs: seq<nat>): seq<byte>
    requires WordsFit(vs)
  {
    Write(ArrayLen, |vs|) + WriteWords(vs)
  }

  function WriteFilter(f: Filter): seq<byte>
    requires FilterFits(f)
  {
    Write(ArrayLen, FILTER_TAG) + Write(U64, f.index) + WriteText(f.sql)
  }

  function WriteFilters(fs: seq<Filter>): seq<byte>
    requires forall i :: 0 <= i < |fs| ==> FilterFits(fs[i])
  {
    if fs == [] then [] else WriteFilter(fs[0]) + WriteFilters(fs[1..])
  }

  function WriteExprs(es: seq<seq<byte>>): seq<byte>
    requires forall i :: 0 <= i < |es| ==> |es[i]| <= U32_MAX
  {
    if es == [] then [] else WriteProto(es[0]) + WriteExprs(es[1..])
  }

  function WriteRelation(r: Relation): seq<byte>
    requires RelationFits(r)
  {
    Write(ArrayLen, RELATION_TAG) + WriteOptionalText(r.schema) + WriteText(r.table)
  }

  function WriteColumns(c: Columns): seq<byte>
    requires ColumnsFit(c)
  {
    WriteWordList(c.selected) + WriteWordList(c.output) + WriteWordList(c.filterOnly) + WriteWordList(c.residual)
  }

  function WriteFlag(b: bool): seq<byte> { Write(Flag, if b then 1 else 0) }

  function WriteCompiled(c: Compiled): seq<byte>
    requires CompiledFits(c)
  {
    Write(ArrayLen,
          COMPILED_TAG) + WriteText(c.sql) + WriteOptionalWord(c.requestedLimit) + WriteOptionalWord(c.sqlLimit)
    + WriteColumns(c.columns) + (Write(ArrayLen, |c.pushed|) + WriteFilters(c.pushed))
    + (Write(ArrayLen, |c.residual|) + WriteExprs(c.residual)) + WriteFlag(c.allCompiled) + WriteFlag(c.dummyProjection)
  }

  function WriteHints(h: Hints): seq<byte>
    requires OptionFits(h.fetch) && OptionFits(h.rowCap)
  {
    Write(ArrayLen, HINTS_TAG) + WriteOptionalWord(h.fetch) + WriteOptionalWord(h.rowCap)
  }

  /** `encode_pg_scan_spec_into`, one piece for each field it puts into the sink. */
  function SpecPieces(s: ScanSpec): seq<seq<byte>>
    requires SpecFits(s)
  {
    [Write(ArrayLen, SPEC_TAG), Write(U8, SPEC_VERSION), Write(U64, s.scanId), Write(U32, s.tableOid),
     WriteRelation(s.relation), WriteCompiled(s.compiled), WriteHints(s.hints), WriteProto(s.schema)]
  }

  function Flat(pieces: seq<seq<byte>>): seq<byte> {
    if pieces == [] then [] else pieces[0] + Flat(pieces[1..])
  }

  function WriteSpec(s: ScanSpec): seq<byte>
    requires SpecFits(s)
  {
    Flat(SpecPieces(s))
  }

  // ---- What is written is read back -----------------------------------------------------------

  /** Texts are UTF-8, messages decode, and the rebuilt spec is accepted. */
  ghost predicate Readable(codec: Codec, s: ScanSpec) {
    && TextsGood(codec, s)
    && (forall i :: 0 <= i < |s.compiled.residual| ==> codec.expr(s.compiled.residual[i]) == Whole)
    && codec.schema(s.schema) == Whole && codec.accepts(s)
  }

  lemma Joined(a: seq<byte>, b: seq<byte>, c: seq<byte>)
    ensures (a + b) + c == a + (b + c)
  {
  }

  lemma TagWritten(n: nat, rest: seq<byte>)
    requires n <= U32_MAX
    ensures ReadTag(Write(ArrayLen, n) + rest, n) == Got((), rest)
  {
    hide Read, Write;
    ReadWritten(ArrayLen, n, rest);
  }

  lemma TextWritten(codec: Codec, t: seq<byte>, rest: seq<byte>)
    requires |t| <= U32_MAX
    ensures ReadText(codec, WriteText(t) + rest) == if codec.utf8(t) then Got(t, rest) else Bad(InvalidUtf8)
  {
    hide Read, Write, Take;
    assert WriteText(t) + rest == Write(StrLen, |t|) + (t + rest);
    ReadWritten(StrLen, |t|, t + rest);
    TakeWritten(t, rest);
  }

  /** What reading comes to once a complete message has been judged. */
  function Judged<T>(verdict: Proto, value: T, rest: seq<byte>): Parsed<T> {
    match verdict
    case Whole => Got(value, rest)
    case Short => More
    case Malformed => Bad(BrokenProtobuf)
  }

  lemma ProtoWritten(verdict: seq<byte> -> Proto, m: seq<byte>, rest: seq<byte>)
    requires |m| <= U32_MAX
    ensures ReadProto(verdict, WriteProto(m) + rest) == Judged(verdict(m), m, rest)
  {
    hide Read, Write, Take;
    assert WriteProto(m) + rest == Write(BinLen, |m|) + (m + rest);
    ReadWritten(BinLen, |m|, m + rest);
    TakeWritten(m, rest);
  }

  /** A message whose decoding underflows is waited on for ever: no bytes after it turn the wait into an error. */
  lemma UnderflowWaits(verdict: seq<byte> -> Proto, m: seq<byte>, rest: seq<byte>)
    requires |m| <= U32_MAX && verdict(m) == Short
    ensures ReadProto(verdict, WriteProto(m) + rest) == More
  {
    hide ReadProto, WriteProto;
    ProtoWritten(verdict, m, rest);
  }

  lemma OptionalWordWritten(v: Option<nat>, rest: seq<byte>)
    requires OptionFits(v)
    ensures ReadOptionalWord(WriteOptionalWord(v) + rest) == Got(v, rest)
  {
    hide Read, Write;
    if v.Some? {
      assert WriteOptionalWord(v) + rest == Write(Flag, 1) + (Write(U64, v.value) + rest);
      ReadWritten(Flag, 1, Write(U64, v.value) + rest);
      ReadWritten(U64, v.value, rest);
    } else {
      ReadWritten(Flag, 0, rest);
    }
  }

  lemma OptionalTextWritten(codec: Codec, t: Option<seq<byte>>, rest: seq<byte>)
    requires t.Some? ==> |t.value| <= U32_MAX
    ensures ReadOptionalText(codec, WriteOptionalText(t) + rest)
            == if t.Some? && !codec.utf8(t.value) then Bad(InvalidUtf8) else Got(t, rest)
  {
    hide Read, Write, ReadText, WriteText;
    if t.Some? {
      assert WriteOptionalText(t) + rest == Write(Flag, 1) + (WriteText(t.value) + rest);
      ReadWritten(Flag, 1, WriteText(t.value) + rest);
      TextWritten(codec, t.value, rest);
    } else {
      ReadWritten(Flag, 0, rest);
    }
  }

  lemma {:induction false} WordsWritten(vs: seq<nat>, rest: seq<byte>)
    requires forall i :: 0 <= i < |vs| ==> vs[i] <= U64_MAX
    ensures ReadWords(WriteWords(vs) + rest, |vs|) == Got(vs, rest)
    decreases |vs|
  {
    hide Read, Write;
    if vs == [] {
      assert WriteWords(vs) + rest == rest;
    } else {
      var tail := vs[1..];
      var next := WriteWords(tail) + rest;
      assert WriteWords(vs) == Write(U64, vs[0]) + WriteWords(tail);
      Joined(Write(U64, vs[0]), WriteWords(tail), rest);
      ReadWritten(U64, vs[0], next);
      WordsWritten(tail, rest);
      assert [vs[0]] + tail == vs;
    }
  }

  lemma WordListWritten(vs: seq<nat>, rest: seq<byte>)
    requires WordsFit(vs)
    ensures ReadWordList(WriteWordList(vs) + rest) == Got(vs, rest)
  {
    hide Read, Write, ReadWords, WriteWords;
    assert WriteWordList(vs) + rest == Write(ArrayLen, |vs|) + (WriteWords(vs) + rest);
    ReadWritten(ArrayLen, |vs|, WriteWords(vs) + rest);
    WordsWritten(vs, rest);
  }

  lemma FilterWritten(codec: Codec, f: Filter, rest: seq<byte>)
    requires FilterFits(f)
    ensures ReadFilter(codec, WriteFilter(f) + rest) == if codec.utf8(f.sql) then Got(f, rest) else Bad(InvalidUtf8)
  {
    hide Read, Write, ReadTag, ReadText, WriteText;
    var r2 := WriteText(f.sql) + rest;
    var r1 := Write(U64, f.index) + r2;
    assert WriteFilter(f) + rest == Write(ArrayLen, FILTER_TAG) + r1;
    TagWritten(FILTER_TAG, r1);
    ReadWritten(U64, f.index, r2);
    TextWritten(codec, f.sql, rest);
  }

  ghost predicate FilterTexts(codec: Codec, fs: seq<Filter>) {
    forall i :: 0 <= i < |fs| ==> codec.utf8(fs[i].sql)
  }

  lemma {:induction false} FiltersWritten(codec: Codec, fs: seq<Filter>, rest: seq<byte>)
    requires forall i :: 0 <= i < |fs| ==> FilterFits(fs[i])
    ensures ReadFilters(codec, WriteFilters(fs) + rest, |fs|)
            == if FilterTexts(codec, fs) then Got(fs, rest) else Bad(InvalidUtf8)
    decreases |fs|
  {
    hide ReadFilter, WriteFilter;
    if fs == [] {
      assert WriteFilters(fs) + rest == rest;
    } else {
      var next := WriteFilters(fs[1..]) + rest;
      assert WriteFilters(fs) + rest == WriteFilter(fs[0]) + next;
      FilterWritten(codec, fs[0], next);
      if codec.utf8(fs[0].sql) {
        FiltersWritten(codec, fs[1..], rest);
        if FilterTexts(codec, fs[1..]) {
          forall i | 0 <= i < |fs| ensures codec.utf8(fs[i].sql) { if i > 0 { assert fs[i] == fs[1..][i - 1]; } }
        }
      }
      assert [fs[0]] + fs[1..] == fs;
    }
  }

  lemma FilterListWritten(codec: Codec, fs: seq<Filter>, rest: seq<byte>)
    requires |fs| <= U32_MAX && forall i :: 0 <= i < |fs| ==> FilterFits(fs[i])
    ensures ReadFilterList(codec, (Write(ArrayLen, |fs|) + WriteFilters(fs)) + rest)
            == if FilterTexts(codec, fs) then Got(fs, rest) else Bad(InvalidUtf8)
  {
    hide Read, Write, ReadFilters, WriteFilters, FilterTexts;
    assert (Write(ArrayLen, |fs|) + WriteFilters(fs)) + rest == Write(ArrayLen, |fs|) + (WriteFilters(fs) + rest);
    ReadWritten(ArrayLen, |fs|, WriteFilters(fs) + rest);
    FiltersWritten(codec, fs, rest);
  }

  /** The first message that is not whole decides. */
  function ExprsVerdict(codec: Codec, es: seq<seq<byte>>): Proto {
    if es == [] then Whole
    else if codec.expr(es[0]) != Whole then codec.expr(es[0])
    else ExprsVerdict(codec, es[1..])
  }

  lemma {:induction false} ExprsWritten(codec: Codec, es: seq<seq<byte>>, rest: seq<byte>)
    requires forall i :: 0 <= i < |es| ==> |es[i]| <= U32_MAX
    ensures ReadExprs(codec, WriteExprs(es) + rest, |es|) == Judged(ExprsVerdict(codec, es), es, rest)
    decreases |es|
  {
    hide ReadProto, WriteProto;
    if es == [] {
      assert WriteExprs(es) + rest == rest;
    } else {
      var next := WriteExprs(es[1..]) + rest;
      assert WriteExprs(es) + rest == WriteProto(es[0]) + next;
      ProtoWritten(codec.expr, es[0], next);
      ExprsWritten(codec, es[1..], rest);
      assert [es[0]] + es[1..] == es;
    }
  }

  lemma ExprListWritten(codec: Codec, es: seq<seq<byte>>, rest: seq<byte>)
    requires |es| <= U32_MAX && forall i :: 0 <= i < |es| ==> |es[i]| <= U32_MAX
    ensures ReadExprList(codec, (Write(ArrayLen, |es|) + WriteExprs(es)) + rest)
            == Judged(ExprsVerdict(codec, es), es, rest)
  {
    hide Read, Write, ReadExprs, WriteExprs, ExprsVerdict;
    assert (Write(ArrayLen, |es|) + WriteExprs(es)) + rest == Write(ArrayLen, |es|) + (WriteExprs(es) + rest);
    ReadWritten(ArrayLen, |es|, WriteExprs(es) + rest);
    ExprsWritten(codec, es, rest);
  }

  ghost predicate RelationTexts(codec: Codec, r: Relation) {
    (r.schema.Some? ==> codec.utf8(r.schema.value)) && codec.utf8(r.table)
  }

  lemma RelationWritten(codec: Codec, r: Relation, rest: seq<byte>)
    requires RelationFits(r)
    ensures ReadRelation(codec, WriteRelation(r) + rest)
            == if RelationTexts(codec, r) then Got(r, rest) else Bad(InvalidUtf8)
  {
    hide Write, ReadTag, ReadText, WriteText, ReadOptionalText, WriteOptionalText;
    var r2 := WriteText(r.table) + rest;
    var r1 := WriteOptionalText(r.schema) + r2;
    assert WriteRelation(r) + rest == Write(ArrayLen, RELATION_TAG) + r1;
    TagWritten(RELATION_TAG, r1);
    OptionalTextWritten(codec, r.schema, r2);
    TextWritten(codec, r.table, rest);
  }

  lemma ColumnsWritten(c: Columns, rest: seq<byte>)
    requires ColumnsFit(c)
    ensures ReadColumns(WriteColumns(c) + rest) == Got(c, rest)
  {
    hide ReadWordList, WriteWordList, WordsFit;
    var r3 := WriteWordList(c.residual) + rest;
    var r2 := WriteWordList(c.filterOnly) + r3;
    var r1 := WriteWordList(c.output) + r2;
    assert WriteColumns(c) + rest == WriteWordList(c.selected) + r1;
    WordListWritten(c.selected, r1);
    WordListWritten(c.output, r2);
    WordListWritten(c.filterOnly, r3);
    WordListWritten(c.residual, rest);
  }

  lemma FlagWritten(b: bool, rest: seq<byte>)
    ensures Read(Flag, WriteFlag(b) + rest) == Got(if b then 1 else 0, rest)
  {
    hide Read, Write;
    ReadWritten(Flag, if b then 1 else 0, rest);
  }

  /** A compiled scan as its fields from the `|residual|` list on, one after the other. */
  function ResidualOn(c: Compiled, rest: seq<byte>): seq<byte>
    requires CompiledFits(c)
  {
    (Write(ArrayLen, |c.residual|) + WriteExprs(c.residual))
    + (WriteFlag(c.allCompiled) + (WriteFlag(c.dummyProjection) + rest))
  }

  lemma CompiledPieces(c: Compiled, rest: seq<byte>)
    requires CompiledFits(c)
    ensures WriteCompiled(c) + rest
            == Write(ArrayLen, COMPILED_TAG)
               + (WriteText(c.sql) + (WriteOptionalWord(c.requestedLimit) + (WriteOptionalWord(c.sqlLimit)
               + (WriteColumns(c.columns)
               + ((Write(ArrayLen, |c.pushed|) + WriteFilters(c.pushed)) + ResidualOn(c, rest))))))
  {
    hide Write, WriteText, WriteOptionalWord, WriteColumns, WriteFilters, WriteExprs, WriteFlag, FilterFits, ColumnsFit;
    var r8 := WriteFlag(c.dummyProjection) + rest;
    var r7 := WriteFlag(c.allCompiled) + r8;
    var r6 := (Write(ArrayLen, |c.residual|) + WriteExprs(c.residual)) + r7;
    var r5 := (Write(ArrayLen, |c.pushed|) + WriteFilters(c.pushed)) + r6;
    var r4 := WriteColumns(c.columns) + r5;
    var r3 := WriteOptionalWord(c.sqlLimit) + r4;
    var r2 := WriteOptionalWord(c.requestedLimit) + r3;
    var x1 := Write(ArrayLen, COMPILED_TAG);
    var x2 := x1 + WriteText(c.sql);
    var x3 := x2 + WriteOptionalWord(c.requestedLimit);
    var x4 := x3 + WriteOptionalWord(c.sqlLimit);
    var x5 := x4 + WriteColumns(c.columns);
    var x6 := x5 + (Write(ArrayLen, |c.pushed|) + WriteFilters(c.pushed));
    var x7 := x6 + (Write(ArrayLen, |c.residual|) + WriteExprs(c.residual));
    var x8 := x7 + WriteFlag(c.allCompiled);
    Joined(x8, WriteFlag(c.dummyProjection), rest);
    Joined(x7, WriteFlag(c.allCompiled), r8);
    Joined(x6, Write(ArrayLen, |c.residual|) + WriteExprs(c.residual), r7);
    Joined(x5, Write(ArrayLen, |c.pushed|) + WriteFilters(c.pushed), r6);
    Joined(x4, WriteColumns(c.columns), r5);
    Joined(x3, WriteOptionalWord(c.sqlLimit), r4);
    Joined(x2, WriteOptionalWord(c.requestedLimit), r3);
    Joined(x1, WriteText(c.sql), r2);
  }

  ghost predicate CompiledTexts(codec: Codec, c: Compiled) { codec.utf8(c.sql) && FilterTexts(codec, c.pushed) }

  /** Everything before the residual expressions is read back, and then they are. */
  lemma CompiledUpTo(codec: Codec, c: Compiled, rest: seq<byte>)
    requires CompiledFits(c)
    ensures !CompiledTexts(codec, c) ==> ReadCompiled(codec, WriteCompiled(c) + rest) == Bad(InvalidUtf8)
    ensures CompiledTexts(codec, c) ==>
              var r := ReadExprList(codec, ResidualOn(c, rest));
              ReadCompiled(codec, WriteCompiled(c) + rest)
              == match r
                 case More => More
                 case Bad(error) => Bad(error)
                 case Got(residual, b7) =>
                   var (all, b8) :- Read(Flag, b7);
                   var (dummy, b9) :- Read(Flag, b8);
                   Got(Compiled(c.sql, c.requestedLimit, c.sqlLimit, c.columns, c.pushed, residual, all == 1,
                                dummy == 1), b9)
  {
    hide Read, Write, ReadTag, ReadText, WriteText, ReadOptionalWord, WriteOptionalWord, ReadColumns, WriteColumns;
    hide ReadFilterList, WriteFilters, ReadExprList, WriteExprs, WriteFlag, FilterFits, ColumnsFit, ResidualOn,
        FilterTexts;
    CompiledPieces(c, rest);
    var r6 := ResidualOn(c, rest);
    var r5 := (Write(ArrayLen, |c.pushed|) + WriteFilters(c.pushed)) + r6;
    var r4 := WriteColumns(c.columns) + r5;
    var r3 := WriteOptionalWord(c.sqlLimit) + r4;
    var r2 := WriteOptionalWord(c.requestedLimit) + r3;
    TagWritten(COMPILED_TAG, WriteText(c.sql) + r2);
    TextWritten(codec, c.sql, r2);
    OptionalWordWritten(c.requestedLimit, r3);
    OptionalWordWritten(c.sqlLimit, r4);
    ColumnsWritten(c.columns, r5);
    FilterListWritten(codec, c.pushed, r6);
  }

  lemma CompiledWritten(codec: Codec, c: Compiled, rest: seq<byte>)
    requires CompiledFits(c)
    ensures ReadCompiled(codec, WriteCompiled(c) + rest)
            == if CompiledTexts(codec, c) then Judged(ExprsVerdict(codec, c.residual), c, rest) else Bad(InvalidUtf8)
  {
    hide Read, ReadCompiled, WriteCompiled, ReadExprList, WriteExprs, WriteFlag, FilterFits, ColumnsFit, ExprsVerdict,
        CompiledTexts;
    CompiledUpTo(codec, c, rest);
    ExprListWritten(codec, c.residual, WriteFlag(c.allCompiled) + (WriteFlag(c.dummyProjection) + rest));
    FlagWritten(c.allCompiled, WriteFlag(c.dummyProjection) + rest);
    FlagWritten(c.dummyProjection, rest);
  }

  lemma HintsWritten(h: Hints, rest: seq<byte>)
    requires OptionFits(h.fetch) && OptionFits(h.rowCap)
    ensures ReadHints(WriteHints(h) + rest) == Got(h, rest)
  {
    hide Write, ReadTag, ReadOptionalWord, WriteOptionalWord;
    var r2 := WriteOptionalWord(h.rowCap) + rest;
    var r1 := WriteOptionalWord(h.fetch) + r2;
    assert WriteHints(h) + rest == Write(ArrayLen, HINTS_TAG) + r1;
    TagWritten(HINTS_TAG, r1);
    OptionalWordWritten(h.fetch, r2);
    OptionalWordWritten(h.rowCap, rest);
  }

  /** The eight pieces of a spec, one after the other. */
  lemma FlatSpec(p: seq<seq<byte>>, rest: seq<byte>)
    requires |p| == 8
    ensures Flat(p) + rest == p[0] + (p[1] + (p[2] + (p[3] + (p[4] + (p[5] + (p[6] + (p[7] + rest)))))))
  {
    hide Flat;
    FlatTwo(p, rest);
    FlatTwo(p[2..], rest);
    FlatTwo(p[4..], rest);
    FlatTwo(p[6..], rest);
    FlatNone(rest);
    assert p[2..][2..] == p[4..] && p[4..][2..] == p[6..] && p[6..][2..] == [];
  }

  lemma FlatTwo(p: seq<seq<byte>>, rest: seq<byte>)
    requires |p| >= 2
    ensures Flat(p) + rest == p[0] + (p[1] + (Flat(p[2..]) + rest))
  {
    assert p[1..][1..] == p[2..];
    Joined(p[0], Flat(p[1..]), rest);
    Joined(p[1], Flat(p[2..]), rest);
  }

  lemma FlatNone(rest: seq<byte>)
    ensures Flat([]) + rest == rest
  {
  }

  /** The texts of a spec are UTF-8. */
  ghost predicate TextsGood(codec: Codec, s: ScanSpec) {
    RelationTexts(codec, s.relation) && CompiledTexts(codec, s.compiled)
  }

  /** The embedded messages of a spec, the residual expressions first. */
  function MessagesVerdict(codec: Codec, s: ScanSpec): Proto {
    if ExprsVerdict(codec, s.compiled.residual) != Whole then ExprsVerdict(codec, s.compiled.residual)
    else codec.schema(s.schema)
  }

  /** Whatever spec is written is read back, unless a text, a message or the rebuilt spec is not accepted. */
  lemma SpecWritten(codec: Codec, s: ScanSpec, rest: seq<byte>)
    requires SpecFits(s)
    ensures ReadSpec(codec, WriteSpec(s) + rest)
            == if !TextsGood(codec, s) then Bad(InvalidUtf8)
               else if MessagesVerdict(codec, s) == Whole && !codec.accepts(s) then Bad(SpecRejected)
               else Judged(MessagesVerdict(codec, s), s, rest)
  {
    hide Read, Write, ReadTag, ReadRelation, WriteRelation, ReadCompiled, WriteCompiled, ReadHints, WriteHints,
        ReadProto, WriteProto, Flat;
    hide RelationFits, CompiledFits, OptionFits, RelationTexts, CompiledTexts, ExprsVerdict;
    var r7 := WriteProto(s.schema) + rest;
    var r6 := WriteHints(s.hints) + r7;
    var r5 := WriteCompiled(s.compiled) + r6;
    var r4 := WriteRelation(s.relation) + r5;
    var r3 := Write(U32, s.tableOid) + r4;
    var r2 := Write(U64, s.scanId) + r3;
    var r1 := Write(U8, SPEC_VERSION) + r2;
    FlatSpec(SpecPieces(s), rest);
    TagWritten(SPEC_TAG, r1);
    ReadWritten(U8, SPEC_VERSION, r2);
    ReadWritten(U64, s.scanId, r3);
    ReadWritten(U32, s.tableOid, r4);
    RelationWritten(codec, s.relation, r5);
    CompiledWritten(codec, s.compiled, r6);
    HintsWritten(s.hints, r7);
    ProtoWritten(codec.schema, s.schema, rest);
  }

  lemma {:induction false} ExprsWhole(codec: Codec, es: seq<seq<byte>>)
    ensures ExprsVerdict(codec, es) == Whole <==> forall i :: 0 <= i < |es| ==> codec.expr(es[i]) == Whole
  {
    if es != [] && codec.expr(es[0]) == Whole {
      ExprsWhole(codec, es[1..]);
      if ExprsVerdict(codec, es[1..]) == Whole {
        forall i | 0 <= i < |es| ensures codec.expr(es[i]) == Whole { if i > 0 { assert es[i] == es[1..][i - 1]; } }
      }
    }
  }

  /** A spec is read back exactly if it is readable. */
  lemma ReadableExactly(codec: Codec, s: ScanSpec, rest: seq<byte>)
    requires SpecFits(s)
    ensures ReadSpec(codec, WriteSpec(s) + rest) == Got(s, rest) <==> Readable(codec, s)
    ensures ReadSpec(codec, WriteSpec(s) + rest).Got? <==> Readable(codec, s)
  {
    hide ReadSpec, WriteSpec, SpecFits, TextsGood, ExprsVerdict;
    SpecWritten(codec, s, rest);
    ExprsWhole(codec, s.compiled.residual);
  }
}
