/** The grammar of the wire: which bytes each value of a scan spec is read from, and that no others are. */
module PlanGrammar {
  import opened Common
  import opened Bytes
  import opened MsgPack
  import opened PlanWire
  import opened PlanFormat

  // ---- Atoms, by their MessagePack forms ---------------------------------------------------

  /** The forms in which a value is read; a length may come in a wider form than it needs. */
  ghost predicate IsForm(family: Family, v: nat, form: seq<byte>) {
    match family
    case ArrayLen =>
      || (v < 16 && form == [0x90 + v])
      || (v <= 0xffff && Looks(form, v, 0xdc, 2))
      || (v <= 0xffff_ffff && Looks(form, v, 0xdd, 4))
    case StrLen =>
      || (v < 32 && form == [0xa0 + v])
      || (v <= 0xff && Looks(form, v, 0xd9, 1))
      || (v <= 0xffff && Looks(form, v, 0xda, 2))
      || (v <= 0xffff_ffff && Looks(form, v, 0xdb, 4))
    case BinLen =>
      || (v <= 0xff && Looks(form, v, 0xc4, 1))
      || (v <= 0xffff && Looks(form, v, 0xc5, 2))
      || (v <= 0xffff_ffff && Looks(form, v, 0xc6, 4))
    case U8 => v <= 0xff && Looks(form, v, 0xcc, 1)
    case U32 => v <= 0xffff_ffff && Looks(form, v, 0xce, 4)
    case U64 => v <= 0xffff_ffff_ffff_ffff && Looks(form, v, 0xcf, 8)
    case Flag => (v == 0 && form == [0xc2]) || (v == 1 && form == [0xc3])
  }

  /** The bytes that begin some form of a family. */
  predicate Begins(family: Family, m: byte) {
    match family
    case ArrayLen => 0x90 <= m <= 0x9f || m == 0xdc || m == 0xdd
    case StrLen => 0xa0 <= m <= 0xbf || m == 0xd9 || m == 0xda || m == 0xdb
    case BinLen => m == 0xc4 || m == 0xc5 || m == 0xc6
    case U8 => m == 0xcc
    case U32 => m == 0xce
    case U64 => m == 0xcf
    case Flag => m == 0xc2 || m == 0xc3
  }

  lemma {:induction false} BeBack(bytes: seq<byte>)
    ensures FromBe(bytes) < Pow256(|bytes|) && Be(FromBe(bytes), |bytes|) == bytes
  {
    if bytes != [] { BeBack(bytes[..|bytes| - 1]); }
  }

  /** What a marker makes of a form that begins with it. */
  predicate Fitting(meaning: Marker, v: nat, form: seq<byte>)
    requires form != []
  {
    match meaning
    case Inline(value) => |form| == 1 && value == v
    case Wide(width) => v < Pow256(width) && form == [form[0]] + Be(v, width)
    case Wrong => false
  }

  lemma FormMeaning(family: Family, v: nat, form: seq<byte>)
    requires form != []
    ensures IsForm(family, v, form) <==> Fitting(Meaning(family, form[0]), v, form)
    ensures Meaning(family, form[0]).Wrong? <==> !Begins(family, form[0])
  {
    Widths();
    hide Be, Pow256;
  }

  lemma FormRead(family: Family, v: nat, form: seq<byte>, rest: seq<byte>)
    requires IsForm(family, v, form)
    ensures Read(family, form + rest) == Got(v, rest)
  {
    hide Be, FromBe, Pow256, Take, Meaning;
    FormNonempty(family, v, form);
    FormMeaning(family, v, form);
    hide IsForm;
    TakeWritten([form[0]], form[1..] + rest);
    assert form + rest == [form[0]] + (form[1..] + rest);
    var meaning := Meaning(family, form[0]);
    if meaning.Wide? {
      assert form[1..] == Be(v, meaning.width);
      BeWritten(v, meaning.width, rest);
    } else {
      assert form[1..] + rest == rest;
    }
  }

  lemma FormNonempty(family: Family, v: nat, form: seq<byte>)
    requires IsForm(family, v, form)
    ensures form != []
  {
    hide Be;
  }

  lemma FormFound(family: Family, b: seq<byte>) returns (form: seq<byte>)
    requires Read(family, b).Got?
    ensures IsForm(family, Read(family, b).value, form) && b == form + Read(family, b).rest
  {
    hide Be, FromBe, Meaning, IsForm;
    var meaning := Meaning(family, b[0]);
    assert b[..1] == [b[0]];
    if meaning.Wide? {
      form := b[..1 + meaning.width];
      assert form[1..] == b[1..][..meaning.width];
      assert b == form + b[1..][meaning.width..];
      BeBack(form[1..]);
      assert form == [form[0]] + form[1..];
    } else {
      form := b[..1];
    }
    FormMeaning(family, Read(family, b).value, form);
  }

  /** A value is read exactly from its forms; a first byte of no form is an error; short of a form, more is awaited. */
  lemma AtomExactly(family: Family, b: seq<byte>, v: nat, rest: seq<byte>)
    ensures Read(family, b) == Got(v, rest) <==> exists form :: IsForm(family, v, form) && b == form + rest
    ensures Read(family, b).Bad? <==> b != [] && !Begins(family, b[0])
    ensures Read(family, b).Bad? ==> Read(family, b).error == TypeMismatch
  {
    if b != [] { FormMeaning(family, v, b); }
    hide IsForm, Meaning, FromBe, Begins;
    if Read(family, b) == Got(v, rest) {
      var form := FormFound(family, b);
    } else if form :| IsForm(family, v, form) && b == form + rest {
      FormRead(family, v, form, rest);
    }
  }

  // ---- Specs, item by item ---------------------------------------------------------------------

  datatype Item = Number(family: Family, value: nat) | Text(bytes: seq<byte>) | Expr(bytes: seq<byte>)
                | Schema(bytes: seq<byte>)

  /** What follows a value, if it is what was read. */
  function Past<T(==)>(r: Parsed<T>, v: T): Option<seq<byte>> {
    if r.Got? && r.value == v then Some(r.rest) else None
  }

  /** What follows a length and so many bytes. */
  function PastBytes(family: Family, b: seq<byte>, bytes: seq<byte>): Option<seq<byte>> {
    var size := Past(Read(family, b), |bytes|);
    if size.Some? && bytes <= size.value then Some(size.value[|bytes|..]) else None
  }

  /** What follows an item: a number in one of its forms, or bytes behind their length that pass their decoder. */
  function PastItem(codec: Codec, b: seq<byte>, item: Item): Option<seq<byte>> {
    match item
    case Number(family, v) => Past(Read(family, b), v)
    case Text(t) => if codec.utf8(t) then PastBytes(StrLen, b, t) else None
    case Expr(m) => if codec.expr(m) == Whole then PastBytes(BinLen, b, m) else None
    case Schema(m) => if codec.schema(m) == Whole then PastBytes(BinLen, b, m) else None
  }

  function PastItems(codec: Codec, b: seq<byte>, items: seq<Item>): Option<seq<byte>>
    decreases |items|
  {
    if items == [] then Some(b)
    else
      var r := PastItem(codec, b, items[0]);
      if r.Some? then PastItems(codec, r.value, items[1..]) else None
  }

  function Counted(n: nat): seq<Item> { [Number(ArrayLen, n)] }

  function FlagItems(b: bool): seq<Item> { [Number(Flag, if b then 1 else 0)] }

  function OptionalWordItems(v: Option<nat>): seq<Item> {
    if v.Some? then [Number(Flag, 1), Number(U64, v.value)] else [Number(Flag, 0)]
  }

  function OptionalTextItems(t: Option<seq<byte>>): seq<Item> {
    if t.Some? then [Number(Flag, 1), Text(t.value)] else [Number(Flag, 0)]
  }

  function WordsItems(vs: seq<nat>): seq<Item> {
    if vs == [] then [] else [Number(U64, vs[0])] + WordsItems(vs[1..])
  }

  function WordListItems(vs: seq<nat>): seq<Item> { Counted(|vs|) + WordsItems(vs) }

  function FilterItems(f: Filter): seq<Item> { [Number(ArrayLen, 2), Number(U64, f.index), Text(f.sql)] }

  function FiltersItems(fs: seq<Filter>): seq<Item> {
    if fs == [] then [] else FilterItems(fs[0]) + FiltersItems(fs[1..])
  }

  function ExprsItems(es: seq<seq<byte>>): seq<Item> {
    if es == [] then [] else [Expr(es[0])] + ExprsItems(es[1..])
  }

  function RelationItems(r: Relation): seq<Item> {
    Counted(2) + (OptionalTextItems(r.schema) + [Text(r.table)])
  }

  function ColumnsItems(c: Columns): seq<Item> {
    WordListItems(c.selected) + (WordListItems(c.output) + (WordListItems(c.filterOnly) + WordListItems(c.residual)))
  }

  function CompiledItems(c: Compiled): seq<Item> {
    Counted(11) + ([Text(c.sql)] + (OptionalWordItems(c.requestedLimit) + (OptionalWordItems(c.sqlLimit)
    + (ColumnsItems(c.columns) + ((Counted(|c.pushed|) + FiltersItems(c.pushed))
    + ((Counted(|c.residual|) + ExprsItems(c.residual))
    + (FlagItems(c.allCompiled) + FlagItems(c.dummyProjection))))))))
  }

  function HintsItems(h: Hints): seq<Item> {
    Counted(2) + (OptionalWordItems(h.fetch) + OptionalWordItems(h.rowCap))
  }

  /** A scan spec as a list of items: version 1 behind an array length of six, the ids, and the four parts in order. */
  function SpecItems(s: ScanSpec): seq<Item> {
    [Number(ArrayLen, 6), Number(U8, 1), Number(U64, s.scanId), Number(U32, s.tableOid)]
    + (RelationItems(s.relation) + (CompiledItems(s.compiled) + (HintsItems(s.hints) + [Schema(s.schema)])))
  }

  // ---- The readers follow the grammar -----------------------------------------------------------------

  lemma {:induction false} Behind(codec: Codec, b: seq<byte>, first: seq<Item>, others: seq<Item>)
    ensures PastItems(codec, b, first + others)
            == var r := PastItems(codec, b, first); if r.Some? then PastItems(codec, r.value, others) else None
    decreases |first|
  {
    hide PastItem;
    if first == [] {
      assert first + others == others;
    } else {
      assert (first + others)[1..] == first[1..] + others;
      var r := PastItem(codec, b, first[0]);
      if r.Some? { Behind(codec, r.value, first[1..], others); }
    }
  }

  lemma OneItem(codec: Codec, b: seq<byte>, item: Item)
    ensures PastItems(codec, b, [item]) == PastItem(codec, b, item)
  {
    hide PastItem;
    assert [item][1..] == [];
  }

  lemma TwoItems(codec: Codec, b: seq<byte>, first: Item, second: Item)
    ensures PastItems(codec, b, [first, second])
            == var r := PastItem(codec, b, first); if r.Some? then PastItem(codec, r.value, second) else None
  {
    Behind(codec, b, [first], [second]);
    assert [first] + [second] == [first, second];
  }

  lemma BytesTaken(b: seq<byte>, bytes: seq<byte>)
    ensures Past(Take(b, |bytes|), bytes) == if bytes <= b then Some(b[|bytes|..]) else None
  {
    if |b| >= |bytes| { assert bytes <= b <==> b[..|bytes|] == bytes; }
  }

  lemma TextReads(codec: Codec, b: seq<byte>, t: seq<byte>)
    ensures Past(ReadText(codec, b), t) == PastItem(codec, b, Text(t))
  {
    hide Read, Take;
    var size := Read(StrLen, b);
    if size.Got? {
      BytesTaken(size.rest, t);
      TakenSize(size.rest, size.value);
    }
  }

  lemma TakenSize(b: seq<byte>, n: nat)
    ensures Take(b, n).Got? ==> |Take(b, n).value| == n
  {
  }

  lemma ProtoReads(verdict: seq<byte> -> Proto, b: seq<byte>, m: seq<byte>)
    ensures Past(ReadProto(verdict, b), m) == if verdict(m) == Whole then PastBytes(BinLen, b, m) else None
  {
    hide Read, Take;
    var size := Read(BinLen, b);
    if size.Got? {
      BytesTaken(size.rest, m);
      TakenSize(size.rest, size.value);
    }
  }

  lemma OptionalWordReads(codec: Codec, b: seq<byte>, v: Option<nat>)
    ensures Past(ReadOptionalWord(b), v) == PastItems(codec, b, OptionalWordItems(v))
  {
    FlagOnly(b);
    hide Read;
    OneItem(codec, b, Number(Flag, 0));
    if v.Some? { TwoItems(codec, b, Number(Flag, 1), Number(U64, v.value)); }
  }

  lemma FlagOnly(b: seq<byte>)
    ensures Read(Flag, b).Got? ==> Read(Flag, b).value <= 1
  {
  }

  lemma OptionalTextReads(codec: Codec, b: seq<byte>, t: Option<seq<byte>>)
    ensures Past(ReadOptionalText(codec, b), t) == PastItems(codec, b, OptionalTextItems(t))
  {
    FlagOnly(b);
    hide Read, ReadText, PastBytes;
    if t.Some? {
      TwoItems(codec, b, Number(Flag, 1), Text(t.value));
      var flag := Read(Flag, b);
      if flag.Got? { TextReads(codec, flag.rest, t.value); }
    } else {
      OneItem(codec, b, Number(Flag, 0));
    }
  }

  lemma {:induction false} WordsRead(codec: Codec, b: seq<byte>, vs: seq<nat>)
    ensures Past(ReadWords(b, |vs|), vs) == PastItems(codec, b, WordsItems(vs))
    decreases |vs|
  {
    hide Read;
    if vs != [] {
      Behind(codec, b, [Number(U64, vs[0])], WordsItems(vs[1..]));
      OneItem(codec, b, Number(U64, vs[0]));
      assert vs == [vs[0]] + vs[1..];
      var r := Read(U64, b);
      if r.Got? { WordsRead(codec, r.rest, vs[1..]); }
    }
  }

  lemma {:induction false} WordsCount(b: seq<byte>, n: nat)
    ensures ReadWords(b, n).Got? ==> |ReadWords(b, n).value| == n
    decreases n
  {
    hide Read;
    if n > 0 && Read(U64, b).Got? { WordsCount(Read(U64, b).rest, n - 1); }
  }

  lemma WordListReads(codec: Codec, b: seq<byte>, vs: seq<nat>)
    ensures Past(ReadWordList(b), vs) == PastItems(codec, b, WordListItems(vs))
  {
    hide Read, ReadWords, WordsItems;
    Behind(codec, b, Counted(|vs|), WordsItems(vs));
    OneItem(codec, b, Number(ArrayLen, |vs|));
    var n := Read(ArrayLen, b);
    if n.Got? {
      WordsCount(n.rest, n.value);
      WordsRead(codec, n.rest, vs);
    }
  }

  lemma FilterReads(codec: Codec, b: seq<byte>, f: Filter)
    ensures Past(ReadFilter(codec, b), f) == PastItems(codec, b, FilterItems(f))
  {
    hide Read, ReadText, PastBytes;
    Behind(codec, b, [Number(ArrayLen, 2), Number(U64, f.index)], [Text(f.sql)]);
    assert [Number(ArrayLen, 2), Number(U64, f.index)] + [Text(f.sql)] == FilterItems(f);
    TwoItems(codec, b, Number(ArrayLen, 2), Number(U64, f.index));
    var tag := ReadTag(b, FILTER_TAG);
    if tag.Got? {
      var index := Read(U64, tag.rest);
      if index.Got? {
        OneItem(codec, index.rest, Text(f.sql));
        TextReads(codec, index.rest, f.sql);
      }
    }
  }

  lemma {:induction false} FiltersRead(codec: Codec, b: seq<byte>, fs: seq<Filter>)
    ensures Past(ReadFilters(codec, b, |fs|), fs) == PastItems(codec, b, FiltersItems(fs))
    decreases |fs|
  {
    hide ReadFilter, FilterItems;
    if fs != [] {
      Behind(codec, b, FilterItems(fs[0]), FiltersItems(fs[1..]));
      FilterReads(codec, b, fs[0]);
      assert fs == [fs[0]] + fs[1..];
      var r := ReadFilter(codec, b);
      if r.Got? { FiltersRead(codec, r.rest, fs[1..]); }
    }
  }

  lemma {:induction false} FiltersCount(codec: Codec, b: seq<byte>, n: nat)
    ensures ReadFilters(codec, b, n).Got? ==> |ReadFilters(codec, b, n).value| == n
    decreases n
  {
    hide ReadFilter;
    if n > 0 && ReadFilter(codec, b).Got? { FiltersCount(codec, ReadFilter(codec, b).rest, n - 1); }
  }

  lemma FilterListReads(codec: Codec, b: seq<byte>, fs: seq<Filter>)
    ensures Past(ReadFilterList(codec, b), fs) == PastItems(codec, b, Counted(|fs|) + FiltersItems(fs))
  {
    hide Read, ReadFilters, FiltersItems;
    Behind(codec, b, Counted(|fs|), FiltersItems(fs));
    OneItem(codec, b, Number(ArrayLen, |fs|));
    var n := Read(ArrayLen, b);
    if n.Got? {
      FiltersCount(codec, n.rest, n.value);
      FiltersRead(codec, n.rest, fs);
    }
  }

  lemma {:induction false} ExprsRead(codec: Codec, b: seq<byte>, es: seq<seq<byte>>)
    ensures Past(ReadExprs(codec, b, |es|), es) == PastItems(codec, b, ExprsItems(es))
    decreases |es|
  {
    hide ReadProto, PastBytes;
    if es != [] {
      Behind(codec, b, [Expr(es[0])], ExprsItems(es[1..]));
      OneItem(codec, b, Expr(es[0]));
      ProtoReads(codec.expr, b, es[0]);
      assert es == [es[0]] + es[1..];
      var r := ReadProto(codec.expr, b);
      if r.Got? { ExprsRead(codec, r.rest, es[1..]); }
    }
  }

  lemma {:induction false} ExprsCount(codec: Codec, b: seq<byte>, n: nat)
    ensures ReadExprs(codec, b, n).Got? ==> |ReadExprs(codec, b, n).value| == n
    decreases n
  {
    hide ReadProto;
    if n > 0 && ReadProto(codec.expr, b).Got? { ExprsCount(codec, ReadProto(codec.expr, b).rest, n - 1); }
  }

  lemma ExprListReads(codec: Codec, b: seq<byte>, es: seq<seq<byte>>)
    ensures Past(ReadExprList(codec, b), es) == PastItems(codec, b, Counted(|es|) + ExprsItems(es))
  {
    hide Read, ReadExprs, ExprsItems;
    Behind(codec, b, Counted(|es|), ExprsItems(es));
    OneItem(codec, b, Number(ArrayLen, |es|));
    var n := Read(ArrayLen, b);
    if n.Got? {
      ExprsCount(codec, n.rest, n.value);
      ExprsRead(codec, n.rest, es);
    }
  }

  lemma TagReads(codec: Codec, b: seq<byte>, n: nat)
    ensures PastItems(codec, b, Counted(n)) == if ReadTag(b, n).Got? then Some(ReadTag(b, n).rest) else None
  {
    hide Read;
    OneItem(codec, b, Number(ArrayLen, n));
  }

  lemma RelationReads(codec: Codec, b: seq<byte>, r: Relation)
    ensures Past(ReadRelation(codec, b), r) == PastItems(codec, b, RelationItems(r))
  {
    hide ReadTag, ReadText, ReadOptionalText, PastItems, PastItem, OptionalTextItems, Counted;
    var last := [Text(r.table)];
    Behind(codec, b, Counted(2), OptionalTextItems(r.schema) + last);
    TagReads(codec, b, 2);
    var b1 := ReadTag(b, 2);
    if b1.Got? {
      Behind(codec, b1.rest, OptionalTextItems(r.schema), last);
      OptionalTextReads(codec, b1.rest, r.schema);
      var b2 := ReadOptionalText(codec, b1.rest);
      if b2.Got? {
        OneItem(codec, b2.rest, Text(r.table));
        TextReads(codec, b2.rest, r.table);
      }
    }
  }

  lemma ColumnsRead(codec: Codec, b: seq<byte>, c: Columns)
    ensures Past(ReadColumns(b), c) == PastItems(codec, b, ColumnsItems(c))
  {
    hide ReadWordList, PastItems, WordListItems;
    var i4 := WordListItems(c.residual);
    var i3 := WordListItems(c.filterOnly) + i4;
    var i2 := WordListItems(c.output) + i3;
    Behind(codec, b, WordListItems(c.selected), i2);
    WordListReads(codec, b, c.selected);
    var r1 := ReadWordList(b);
    if r1.Got? {
      Behind(codec, r1.rest, WordListItems(c.output), i3);
      WordListReads(codec, r1.rest, c.output);
      var r2 := ReadWordList(r1.rest);
      if r2.Got? {
        Behind(codec, r2.rest, WordListItems(c.filterOnly), i4);
        WordListReads(codec, r2.rest, c.filterOnly);
        var r3 := ReadWordList(r2.rest);
        if r3.Got? { WordListReads(codec, r3.rest, c.residual); }
      }
    }
  }

  lemma HintsRead(codec: Codec, b: seq<byte>, h: Hints)
    ensures Past(ReadHints(b), h) == PastItems(codec, b, HintsItems(h))
  {
    hide ReadTag, ReadOptionalWord, PastItems, OptionalWordItems, Counted;
    var i2 := OptionalWordItems(h.rowCap);
    Behind(codec, b, Counted(2), OptionalWordItems(h.fetch) + i2);
    TagReads(codec, b, 2);
    var r1 := ReadTag(b, 2);
    if r1.Got? {
      Behind(codec, r1.rest, OptionalWordItems(h.fetch), i2);
      OptionalWordReads(codec, r1.rest, h.fetch);
      var r2 := ReadOptionalWord(r1.rest);
      if r2.Got? { OptionalWordReads(codec, r2.rest, h.rowCap); }
    }
  }

  lemma FlagReads(codec: Codec, b: seq<byte>, flag: bool)
    ensures PastItems(codec, b, FlagItems(flag))
            == var r := Read(Flag, b); if r.Got? && (r.value == 1) == flag then Some(r.rest) else None
  {
    OneItem(codec, b, Number(Flag, if flag then 1 else 0));
    FlagOnly(b);
    hide Read;
  }

  /** The second half of a compiled scan: its lists and its flags. */
  function ListItems(c: Compiled): seq<Item> {
    ColumnsItems(c.columns) + ((Counted(|c.pushed|) + FiltersItems(c.pushed))
    + ((Counted(|c.residual|) + ExprsItems(c.residual)) + (FlagItems(c.allCompiled) + FlagItems(c.dummyProjection))))
  }

  function ReadLists(codec: Codec, b: seq<byte>): Parsed<(Columns, seq<Filter>, seq<seq<byte>>, bool, bool)> {
    var (columns, b5) :- ReadColumns(b);
    var (pushed, b6) :- ReadFilterList(codec, b5);
    var (residual, b7) :- ReadExprList(codec, b6);
    var (all, b8) :- Read(Flag, b7);
    var (dummy, b9) :- Read(Flag, b8);
    Got((columns, pushed, residual, all == 1, dummy == 1), b9)
  }

  lemma ListsRead(codec: Codec, b: seq<byte>, c: Compiled)
    ensures Past(ReadLists(codec, b), (c.columns, c.pushed, c.residual, c.allCompiled, c.dummyProjection))
            == PastItems(codec, b, ListItems(c))
  {
    hide ReadColumns, ReadFilterList, ReadExprList, Read, PastItems, ColumnsItems, FiltersItems, ExprsItems, FlagItems,
        Counted;
    var i4 := FlagItems(c.allCompiled) + FlagItems(c.dummyProjection);
    var i3 := (Counted(|c.residual|) + ExprsItems(c.residual)) + i4;
    var i2 := (Counted(|c.pushed|) + FiltersItems(c.pushed)) + i3;
    Behind(codec, b, ColumnsItems(c.columns), i2);
    ColumnsRead(codec, b, c.columns);
    var r1 := ReadColumns(b);
    if !r1.Got? { return; }
    Behind(codec, r1.rest, Counted(|c.pushed|) + FiltersItems(c.pushed), i3);
    FilterListReads(codec, r1.rest, c.pushed);
    var r2 := ReadFilterList(codec, r1.rest);
    if !r2.Got? { return; }
    Behind(codec, r2.rest, Counted(|c.residual|) + ExprsItems(c.residual), i4);
    ExprListReads(codec, r2.rest, c.residual);
    var r3 := ReadExprList(codec, r2.rest);
    if !r3.Got? { return; }
    Behind(codec, r3.rest, FlagItems(c.allCompiled), FlagItems(c.dummyProjection));
    FlagReads(codec, r3.rest, c.allCompiled);
    var r4 := Read(Flag, r3.rest);
    if r4.Got? { FlagReads(codec, r4.rest, c.dummyProjection); }
  }

  lemma CompiledReads(codec: Codec, b: seq<byte>, c: Compiled)
    ensures Past(ReadCompiled(codec, b), c) == PastItems(codec, b, CompiledItems(c))
  {
    hide ReadTag, ReadText, ReadOptionalWord, ReadColumns, ReadFilterList, ReadExprList, Read, PastItems, PastItem,
        ListItems, OptionalWordItems, Counted;
    var i4 := ListItems(c);
    var i3 := OptionalWordItems(c.sqlLimit) + i4;
    var i2 := OptionalWordItems(c.requestedLimit) + i3;
    var i1 := [Text(c.sql)] + i2;
    assert CompiledItems(c) == Counted(11) + i1 by { CompiledSplit(c); }
    hide CompiledItems;
    Behind(codec, b, Counted(11), i1);
    TagReads(codec, b, 11);
    var r1 := ReadTag(b, 11);
    if !r1.Got? { return; }
    Behind(codec, r1.rest, [Text(c.sql)], i2);
    OneItem(codec, r1.rest, Text(c.sql));
    TextReads(codec, r1.rest, c.sql);
    var r2 := ReadText(codec, r1.rest);
    if !r2.Got? { return; }
    Behind(codec, r2.rest, OptionalWordItems(c.requestedLimit), i3);
    OptionalWordReads(codec, r2.rest, c.requestedLimit);
    var r3 := ReadOptionalWord(r2.rest);
    if !r3.Got? { return; }
    Behind(codec, r3.rest, OptionalWordItems(c.sqlLimit), i4);
    OptionalWordReads(codec, r3.rest, c.sqlLimit);
    var r4 := ReadOptionalWord(r3.rest);
    if r4.Got? { ListsRead(codec, r4.rest, c); }
  }

  lemma CompiledSplit(c: Compiled)
    ensures CompiledItems(c) == Counted(11) + ([Text(c.sql)] + (OptionalWordItems(c.requestedLimit)
                                + (OptionalWordItems(c.sqlLimit) + ListItems(c))))
  {
  }

  lemma SpecHeadReads(codec: Codec, b: seq<byte>, scanId: nat, tableOid: nat)
    ensures PastItems(codec, b, [Number(ArrayLen, 6), Number(U8, 1), Number(U64, scanId), Number(U32, tableOid)])
            == var r := ReadHead(b);
               if r.Got? && r.value.0 == 1 && r.value.1 == scanId && r.value.2 == tableOid then Some(r.rest) else None
  {
    hide Read;
    Behind(codec, b, [Number(ArrayLen, 6), Number(U8, 1)], [Number(U64, scanId), Number(U32, tableOid)]);
    assert [Number(ArrayLen, 6), Number(U8, 1)] + [Number(U64, scanId), Number(U32, tableOid)]
           == [Number(ArrayLen, 6), Number(U8, 1), Number(U64, scanId), Number(U32, tableOid)];
    TwoItems(codec, b, Number(ArrayLen, 6), Number(U8, 1));
    var r1 := ReadTag(b, 6);
    if r1.Got? && Read(U8, r1.rest).Got? {
      TwoItems(codec, Read(U8, r1.rest).rest, Number(U64, scanId), Number(U32, tableOid));
    }
  }

  function ReadHead(b: seq<byte>): Parsed<(nat, nat, nat)> {
    var (_, b1) :- ReadTag(b, 6);
    var (version, b2) :- Read(U8, b1);
    var (scanId, b3) :- Read(U64, b2);
    var (tableOid, b4) :- Read(U32, b3);
    Got((version, scanId, tableOid), b4)
  }

  /** A spec before the check of its contents. */
  function ReadParts(codec: Codec, b: seq<byte>): Parsed<ScanSpec> {
    var (_, b1) :- ReadTag(b, 6);
    var (version, b2) :- Read(U8, b1);
    if version != 1 then Bad(SpecVersion)
    else
      var (scanId, b3) :- Read(U64, b2);
      var (tableOid, b4) :- Read(U32, b3);
      var (relation, b5) :- ReadRelation(codec, b4);
      var (compiled, b6) :- ReadCompiled(codec, b5);
      var (hints, b7) :- ReadHints(b6);
      var (schema, b8) :- ReadProto(codec.schema, b7);
      Got(ScanSpec(scanId, tableOid, relation, compiled, hints, schema), b8)
  }

  lemma PartsChecked(codec: Codec, b: seq<byte>)
    ensures ReadSpec(codec, b)
            == var r := ReadParts(codec, b); if r.Got? && !codec.accepts(r.value) then Bad(SpecRejected) else r
  {
    hide ReadTag, Read, ReadRelation, ReadCompiled, ReadHints, ReadProto;
  }

  /** A spec is read exactly from its items in order, if it is accepted: nothing is skipped, and nothing else passes. */
  lemma SpecExactly(codec: Codec, b: seq<byte>, s: ScanSpec, rest: seq<byte>)
    ensures ReadSpec(codec, b) == Got(s, rest) <==> PastItems(codec, b, SpecItems(s)) == Some(rest) && codec.accepts(s)
  {
    hide ReadSpec, ReadParts, PastItems, SpecItems;
    PartsChecked(codec, b);
    PartsRead(codec, b, s);
  }

  lemma PartsRead(codec: Codec, b: seq<byte>, s: ScanSpec)
    ensures Past(ReadParts(codec, b), s) == PastItems(codec, b, SpecItems(s))
  {
    hide ReadTag, Read, ReadRelation, ReadCompiled, ReadHints, ReadProto, PastItems, PastItem, RelationItems,
        CompiledItems, HintsItems;
    var head := [Number(ArrayLen, 6), Number(U8, 1), Number(U64, s.scanId), Number(U32, s.tableOid)];
    var i3 := HintsItems(s.hints) + [Schema(s.schema)];
    var i2 := CompiledItems(s.compiled) + i3;
    Behind(codec, b, head, RelationItems(s.relation) + i2);
    SpecHeadReads(codec, b, s.scanId, s.tableOid);
    var r := ReadHead(b);
    if !r.Got? || r.value.0 != 1 { return; }
    Behind(codec, r.rest, RelationItems(s.relation), i2);
    RelationReads(codec, r.rest, s.relation);
    var r1 := ReadRelation(codec, r.rest);
    if !r1.Got? { return; }
    Behind(codec, r1.rest, CompiledItems(s.compiled), i3);
    CompiledReads(codec, r1.rest, s.compiled);
    var r2 := ReadCompiled(codec, r1.rest);
    if !r2.Got? { return; }
    Behind(codec, r2.rest, HintsItems(s.hints), [Schema(s.schema)]);
    HintsRead(codec, r2.rest, s.hints);
    var r3 := ReadHints(r2.rest);
    if !r3.Got? { return; }
    OneItem(codec, r3.rest, Schema(s.schema));
    SchemaReads(codec, r3.rest, s.schema);
  }

  lemma SchemaReads(codec: Codec, b: seq<byte>, m: seq<byte>)
    ensures Past(ReadProto(codec.schema, b), m) == PastItem(codec, b, Schema(m))
  {
    hide ReadProto, PastBytes;
    ProtoReads(codec.schema, b, m);
  }

  // ---- The writers follow it too, in the shortest forms ---------------------------------------------------

  /** An item as it is written; one without room on the wire has no spelling. */
  function Spelt(item: Item): seq<byte> {
    match item
    case Number(family, v) => if v <= Limit(family) then Write(family, v) else []
    case Text(t) => if |t| <= U32_MAX then Write(StrLen, |t|) + t else []
    case Expr(m) => if |m| <= U32_MAX then Write(BinLen, |m|) + m else []
    case Schema(m) => if |m| <= U32_MAX then Write(BinLen, |m|) + m else []
  }

  function Spelling(items: seq<Item>): seq<byte> {
    if items == [] then [] else Spelt(items[0]) + Spelling(items[1..])
  }

  lemma {:induction false} Follows(first: seq<Item>, others: seq<Item>)
    ensures Spelling(first + others) == Spelling(first) + Spelling(others)
    decreases |first|
  {
    hide Spelt;
    if first == [] {
      assert first + others == others;
    } else {
      assert (first + others)[1..] == first[1..] + others;
      Follows(first[1..], others);
    }
  }

  lemma Alone(item: Item)
    ensures Spelling([item]) == Spelt(item)
  {
    hide Spelt;
    assert [item][1..] == [] && Spelt(item) + [] == Spelt(item);
  }

  lemma Pair(first: Item, second: Item)
    ensures Spelling([first, second]) == Spelt(first) + Spelt(second)
  {
    hide Spelt, Spelling;
    assert [first] + [second] == [first, second];
    Follows([first], [second]);
    Alone(first);
    Alone(second);
  }

  lemma OptionsSpelt(v: Option<nat>, t: Option<seq<byte>>)
    ensures OptionFits(v) ==> WriteOptionalWord(v) == Spelling(OptionalWordItems(v))
    ensures (t.Some? ==> |t.value| <= U32_MAX) ==> WriteOptionalText(t) == Spelling(OptionalTextItems(t))
  {
    hide Write, Spelling;
    Alone(Number(Flag, 0));
    if v.Some? { Pair(Number(Flag, 1), Number(U64, v.value)); }
    if t.Some? { Pair(Number(Flag, 1), Text(t.value)); }
  }

  lemma {:induction false} WordsSpelt(vs: seq<nat>)
    requires forall i :: 0 <= i < |vs| ==> vs[i] <= U64_MAX
    ensures WriteWords(vs) == Spelling(WordsItems(vs))
    decreases |vs|
  {
    hide Write;
    if vs != [] {
      WordsSpelt(vs[1..]);
      Follows([Number(U64, vs[0])], WordsItems(vs[1..]));
      Alone(Number(U64, vs[0]));
    }
  }

  lemma WordListSpelt(vs: seq<nat>)
    requires WordsFit(vs)
    ensures WriteWordList(vs) == Spelling(WordListItems(vs))
  {
    hide Write, WriteWords, WordsItems, Spelling;
    WordsSpelt(vs);
    Follows(Counted(|vs|), WordsItems(vs));
    Alone(Number(ArrayLen, |vs|));
  }

  lemma FilterSpelt(f: Filter)
    requires FilterFits(f)
    ensures WriteFilter(f) == Spelling(FilterItems(f))
  {
    hide Write, Spelling;
    Follows([Number(ArrayLen, 2), Number(U64, f.index)], [Text(f.sql)]);
    assert [Number(ArrayLen, 2), Number(U64, f.index)] + [Text(f.sql)] == FilterItems(f);
    Pair(Number(ArrayLen, 2), Number(U64, f.index));
    Alone(Text(f.sql));
  }

  lemma {:induction false} FiltersSpelt(fs: seq<Filter>)
    requires forall i :: 0 <= i < |fs| ==> FilterFits(fs[i])
    ensures WriteFilters(fs) == Spelling(FiltersItems(fs))
    decreases |fs|
  {
    hide WriteFilter, FilterItems, FilterFits;
    if fs != [] {
      FiltersSpelt(fs[1..]);
      Follows(FilterItems(fs[0]), FiltersItems(fs[1..]));
      FilterSpelt(fs[0]);
    }
  }

  lemma {:induction false} ExprsSpelt(es: seq<seq<byte>>)
    requires forall i :: 0 <= i < |es| ==> |es[i]| <= U32_MAX
    ensures WriteExprs(es) == Spelling(ExprsItems(es))
    decreases |es|
  {
    hide Write;
    if es != [] {
      ExprsSpelt(es[1..]);
      Follows([Expr(es[0])], ExprsItems(es[1..]));
      Alone(Expr(es[0]));
    }
  }

  lemma RelationSpelt(r: Relation)
    requires RelationFits(r)
    ensures WriteRelation(r) == Spelling(RelationItems(r))
  {
    hide Write, WriteOptionalText, OptionalTextItems, Spelling;
    Follows(Counted(2), OptionalTextItems(r.schema) + [Text(r.table)]);
    Follows(OptionalTextItems(r.schema), [Text(r.table)]);
    Alone(Number(ArrayLen, 2));
    OptionsSpelt(None, r.schema);
    Alone(Text(r.table));
    Joined(Write(ArrayLen, 2), WriteOptionalText(r.schema), WriteText(r.table));
  }

  lemma ColumnsSpelt(c: Columns)
    requires ColumnsFit(c)
    ensures WriteColumns(c) == Spelling(ColumnsItems(c))
  {
    hide WriteWordList, WordListItems, Spelling, WordsFit;
    var i4 := WordListItems(c.residual);
    var i3 := WordListItems(c.filterOnly) + i4;
    Follows(WordListItems(c.selected), WordListItems(c.output) + i3);
    Follows(WordListItems(c.output), i3);
    Follows(WordListItems(c.filterOnly), i4);
    WordListSpelt(c.selected);
    WordListSpelt(c.output);
    WordListSpelt(c.filterOnly);
    WordListSpelt(c.residual);
    var w12 := WriteWordList(c.selected) + WriteWordList(c.output);
    Joined(w12, WriteWordList(c.filterOnly), WriteWordList(c.residual));
    Joined(WriteWordList(c.selected), WriteWordList(c.output), Spelling(i3));
  }

  lemma HintsSpelt(h: Hints)
    requires OptionFits(h.fetch) && OptionFits(h.rowCap)
    ensures WriteHints(h) == Spelling(HintsItems(h))
  {
    hide Write, WriteOptionalWord, OptionalWordItems, Spelling;
    Follows(Counted(2), OptionalWordItems(h.fetch) + OptionalWordItems(h.rowCap));
    Follows(OptionalWordItems(h.fetch), OptionalWordItems(h.rowCap));
    Alone(Number(ArrayLen, 2));
    OptionsSpelt(h.fetch, None);
    OptionsSpelt(h.rowCap, None);
    Joined(Write(ArrayLen, 2), WriteOptionalWord(h.fetch), WriteOptionalWord(h.rowCap));
  }

  lemma FlagSpelt(b: bool)
    ensures WriteFlag(b) == Spelling(FlagItems(b))
  {
    hide Write, Spelling;
    Alone(Number(Flag, if b then 1 else 0));
  }

  lemma ListsSpelt(c: Compiled)
    requires CompiledFits(c)
    ensures WriteColumns(c.columns) + ((Write(ArrayLen, |c.pushed|) + WriteFilters(c.pushed)) + ResidualOn(c, []))
            == Spelling(ListItems(c))
  {
    hide Write, WriteColumns, WriteFilters, WriteExprs, WriteFlag, ColumnsFit, FilterFits, Spelling;
    hide ColumnsItems, FiltersItems, ExprsItems, FlagItems;
    var i4 := FlagItems(c.allCompiled) + FlagItems(c.dummyProjection);
    var i3 := (Counted(|c.residual|) + ExprsItems(c.residual)) + i4;
    Follows(ColumnsItems(c.columns), (Counted(|c.pushed|) + FiltersItems(c.pushed)) + i3);
    Follows(Counted(|c.pushed|) + FiltersItems(c.pushed), i3);
    Follows(Counted(|c.pushed|), FiltersItems(c.pushed));
    Follows(Counted(|c.residual|) + ExprsItems(c.residual), i4);
    Follows(Counted(|c.residual|), ExprsItems(c.residual));
    Follows(FlagItems(c.allCompiled), FlagItems(c.dummyProjection));
    Alone(Number(ArrayLen, |c.pushed|));
    Alone(Number(ArrayLen, |c.residual|));
    ColumnsSpelt(c.columns);
    FiltersSpelt(c.pushed);
    ExprsSpelt(c.residual);
    FlagSpelt(c.allCompiled);
    FlagSpelt(c.dummyProjection);
    assert WriteFlag(c.dummyProjection) + [] == WriteFlag(c.dummyProjection);
  }

  lemma CompiledSpelt(c: Compiled)
    requires CompiledFits(c)
    ensures WriteCompiled(c) == Spelling(CompiledItems(c))
  {
    ListsSpelt(c);
    CompiledPieces(c, []);
    CompiledSplit(c);
    hide CompiledItems, ListItems, Write, WriteCompiled, WriteOptionalWord, OptionalWordItems, Spelling, ResidualOn,
        WriteColumns, WriteFilters, ColumnsFit, FilterFits;
    assert WriteCompiled(c) + [] == WriteCompiled(c);
    var i3 := OptionalWordItems(c.sqlLimit) + ListItems(c);
    var i2 := OptionalWordItems(c.requestedLimit) + i3;
    Follows(Counted(11), [Text(c.sql)] + i2);
    Follows([Text(c.sql)], i2);
    Follows(OptionalWordItems(c.requestedLimit), i3);
    Follows(OptionalWordItems(c.sqlLimit), ListItems(c));
    Alone(Number(ArrayLen, 11));
    Alone(Text(c.sql));
    OptionsSpelt(c.requestedLimit, None);
    OptionsSpelt(c.sqlLimit, None);
  }

  /** A spec is written as its items in order, each in its shortest form. */
  lemma SpecSpelt(s: ScanSpec)
    requires SpecFits(s)
    ensures WriteSpec(s) == Spelling(SpecItems(s))
  {
    hide Write, WriteRelation, WriteCompiled, WriteHints, RelationItems, CompiledItems, HintsItems, Spelling, Flat;
    hide RelationFits, CompiledFits, OptionFits;
    FlatSpec(SpecPieces(s), []);
    assert Flat(SpecPieces(s)) + [] == Flat(SpecPieces(s)) && WriteProto(s.schema) + [] == WriteProto(s.schema);
    var i3 := HintsItems(s.hints) + [Schema(s.schema)];
    var i2 := CompiledItems(s.compiled) + i3;
    HeadSpelt(s, RelationItems(s.relation) + i2);
    Follows(RelationItems(s.relation), i2);
    Follows(CompiledItems(s.compiled), i3);
    Follows(HintsItems(s.hints), [Schema(s.schema)]);
    RelationSpelt(s.relation);
    CompiledSpelt(s.compiled);
    HintsSpelt(s.hints);
    Alone(Schema(s.schema));
  }

  lemma HeadSpelt(s: ScanSpec, others: seq<Item>)
    requires s.scanId <= U64_MAX && s.tableOid <= U32_MAX
    ensures Spelling([Number(ArrayLen, 6), Number(U8, 1), Number(U64, s.scanId), Number(U32, s.tableOid)] + others)
            == Write(ArrayLen, 6)
               + (Write(U8, 1) + (Write(U64, s.scanId) + (Write(U32, s.tableOid) + Spelling(others))))
  {
    hide Write, Spelling;
    var two, four := [Number(ArrayLen, 6), Number(U8, 1)], [Number(U64, s.scanId), Number(U32, s.tableOid)];
    assert two + four == [Number(ArrayLen, 6), Number(U8, 1), Number(U64, s.scanId), Number(U32, s.tableOid)];
    Follows(two + four, others);
    Follows(two, four);
    Pair(two[0], two[1]);
    Pair(four[0], four[1]);
    Joined(Write(ArrayLen, 6) + Write(U8, 1), Write(U64, s.scanId) + Write(U32, s.tableOid), Spelling(others));
    Joined(Write(U64, s.scanId), Write(U32, s.tableOid), Spelling(others));
    Joined(Write(ArrayLen, 6), Write(U8, 1), Write(U64, s.scanId) + (Write(U32, s.tableOid) + Spelling(others)));
  }

  // ---- The errors of a spec's own -------------------------------------------------------------------

  /** Another array length, another version and contents that are not accepted have each their own error. */
  lemma SpecErrors(codec: Codec, b: seq<byte>)
    ensures Read(ArrayLen, b).Got? && Read(ArrayLen, b).value != 6 ==> ReadSpec(codec, b) == Bad(ArrayLength)
    ensures var r := ReadTag(b, 6);
            r.Got? && Read(U8, r.rest).Got? && Read(U8, r.rest).value != 1 ==> ReadSpec(codec, b) == Bad(SpecVersion)
    ensures forall s :: PastItems(codec, b, SpecItems(s)).Some? && !codec.accepts(s) ==>
              ReadSpec(codec, b) == Bad(SpecRejected)
  {
    hide Read, PastItems, SpecItems, ReadRelation, ReadCompiled, ReadHints, ReadProto;
    PartsChecked(codec, b);
    forall s { PartsRead(codec, b, s); }
  }
}
