/** MessagePack framing as the plan codec uses it: incremental readers and their writers. */
module MsgPack {
  import opened Bytes

  datatype WireError = TypeMismatch | ArrayLength | InvalidUtf8 | BrokenProtobuf | SpecVersion | SpecRejected

  /** A read from the front of a buffer: a value and what follows it, too few bytes so far, or an error. */
  datatype Parsed<+T> = Got(value: T, rest: seq<byte>) | More | Bad(error: WireError) {
    predicate IsFailure() { !Got? }

    function PropagateFailure<U>(): Parsed<U>
      requires IsFailure()
    {
      if More? then More else Bad(error)
    }

    function Extract(): (T, seq<byte>)
      requires Got?
    {
      (value, rest)
    }
  }

  /** More bytes at the end change neither a value nor an error, only what is left over. */
  ghost predicate Extends<T>(r: Parsed<T>, longer: Parsed<T>, more: seq<byte>) {
    (r.Got? ==> longer == Got(r.value, r.rest + more)) && (r.Bad? ==> longer == r)
  }

  // ---- Big-endian integers -------------------------------------------------------------

  function Be(v: nat, width: nat): (r: seq<byte>)
    ensures |r| == width
  {
    if width == 0 then [] else Be(v / 256, width - 1) + [v % 256]
  }

  function FromBe(bytes: seq<byte>): nat {
    if bytes == [] then 0 else 256 * FromBe(bytes[..|bytes| - 1]) + bytes[|bytes| - 1]
  }

  lemma {:induction false} BeRoundTrip(v: nat, width: nat)
    requires v < Pow256(width)
    ensures FromBe(Be(v, width)) == v
  {
    if width > 0 {
      BeRoundTrip(v / 256, width - 1);
      assert Be(v, width)[..width - 1] == Be(v / 256, width - 1);
    }
  }

  // ---- Atoms ------------------------------------------------------------------------------

  function Take(b: seq<byte>, n: nat): (r: Parsed<seq<byte>>)
    ensures r.Got? ==> |r.value| == n && b == r.value + r.rest
    ensures !r.Bad?
  {
    if |b| < n then More else Got(b[..n], b[n..])
  }

  lemma TakeStable(b: seq<byte>, n: nat, c: seq<byte>)
    ensures Extends(Take(b, n), Take(b + c, n), c)
  {
    if |b| >= n { assert (b + c)[..n] == b[..n] && (b + c)[n..] == b[n..] + c; }
  }

  lemma TakeWritten(v: seq<byte>, rest: seq<byte>)
    ensures Take(v + rest, |v|) == Got(v, rest)
  {
    assert (v + rest)[..|v|] == v && (v + rest)[|v|..] == rest;
  }

  function ReadBe(b: seq<byte>, width: nat): (r: Parsed<nat>)
    ensures r.Got? ==> |r.rest| <= |b|
  {
    var (bytes, b1) :- Take(b, width);
    Got(FromBe(bytes), b1)
  }

  lemma BeStable(b: seq<byte>, width: nat, c: seq<byte>)
    ensures Extends(ReadBe(b, width), ReadBe(b + c, width), c)
  {
    TakeStable(b, width, c);
  }

  lemma BeWritten(v: nat, width: nat, rest: seq<byte>)
    requires v < Pow256(width)
    ensures ReadBe(Be(v, width) + rest, width) == Got(v, rest)
  {
    TakeWritten(Be(v, width), rest);
    BeRoundTrip(v, width);
  }

  /** What a marker byte says about the read: a value in the marker, a wider field, or the wrong family. */
  datatype Marker = Inline(value: nat) | Wide(width: nat) | Wrong

  datatype Family = ArrayLen | StrLen | BinLen | U8 | U32 | U64 | Flag

  function Meaning(family: Family, m: byte): Marker {
    match family
    case ArrayLen => if 0x90 <= m <= 0x9f then Inline(m - 0x90)
        else if m == 0xdc then Wide(2) else if m == 0xdd then Wide(4) else Wrong
    case StrLen =>
      if 0xa0 <= m <= 0xbf then Inline(m - 0xa0)
      else if m == 0xd9 then Wide(1) else if m == 0xda then Wide(2) else if m == 0xdb then Wide(4) else Wrong
    case BinLen => if m == 0xc4 then Wide(1) else if m == 0xc5 then Wide(2) else if m == 0xc6 then Wide(4) else Wrong
    case U8 => if m == 0xcc then Wide(1) else Wrong
    case U32 => if m == 0xce then Wide(4) else Wrong
    case U64 => if m == 0xcf then Wide(8) else Wrong
    case Flag => if m == 0xc2 then Inline(0) else if m == 0xc3 then Inline(1) else Wrong
  }

  function Read(family: Family, b: seq<byte>): (r: Parsed<nat>)
    ensures r.Got? ==> |r.rest| < |b|
  {
    var (m, b1) :- Take(b, 1);
    match Meaning(family, m[0])
    case Inline(value) => Got(value, b1)
    case Wide(width) => ReadBe(b1, width)
    case Wrong => Bad(TypeMismatch)
  }

  lemma ReadStable(family: Family, b: seq<byte>, c: seq<byte>)
    ensures Extends(Read(family, b), Read(family, b + c), c)
  {
    TakeStable(b, 1, c);
    hide Meaning, ReadBe, Take;
    var first := Take(b, 1);
    if first.Got? && Meaning(family, first.value[0]).Wide? {
      BeStable(first.rest, Meaning(family, first.value[0]).width, c);
    }
  }

  /** The largest value a family carries. */
  function Limit(family: Family): nat {
    match family
    case ArrayLen => U32_MAX
    case StrLen => U32_MAX
    case BinLen => U32_MAX
    case U8 => 0xff
    case U32 => U32_MAX
    case U64 => 0xFFFF_FFFF_FFFF_FFFF
    case Flag => 1
  }

  /** The shortest form of a length, the full form of an integer. */
  function Write(family: Family, v: nat): (r: seq<byte>)
    requires v <= Limit(family)
    ensures r != []
  {
    match family
    case ArrayLen => if v < 16 then [0x90 + v] else if v <= U16_MAX then [0xdc] + Be(v, 2) else [0xdd] + Be(v, 4)
    case StrLen =>
      if v < 32 then [0xa0 + v]
          else if v <= 0xff then [0xd9] + Be(v, 1) else if v <= U16_MAX then [0xda] + Be(v, 2) else [0xdb] + Be(v, 4)
    case BinLen => if v <= 0xff then [0xc4] + Be(v, 1)
        else if v <= U16_MAX then [0xc5] + Be(v, 2) else [0xc6] + Be(v, 4)
    case U8 => [0xcc] + Be(v, 1)
    case U32 => [0xce] + Be(v, 4)
    case U64 => [0xcf] + Be(v, 8)
    case Flag => [0xc2 + v]
  }

  /** How many bytes follow the marker that is written. */
  function Trailer(family: Family, v: nat): (w: nat)
    requires v <= Limit(family)
  {
    match family
    case ArrayLen => if v < 16 then 0 else if v <= U16_MAX then 2 else 4
    case StrLen => if v < 32 then 0 else if v <= 0xff then 1 else if v <= U16_MAX then 2 else 4
    case BinLen => if v <= 0xff then 1 else if v <= U16_MAX then 2 else 4
    case U8 => 1
    case U32 => 4
    case U64 => 8
    case Flag => 0
  }

  lemma Widths()
    ensures Pow256(1) == 0x100 && Pow256(2) == 0x1_0000 && Pow256(4) == 0x1_0000_0000
            && Pow256(8) == 0x1_0000_0000_0000_0000
  {
    assert Pow256(2) == 256 * Pow256(1) && Pow256(3) == 256 * Pow256(2) && Pow256(4) == 256 * Pow256(3);
    assert Pow256(5) == 256 * Pow256(4) && Pow256(6) == 256 * Pow256(5) && Pow256(7) == 256 * Pow256(6)
           && Pow256(8) == 256 * Pow256(7);
  }

  lemma WrittenForm(family: Family, v: nat)
    requires v <= Limit(family)
    ensures var w := Trailer(family, v);
            && Write(family, v)[1..] == (if w == 0 then [] else Be(v, w)) && (w > 0 ==> v < Pow256(w))
            && Meaning(family, Write(family, v)[0]) == if w == 0 then Inline(v) else Wide(w)
  {
    Widths();
    hide Be, Pow256;
  }

  /** Whatever is written is read back, and what follows is left alone. */
  lemma ReadWritten(family: Family, v: nat, rest: seq<byte>)
    requires v <= Limit(family)
    ensures Read(family, Write(family, v) + rest) == Got(v, rest)
  {
    var s, w := Write(family, v), Trailer(family, v);
    WrittenForm(family, v);
    hide Write, Meaning, Trailer, Be, Take;
    TakeWritten([s[0]], s[1..] + rest);
    assert s + rest == [s[0]] + (s[1..] + rest);
    if w > 0 { BeWritten(v, w, rest); } else { assert [] + rest == rest; }
  }
}
