/** The plan envelope as bytes: markers, magic, versions and array lengths as they stand on the wire. */
module PlanFormat {
  import opened Common
  import opened Bytes
  import opened MsgPack
  import opened PlanWire
  import opened PlanEncoder

  /** Big-endian integers: the most significant digit first. */
  lemma {:induction false} BeDigit(v: nat, width: nat, i: nat)
    requires i < width
    ensures Be(v, width)[i] == Digit(v, width - 1 - i)
    decreases width
  {
    if i < width - 1 { BeDigit(v / 256, width - 1, i); }
  }

  lemma BeByte(v: nat)
    requires v < 256
    ensures Be(v, 1) == [v]
  {
    assert Be(v, 1) == Be(v / 256, 0) + [v % 256];
  }

  /** What one value looks like: a byte of its own, or a marker and so many bytes, as MessagePack has them. */
  ghost predicate Looks(bytes: seq<byte>, v: nat, marker: byte, width: nat) {
    bytes == [marker] + Be(v, width)
  }

  lemma AtomBytes(v: nat)
    ensures v < 16 ==> Write(ArrayLen, v) == [0x90 + v]
    ensures 16 <= v <= 0xffff ==> Looks(Write(ArrayLen, v), v, 0xdc, 2)
    ensures 0x1_0000 <= v <= 0xffff_ffff ==> Looks(Write(ArrayLen, v), v, 0xdd, 4)
    ensures v < 32 ==> Write(StrLen, v) == [0xa0 + v]
    ensures 32 <= v <= 0xff ==> Looks(Write(StrLen, v), v, 0xd9, 1)
    ensures 0x100 <= v <= 0xffff ==> Looks(Write(StrLen, v), v, 0xda, 2)
    ensures 0x1_0000 <= v <= 0xffff_ffff ==> Looks(Write(StrLen, v), v, 0xdb, 4)
    ensures v <= 0xff ==> Looks(Write(BinLen, v), v, 0xc4, 1)
    ensures 0x100 <= v <= 0xffff ==> Looks(Write(BinLen, v), v, 0xc5, 2)
    ensures 0x1_0000 <= v <= 0xffff_ffff ==> Looks(Write(BinLen, v), v, 0xc6, 4)
    ensures v <= 0xff ==> Looks(Write(U8, v), v, 0xcc, 1)
    ensures v <= 0xffff_ffff ==> Looks(Write(U32, v), v, 0xce, 4)
    ensures v <= 0xffff_ffff_ffff_ffff ==> Looks(Write(U64, v), v, 0xcf, 8)
    ensures Write(Flag, 0) == [0xc2] && Write(Flag, 1) == [0xc3]
  {
    hide Be;
  }

  /** Every envelope begins with an array of four, the text PFPL and version 1, and then the number of its specs. */
  lemma EnvelopeHead(e: Envelope)
    requires SpecsFit(e) && Sendable(e)
    ensures EnvelopeBytes(e)
            == [0x94, 0xa4, 0x50, 0x46, 0x50, 0x4c, 0xcc, 0x01] + (Write(ArrayLen, |e.specs|) + Tail(e, 4))
  {
    hide Write, Flat, Tail, Be;
    AtomBytes(4);
    AtomBytes(1);
    BeByte(1);
    TailNext(e, 0); TailNext(e, 1); TailNext(e, 2); TailNext(e, 3);
    One(Item(e, 0)); Two(Item(e, 1)); One(Item(e, 2)); One(Item(e, 3));
    var rest := Write(ArrayLen, |e.specs|) + Tail(e, 4);
    assert EnvelopeBytes(e) == [0x94] + (([0xa4] + [0x50, 0x46, 0x50, 0x4c]) + ([0xcc, 0x01] + rest));
  }

  lemma TailNext(e: Envelope, i: nat)
    requires SpecsFit(e) && i < Items(e)
    ensures Tail(e, i) == Flat(Item(e, i)) + Tail(e, i + 1)
  {
  }

  lemma One(pieces: seq<seq<byte>>)
    requires |pieces| == 1
    ensures Flat(pieces) == pieces[0]
  {
  }

  lemma Two(pieces: seq<seq<byte>>)
    requires |pieces| == 2
    ensures Flat(pieces) == pieces[0] + pieces[1]
  {
    One(pieces[1..]);
  }

  /** Without specs, the payload follows behind its length. */
  lemma BarePlan(plan: seq<byte>)
    requires |plan| <= 0xff
    ensures EnvelopeBytes(Envelope([], plan))
            == [0x94, 0xa4, 0x50, 0x46, 0x50, 0x4c, 0xcc, 0x01, 0x90, 0xc4, |plan|] + plan
  {
    hide Write, Flat, Be, EnvelopeBytes;
    var e := Envelope([], plan);
    EnvelopeHead(e);
    AtomBytes(0);
    AtomBytes(|plan|);
    BeByte(|plan|);
    TailNext(e, 4); TailNext(e, 5);
    One(Item(e, 4)); One(Item(e, 5));
    assert Tail(e, 6) == [];
    hide Tail;
    assert Tail(e, 4) == [0xc4, |plan|] + plan;
  }
}
