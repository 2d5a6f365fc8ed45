/** Packed bitmaps inside a byte buffer, least significant bit first. */
module Bitmaps {
  import opened Bits
  import opened Bytes

  lemma {:induction false} OrBelow(a: nat, b: nat, w: nat)
    requires a < Pow2(w) && b < Pow2(w)
    ensures Or(a, b) < Pow2(w)
    decreases w
  {
    if w > 0 { OrBelow(a / 2, b / 2, w - 1); }
  }

  lemma {:induction false} AndNotAtMost(a: nat, b: nat)
    ensures AndNot(a, b) <= a
  {
    if a > 0 { AndNotAtMost(a / 2, b / 2); }
  }

  lemma {:induction false} Pow2Below(k: nat, w: nat)
    requires k < w
    ensures Pow2(k) < Pow2(w)
    decreases w
  {
    if k < w - 1 { Pow2Below(k, w - 1); }
  }

  /** `byte |= 1 << k` or `byte &= !(1 << k)`. */
  function SetBit(b: byte, k: nat, value: bool): (r: byte)
    requires k < 8
    ensures forall j: nat :: Bit(r, j) == if j == k then value else Bit(b, j)
  {
    assert Pow2(8) == 256;
    Pow2Below(k, 8);
    OrBelow(b, Pow2(k), 8);
    AndNotAtMost(b, Pow2(k));
    SingleBit(k);
    assert forall j: nat :: Bit(Pow2(k), j) <==> j in Members(Pow2(k));
    BitsOf(b, k);
    if value then Or(b, Pow2(k)) else AndNot(b, Pow2(k))
  }

  lemma BitsOf(b: nat, k: nat)
    ensures forall j: nat :: Bit(Or(b, Pow2(k)), j) <==> Bit(b, j) || Bit(Pow2(k), j)
    ensures forall j: nat :: Bit(AndNot(b, Pow2(k)), j) <==> Bit(b, j) && !Bit(Pow2(k), j)
  {
    forall j: nat {
      OrBit(b, Pow2(k), j);
    }
    forall j: nat {
      AndNotBit(b, Pow2(k), j);
    }
  }

  // ---- Bitmaps in a buffer -------------------------------------------------------------

  /** Bit `row` of the bitmap that starts at byte `base`. */
  predicate BitOf(block: seq<byte>, base: nat, row: nat)
    requires base + row / 8 < |block|
  {
    Bit(block[base + row / 8], row % 8)
  }

  function WithBit(block: seq<byte>, base: nat, row: nat, value: bool): (r: seq<byte>)
    requires base + row / 8 < |block|
    ensures |r| == |block|
    ensures forall i :: 0 <= i < |block| && i != base + row / 8 ==> r[i] == block[i]
  {
    block[base + row / 8 := SetBit(block[base + row / 8], row % 8, value)]
  }

  /** Setting one bit sets that bit and no other bit of the bitmap. */
  lemma WithBitReads(block: seq<byte>, base: nat, row: nat, value: bool, other: nat)
    requires base + row / 8 < |block| && base + other / 8 < |block|
    ensures BitOf(WithBit(block, base, row, value), base, other) == if other == row then value
            else BitOf(block, base, other)
  {
    if other / 8 == row / 8 && other != row { assert other % 8 != row % 8; }
  }

  /** Bytes outside the bitmap's own byte read as before. */
  lemma WithBitApart(block: seq<byte>, base: nat, row: nat, value: bool, from: nat, to: nat)
    requires base + row / 8 < |block| && from <= to <= |block| && !(from <= base + row / 8 < to)
    ensures WithBit(block, base, row, value)[from..to] == block[from..to]
  {
  }

  /** `bitmap_set_raw`. */
  method SetRaw(block: array<byte>, base: nat, row: nat, value: bool)
    requires base + row / 8 < block.Length
    modifies block
    ensures block[..] == WithBit(old(block[..]), base, row, value)
  {
    block[base + row / 8] := SetBit(block[base + row / 8], row % 8, value);
  }

  /** The number of clear bits among the first `rows`. */
  function ClearBits(block: seq<byte>, base: nat, rows: nat): (n: nat)
    requires rows == 0 || base + (rows - 1) / 8 < |block|
    ensures n <= rows
  {
    if rows == 0 then 0
    else ClearBits(block, base, rows - 1) + (if BitOf(block, base, rows - 1) then 0 else 1)
  }

  /** Clear bits only depend on the bits counted. */
  lemma {:induction false} ClearBitsSame(block: seq<byte>, block': seq<byte>, base: nat, rows: nat)
    requires |block'| == |block| && (rows == 0 || base + (rows - 1) / 8 < |block|)
    requires forall r: nat :: r < rows ==> BitOf(block', base, r) == BitOf(block, base, r)
    ensures ClearBits(block', base, rows) == ClearBits(block, base, rows)
  {
    if rows > 0 { ClearBitsSame(block, block', base, rows - 1); }
  }
}
