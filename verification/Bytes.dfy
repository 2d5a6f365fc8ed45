/** Byte buffers: little-endian fields, packed structs and in-place stores. */
module Bytes {

  type byte = x: int | 0 <= x < 256

  const U16_MAX: nat := 0xFFFF
  const U32_MAX: nat := 0xFFFF_FFFF
  const I32_MAX: nat := 0x7FFF_FFFF

  // ---- Little-endian integers ----------------------------------------------------

  function Pow256(n: nat): (r: nat)
    ensures r >= 1
  {
    if n == 0 then 1 else 256 * Pow256(n - 1)
  }

  function Le(v: nat, width: nat): (r: seq<byte>)
    ensures |r| == width
  {
    if width == 0 then [] else [v % 256] + Le(v / 256, width - 1)
  }

  function FromLe(bytes: seq<byte>): nat {
    if bytes == [] then 0 else bytes[0] + 256 * FromLe(bytes[1..])
  }

  /** Digit `i` of a number to the base of 256. */
  function Digit(v: nat, i: nat): byte { if i == 0 then v % 256 else Digit(v / 256, i - 1) }

  /** Byte `i` of a little-endian integer is its i-th digit. */
  lemma {:induction false} LeDigit(v: nat, width: nat, i: nat)
    requires i < width
    ensures Le(v, width)[i] == Digit(v, i)
    decreases i
  {
    if i > 0 { LeDigit(v / 256, width - 1, i - 1); }
  }

  lemma {:induction false} LeRoundTrip(v: nat, width: nat)
    requires v < Pow256(width)
    ensures FromLe(Le(v, width)) == v
  {
    if width > 0 { LeRoundTrip(v / 256, width - 1); }
  }

  lemma {:induction false} FromLeBound(bytes: seq<byte>)
    ensures FromLe(bytes) < Pow256(|bytes|)
  {
    if bytes != [] { FromLeBound(bytes[1..]); }
  }

  lemma {:induction false} FromLeRoundTrip(bytes: seq<byte>)
    ensures Le(FromLe(bytes), |bytes|) == bytes
  {
    if bytes != [] { FromLeRoundTrip(bytes[1..]); }
  }

  // ---- Packed structs --------------------------------------------------------------

  function Size(widths: seq<nat>): nat {
    if widths == [] then 0 else widths[0] + Size(widths[1..])
  }

  /** Fields one after the other, without padding. */
  function Pack(values: seq<nat>, widths: seq<nat>): (r: seq<byte>)
    requires |values| == |widths|
    ensures |r| == Size(widths)
  {
    if widths == [] then [] else Le(values[0], widths[0]) + Pack(values[1..], widths[1..])
  }

  function Unpack(bytes: seq<byte>, widths: seq<nat>): (r: seq<nat>)
    requires |bytes| == Size(widths)
    ensures |r| == |widths|
  {
    if widths == [] then [] else [FromLe(bytes[..widths[0]])] + Unpack(bytes[widths[0]..], widths[1..])
  }

  ghost predicate Fits(values: seq<nat>, widths: seq<nat>) {
    |values| == |widths| && forall i :: 0 <= i < |values| ==> values[i] < Pow256(widths[i])
  }

  lemma {:induction false} UnpackPack(values: seq<nat>, widths: seq<nat>)
    requires Fits(values, widths)
    ensures Unpack(Pack(values, widths), widths) == values
    decreases |widths|
  {
    if widths != [] {
      var rest := Pack(values[1..], widths[1..]);
      assert Pack(values, widths)[..widths[0]] == Le(values[0], widths[0]);
      assert Pack(values, widths)[widths[0]..] == rest;
      LeRoundTrip(values[0], widths[0]);
      assert forall i :: 0 <= i < |values[1..]| ==> values[1..][i] == values[i + 1] && widths[1..][i] == widths[i + 1];
      UnpackPack(values[1..], widths[1..]);
    }
  }

  lemma {:induction false} UnpackFits(bytes: seq<byte>, widths: seq<nat>)
    requires |bytes| == Size(widths)
    ensures Fits(Unpack(bytes, widths), widths)
    decreases |widths|
  {
    if widths != [] {
      FromLeBound(bytes[..widths[0]]);
      UnpackFits(bytes[widths[0]..], widths[1..]);
      var values := Unpack(bytes, widths);
      forall i | 0 <= i < |values| ensures values[i] < Pow256(widths[i]) {
        if i > 0 {
          assert values[i] == Unpack(bytes[widths[0]..], widths[1..])[i - 1] && widths[i] == widths[1..][i - 1];
        }
      }
    }
  }

  // ---- Stores ------------------------------------------------------------------------

  /** The buffer with `bytes` stored at `offset`. */
  function Splice(block: seq<byte>, offset: nat, bytes: seq<byte>): (r: seq<byte>)
    requires offset + |bytes| <= |block|
    ensures |r| == |block|
    ensures r[offset..offset + |bytes|] == bytes
    ensures forall i :: 0 <= i < |block| && !(offset <= i < offset + |bytes|) ==> r[i] == block[i]
    ensures forall i :: offset <= i < offset + |bytes| ==> r[i] == bytes[i - offset]
  {
    block[..offset] + bytes + block[offset + |bytes|..]
  }

  /** A range that a store does not meet reads as before. */
  lemma SpliceApart(block: seq<byte>, offset: nat, bytes: seq<byte>, from: nat, to: nat)
    requires offset + |bytes| <= |block| && from <= to <= |block|
    requires to <= offset || offset + |bytes| <= from
    ensures Splice(block, offset, bytes)[from..to] == block[from..to]
  {
  }

  method Store(block: array<byte>, offset: nat, bytes: seq<byte>)
    requires offset + |bytes| <= block.Length
    modifies block
    ensures block[..] == Splice(old(block[..]), offset, bytes)
  {
    var i := 0;
    while i < |bytes|
      invariant i <= |bytes|
      invariant forall j :: 0 <= j < block.Length ==>
                  block[j] == if offset <= j < offset + i then bytes[j - offset] else old(block[j])
    {
      block[offset + i] := bytes[i];
      i := i + 1;
    }
  }

  function Zeros(n: nat): (r: seq<byte>)
    ensures |r| == n && forall i :: 0 <= i < n ==> r[i] == 0
  {
    seq(n, _ => 0)
  }
}
