/** Machine-word bit masks, modelled as naturals with explicit bits. */
module Bits {

  function Pow2(n: nat): (r: nat)
    ensures r >= 1
  {
    if n == 0 then 1 else 2 * Pow2(n - 1)
  }

  /** Bit `i` of the word `m`. */
  predicate Bit(m: nat, i: nat)
    decreases i
  {
    if i == 0 then m % 2 == 1 else Bit(m / 2, i - 1)
  }

  /** Bitwise `a & b`. */
  function And(a: nat, b: nat): nat
  {
    if a == 0 || b == 0 then 0
    else 2 * And(a / 2, b / 2) + (if a % 2 == 1 && b % 2 == 1 then 1 else 0)
  }

  /** Bitwise `a | b`. */
  function Or(a: nat, b: nat): nat
  {
    if a == 0 then b
    else 2 * Or(a / 2, b / 2) + (if a % 2 == 1 || b % 2 == 1 then 1 else 0)
  }

  /** Bitwise `a & !b`. */
  function AndNot(a: nat, b: nat): nat
  {
    if a == 0 then 0
    else 2 * AndNot(a / 2, b / 2) + (if a % 2 == 1 && b % 2 == 0 then 1 else 0)
  }

  /** Bitwise `a ^ b`. */
  function Xor(a: nat, b: nat): nat
  {
    if a == 0 then b
    else 2 * Xor(a / 2, b / 2) + (if a % 2 != b % 2 then 1 else 0)
  }

  /** Number of set bits. */
  function CountOnes(m: nat): nat
  {
    if m == 0 then 0 else m % 2 + CountOnes(m / 2)
  }

  /** Two's complement negation in a word of `w` bits. */
  function WrappingNeg(m: nat, w: nat): (r: nat)
    requires m < Pow2(w)
  {
    if m == 0 then 0 else Pow2(w) - m
  }

  /** The positions of the set bits. */
  function Members(m: nat): (s: set<nat>)
    ensures forall i :: i in s <==> Bit(m, i)
  {
    MembersBelow(m);
    set i | 0 <= i < m && Bit(m, i)
  }

  lemma {:induction false} MembersBelow(m: nat)
    ensures forall i: nat :: Bit(m, i) ==> i < m
  {
    forall i: nat | Bit(m, i) ensures i < m {
      BitBelow(m, i);
    }
  }

  lemma {:induction false} BitBelow(m: nat, i: nat)
    requires Bit(m, i)
    ensures i < m
    decreases i
  {
    if i > 0 {
      BitBelow(m / 2, i - 1);
    }
  }

  lemma {:induction false} AndBit(a: nat, b: nat, i: nat)
    ensures Bit(And(a, b), i) <==> Bit(a, i) && Bit(b, i)
    decreases i
  {
    if a == 0 || b == 0 {
      ZeroHasNoBits(i);
    } else if i > 0 {
      AndBit(a / 2, b / 2, i - 1);
      assert And(a, b) / 2 == And(a / 2, b / 2);
    }
  }

  lemma {:induction false} ZeroHasNoBits(i: nat)
    ensures !Bit(0, i)
    decreases i
  {
    if i > 0 { ZeroHasNoBits(i - 1); }
  }

  lemma {:induction false} OrBit(a: nat, b: nat, i: nat)
    ensures Bit(Or(a, b), i) <==> Bit(a, i) || Bit(b, i)
    decreases i
  {
    if a == 0 {
      ZeroHasNoBits(i);
    } else if i > 0 {
      OrBit(a / 2, b / 2, i - 1);
      assert Or(a, b) / 2 == Or(a / 2, b / 2);
    }
  }

  lemma {:induction false} AndNotBit(a: nat, b: nat, i: nat)
    ensures Bit(AndNot(a, b), i) <==> Bit(a, i) && !Bit(b, i)
    decreases i
  {
    if a == 0 {
      ZeroHasNoBits(i);
    } else if i > 0 {
      AndNotBit(a / 2, b / 2, i - 1);
      assert AndNot(a, b) / 2 == AndNot(a / 2, b / 2);
    }
  }

  lemma {:induction false} XorBit(a: nat, b: nat, i: nat)
    ensures Bit(Xor(a, b), i) <==> Bit(a, i) != Bit(b, i)
    decreases i
  {
    if a == 0 {
      ZeroHasNoBits(i);
    } else if i > 0 {
      XorBit(a / 2, b / 2, i - 1);
      assert Xor(a, b) / 2 == Xor(a / 2, b / 2);
    }
  }

  lemma MembersAnd(a: nat, b: nat)
    ensures Members(And(a, b)) == Members(a) * Members(b)
  {
    forall i: nat { AndBit(a, b, i); }
  }

  lemma MembersOr(a: nat, b: nat)
    ensures Members(Or(a, b)) == Members(a) + Members(b)
  {
    forall i: nat { OrBit(a, b, i); }
  }

  lemma MembersAndNot(a: nat, b: nat)
    ensures Members(AndNot(a, b)) == Members(a) - Members(b)
  {
    forall i: nat { AndNotBit(a, b, i); }
  }

  lemma MembersXor(a: nat, b: nat)
    ensures Members(Xor(a, b)) == (Members(a) - Members(b)) + (Members(b) - Members(a))
  {
    forall i: nat { XorBit(a, b, i); }
  }

  lemma {:induction false} Nonzero(m: nat)
    ensures Members(m) == {} <==> m == 0
    decreases m
  {
    if m == 0 {
      forall i: nat { ZeroHasNoBits(i); }
    } else if m % 2 == 1 {
      assert Bit(m, 0);
    } else {
      Nonzero(m / 2);
      var i :| i in Members(m / 2);
      assert Bit(m, i + 1);
    }
  }

  /** The members of `m` are bit 0, if set, and the members of `m / 2` moved up by one. */
  lemma HalfMembers(m: nat)
    ensures forall i: nat :: i in Members(m / 2) <==> i + 1 in Members(m)
    ensures 0 in Members(m) <==> m % 2 == 1
  {
  }

  /** A submask is numerically no larger, and smaller when it is proper. */
  lemma {:induction false} SubmaskAtMost(a: nat, b: nat)
    requires Members(a) <= Members(b)
    ensures a <= b
    ensures a % 2 <= b % 2
    ensures Members(a / 2) <= Members(b / 2)
    decreases a
  {
    HalfMembers(a);
    HalfMembers(b);
    if a == 0 {
      Nonzero(0);
    } else {
      SubmaskAtMost(a / 2, b / 2);
    }
  }

  lemma SameMembers(a: nat, b: nat)
    requires Members(a) == Members(b)
    ensures a == b
  {
    SubmaskAtMost(a, b);
    SubmaskAtMost(b, a);
  }

  lemma AndNotZero(a: nat, b: nat)
    ensures AndNot(a, b) == 0 <==> Members(a) <= Members(b)
  {
    MembersAndNot(a, b);
    Nonzero(AndNot(a, b));
  }

  lemma AndZero(a: nat, b: nat)
    ensures And(a, b) == 0 <==> Members(a) !! Members(b)
  {
    MembersAnd(a, b);
    Nonzero(And(a, b));
  }

  /** The step `(left - 1) & mask` goes to the next smaller submask of `mask`, skipping none. */
  lemma {:induction false} NextSubmask(left: nat, mask: nat, s: nat)
    requires left > 0
    requires Members(left) <= Members(mask)
    requires Members(s) <= Members(mask) && s < left
    ensures s <= And(left - 1, mask)
    decreases left
  {
    SubmaskAtMost(left, mask);
    SubmaskAtMost(s, mask);
    if left % 2 == 1 {
      assert Members(left / 2) <= Members(mask / 2);
      IntersectSubmask(left / 2, mask / 2);
      assert (left - 1) / 2 == left / 2;
      assert And(left - 1, mask) == 2 * And(left / 2, mask / 2);
    } else {
      assert (left - 1) / 2 == left / 2 - 1;
      NextSubmask(left / 2, mask / 2, s / 2);
      assert And(left - 1, mask) == 2 * And(left / 2 - 1, mask / 2) + mask % 2;
    }
  }

  lemma IntersectSubmask(a: nat, b: nat)
    requires Members(a) <= Members(b)
    ensures And(a, b) == a
  {
    MembersAnd(a, b);
    SameMembers(And(a, b), a);
  }

  lemma AndAtMost(a: nat, b: nat)
    ensures And(a, b) <= a
    ensures Members(And(a, b)) <= Members(b)
  {
    MembersAnd(a, b);
    SubmaskAtMost(And(a, b), a);
  }

  /** `m & -m` isolates the lowest set bit. */
  lemma {:induction false} LowestBitMembers(m: nat, w: nat)
    requires 0 < m < Pow2(w)
    ensures exists k: nat :: Members(And(m, WrappingNeg(m, w))) == {k} && k in Members(m)
              && forall i :: i in Members(m) ==> k <= i
    decreases w
  {
    var neg := WrappingNeg(m, w);
    HalfMembers(m);
    HalfMembers(And(m, neg));
    if m % 2 == 1 {
      assert Pow2(w) == 2 * Pow2(w - 1);
      assert neg / 2 == Pow2(w - 1) - 1 - m / 2;
      ComplementDisjoint(m / 2, w - 1);
      assert And(m, neg) == 1;
      forall i: nat ensures i in Members(1) <==> i == 0 {
        if i > 0 { ZeroHasNoBits(i - 1); assert 1 / 2 == 0; }
      }
      assert Members(And(m, neg)) == {0};
    } else {
      assert neg / 2 == WrappingNeg(m / 2, w - 1);
      LowestBitMembers(m / 2, w - 1);
      var k :| Members(And(m / 2, WrappingNeg(m / 2, w - 1))) == {k} && k in Members(m / 2)
        && forall i :: i in Members(m / 2) ==> k <= i;
      assert And(m, neg) == 2 * And(m / 2, neg / 2);
      forall i: nat ensures i in Members(And(m, neg)) <==> i == k + 1 {
        if i > 0 { assert i in Members(And(m, neg)) <==> i - 1 in Members(And(m, neg) / 2); }
      }
      assert Members(And(m, neg)) == {k + 1};
      forall i | i in Members(m) ensures k + 1 <= i {
        assert i != 0;
        assert i - 1 in Members(m / 2);
      }
    }
  }

  lemma {:induction false} ComplementDisjoint(m: nat, w: nat)
    requires m < Pow2(w)
    ensures And(m, Pow2(w) - 1 - m) == 0
    decreases w
  {
    if w > 0 && m != 0 {
      assert (Pow2(w) - 1 - m) / 2 == Pow2(w - 1) - 1 - m / 2;
      ComplementDisjoint(m / 2, w - 1);
    }
  }

  /** The mask of the lowest `n` positions, `(1 << n) - 1`. */
  function FullMask(n: nat): nat
  {
    Pow2(n) - 1
  }

  /** The full mask holds exactly the positions below `n`. */
  lemma MembersFullMask(n: nat)
    ensures forall i: nat :: i in Members(FullMask(n)) <==> i < n
  {
    forall i: nat ensures i in Members(FullMask(n)) <==> i < n { FullMaskBit(n, i); }
  }

  lemma {:induction false} FullMaskBit(n: nat, i: nat)
    ensures Bit(FullMask(n), i) <==> i < n
    decreases n
  {
    if n == 0 {
      ZeroHasNoBits(i);
    } else if i > 0 {
      assert FullMask(n) / 2 == FullMask(n - 1);
      FullMaskBit(n - 1, i - 1);
    }
  }

  lemma {:induction false} SingleBit(n: nat)
    ensures Members(Pow2(n)) == {n}
    decreases n
  {
    HalfMembers(Pow2(n));
    if n == 0 {
      forall i: nat ensures i in Members(1) <==> i == 0 {
        if i > 0 { ZeroHasNoBits(i - 1); assert 1 / 2 == 0; }
      }
    } else {
      SingleBit(n - 1);
      assert Pow2(n) / 2 == Pow2(n - 1);
      forall i: nat ensures i in Members(Pow2(n)) <==> i == n {
        if i > 0 { assert i in Members(Pow2(n)) <==> i - 1 in Members(Pow2(n) / 2); }
      }
    }
  }

  lemma {:induction false} CountOnesIsSize(m: nat)
    ensures CountOnes(m) == |Members(m)|
    decreases m
  {
    if m == 0 {
      Nonzero(0);
    } else {
      CountOnesIsSize(m / 2);
      HalfMembers(m);
      var half := Members(m / 2);
      var up := set i | i in half :: i + 1;
      ShiftedSize(half, up);
      if m % 2 == 1 {
        forall i: nat ensures i in Members(m) <==> i in up + {0} {
          if i > 0 { assert i in Members(m) <==> i - 1 in half; }
        }
        assert Members(m) == up + {0};
      } else {
        forall i: nat ensures i in Members(m) <==> i in up {
          if i > 0 { assert i in Members(m) <==> i - 1 in half; }
        }
        assert Members(m) == up;
      }
    }
  }

  lemma {:induction false} ShiftedSize(s: set<nat>, up: set<nat>)
    requires up == set i | i in s :: i + 1
    ensures |up| == |s|
    decreases s
  {
    if s != {} {
      var x :| x in s;
      var rest := s - {x};
      var upRest := set i | i in rest :: i + 1;
      ShiftedSize(rest, upRest);
      forall j ensures j in up <==> j in upRest + {x + 1} {
        if j in up {
          var i :| i in s && j == i + 1;
          assert i == x || i in rest;
        }
      }
      assert up == upRest + {x + 1};
      assert x + 1 !in upRest;
    }
  }

  // ---- Fields of a word ------------------------------------------------------

  /** Or of a shifted field with a smaller one is their sum. */
  lemma {:induction false} OrShift(high: nat, low: nat, k: nat)
    requires low < Pow2(k)
    ensures Or(high * Pow2(k), low) == high * Pow2(k) + low
    decreases k
  {
    if k == 0 {
      assert Or(high, 0) == high by { OrZero(high); }
    } else {
      var p := Pow2(k - 1);
      assert high * Pow2(k) == 2 * (high * p);
      OrShift(high, low / 2, k - 1);
    }
  }

  lemma {:induction false} OrZero(a: nat)
    ensures Or(a, 0) == a
  {
    if a > 0 { OrZero(a / 2); }
  }

  /** Masking with 2^k - 1 keeps the remainder. */
  lemma {:induction false} AndLowMask(a: nat, k: nat)
    ensures And(a, FullMask(k)) == a % Pow2(k)
    decreases k
  {
    if k == 0 {
      assert And(a, 0) == 0;
    } else {
      hide And, Pow2, FullMask;
      AndLowMask(a / 2, k - 1);
      MaskStep(k);
      AndOdd(a, FullMask(k - 1));
      HalfRemainder(a, Pow2(k - 1));
    }
  }

  lemma AndOdd(a: nat, m: nat)
    ensures And(a, 2 * m + 1) == 2 * And(a / 2, m) + a % 2
  {
  }

  lemma AndNotOdd(a: nat, m: nat)
    ensures AndNot(a, 2 * m + 1) == 2 * AndNot(a / 2, m)
  {
  }

  lemma MaskStep(k: nat)
    requires k > 0
    ensures FullMask(k) == 2 * FullMask(k - 1) + 1 && Pow2(k) == 2 * Pow2(k - 1)
  {
  }

  /** Clearing the low k bits removes the remainder. */
  lemma {:induction false} AndNotLowMask(a: nat, k: nat)
    ensures AndNot(a, FullMask(k)) == a - a % Pow2(k)
    decreases k
  {
    hide AndNot;
    if k == 0 {
      AndNotZeroMask(a);
    } else {
      hide Pow2, FullMask;
      AndNotLowMask(a / 2, k - 1);
      MaskStep(k);
      AndNotOdd(a, FullMask(k - 1));
      HalfRemainder(a, Pow2(k - 1));
    }
  }

  lemma {:induction false} AndNotZeroMask(a: nat)
    ensures AndNot(a, 0) == a
  {
    if a > 0 { AndNotZeroMask(a / 2); }
  }

  lemma HalfRemainder(a: nat, p: nat)
    requires p > 0
    ensures a % (2 * p) == 2 * (a / 2 % p) + a % 2
  {
    var h := a / 2;
    var q, r := h / p, h % p;
    assert h == p * q + r;
    assert (2 * p) * q == 2 * (p * q);
    RemainderOf(a, 2 * p, q, 2 * r + a % 2);
  }

  lemma RemainderOf(a: nat, d: nat, q: nat, r: nat)
    requires r < d && a == d * q + r
    ensures a % d == r && a / d == q
  {
    var q' := a / d;
    MulApart(d, q, q');
    MulApart(d, q', q);
  }

  lemma {:induction false} MulApart(d: nat, x: nat, y: nat)
    ensures x < y ==> d * x + d <= d * y
    decreases y
  {
    if x < y {
      assert d * y == d * (y - 1) + d;
      MulApart(d, x, y - 1);
    }
  }

  lemma Pow2Of32()
    ensures Pow2(32) == 0x1_0000_0000
  {
    assert Pow2(8) == 256;
    Pow2Sum(8, 8);
    Pow2Sum(16, 16);
  }

  lemma {:induction false} Pow2Sum(a: nat, b: nat)
    ensures Pow2(a + b) == Pow2(a) * Pow2(b)
  {
    if b > 0 { Pow2Sum(a, b - 1); }
  }
}
