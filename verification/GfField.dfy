/**
 GF(2^8 / 0x11D) has no zero divisors, and its element 2 has order exactly 255.
 */
module GfField {
  import opened Gf256

  // ----- no zero divisors: an annihilator of y of degree d > 0 yields one of smaller degree,
  //       the remainder of the field polynomial divided by it, which is never zero

  /** t, reduced by s when the given bit is set. */
  function Fold(t: Byte, bit: bool, s: Byte): Byte {
    Xor(t, Gate(bit, s))
  }

  function Degree(x: Byte): nat {
    if x.b7 then 7 else if x.b6 then 6 else if x.b5 then 5 else if x.b4 then 4
    else if x.b3 then 3 else if x.b2 then 2 else if x.b1 then 1 else 0
  }

  lemma FoldAnnihilates(t: Byte, bit: bool, s: Byte, y: Byte)
    requires Mul(t, y) == ZERO && Mul(s, y) == ZERO
    ensures Mul(Fold(t, bit, s), y) == ZERO
  {
    hide Mul, Xor;
    MulDistributes(y, t, Gate(bit, s));
    XorLaws(ZERO, ZERO, ZERO);
    MulUnits(y);
  }

  lemma XTimeAnnihilates(x: Byte, y: Byte)
    requires Mul(x, y) == ZERO
    ensures Mul(XTime(x), y) == ZERO
  {
    hide Mul;
    MulXTimeLeft(x, y);
    GateXTime(false, x);
  }

  lemma Descend7(x: Byte, y: Byte) returns (r: Byte)
    requires Mul(x, y) == ZERO && x.b7
    ensures Mul(r, y) == ZERO && r != ZERO && !r.b7
  {
    var r1 := XTime(x);
    var r0 := Fold(r1, r1.b7, x);
    r := r0;
    assert Mul(r0, y) == ZERO by {
      hide Mul, XTime, Fold;
      XTimeAnnihilates(x, y);
      FoldAnnihilates(r1, r1.b7, x, y);
    }
    hide Mul;
  }

  lemma Descend6(x: Byte, y: Byte) returns (r: Byte)
    requires Mul(x, y) == ZERO && !x.b7 && x.b6
    ensures Mul(r, y) == ZERO && r != ZERO && !r.b7 && !r.b6
  {
    var x1 := XTime(x);
    var r2 := XTime(x1);
    var r1 := Fold(r2, r2.b7, x1);
    var r0 := Fold(r1, r1.b6, x);
    r := r0;
    assert Mul(r0, y) == ZERO by {
      hide Mul, XTime, Fold;
      XTimeAnnihilates(x, y);
      XTimeAnnihilates(x1, y);
      FoldAnnihilates(r2, r2.b7, x1, y);
      FoldAnnihilates(r1, r1.b6, x, y);
    }
    hide Mul;
  }

  lemma Descend5(x: Byte, y: Byte) returns (r: Byte)
    requires Mul(x, y) == ZERO && !x.b7 && !x.b6 && x.b5
    ensures Mul(r, y) == ZERO && r != ZERO && !r.b7 && !r.b6 && !r.b5
  {
    var x1 := XTime(x);
    var x2 := XTime(x1);
    var r3 := XTime(x2);
    var r2 := Fold(r3, r3.b7, x2);
    var r1 := Fold(r2, r2.b6, x1);
    var r0 := Fold(r1, r1.b5, x);
    r := r0;
    assert Mul(r0, y) == ZERO by {
      hide Mul, XTime, Fold;
      XTimeAnnihilates(x, y);
      XTimeAnnihilates(x1, y);
      XTimeAnnihilates(x2, y);
      FoldAnnihilates(r3, r3.b7, x2, y);
      FoldAnnihilates(r2, r2.b6, x1, y);
      FoldAnnihilates(r1, r1.b5, x, y);
    }
    hide Mul;
  }

  lemma Descend4(x: Byte, y: Byte) returns (r: Byte)
    requires Mul(x, y) == ZERO && !x.b7 && !x.b6 && !x.b5 && x.b4
    ensures Mul(r, y) == ZERO && r != ZERO && !r.b7 && !r.b6 && !r.b5 && !r.b4
  {
    var x1 := XTime(x);
    var x2 := XTime(x1);
    var x3 := XTime(x2);
    var r4 := XTime(x3);
    var r3 := Fold(r4, r4.b7, x3);
    var r2 := Fold(r3, r3.b6, x2);
    var r1 := Fold(r2, r2.b5, x1);
    var r0 := Fold(r1, r1.b4, x);
    r := r0;
    assert Mul(r0, y) == ZERO by {
      hide Mul, XTime, Fold;
      XTimeAnnihilates(x, y);
      XTimeAnnihilates(x1, y);
      XTimeAnnihilates(x2, y);
      XTimeAnnihilates(x3, y);
      FoldAnnihilates(r4, r4.b7, x3, y);
      FoldAnnihilates(r3, r3.b6, x2, y);
      FoldAnnihilates(r2, r2.b5, x1, y);
      FoldAnnihilates(r1, r1.b4, x, y);
    }
    hide Mul;
  }

  lemma Descend3(x: Byte, y: Byte) returns (r: Byte)
    requires Mul(x, y) == ZERO && !x.b7 && !x.b6 && !x.b5 && !x.b4 && x.b3
    ensures Mul(r, y) == ZERO && r != ZERO && !r.b7 && !r.b6 && !r.b5 && !r.b4 && !r.b3
  {
    var x1 := XTime(x);
    var x2 := XTime(x1);
    var x3 := XTime(x2);
    var x4 := XTime(x3);
    var r5 := XTime(x4);
    var r4 := Fold(r5, r5.b7, x4);
    var r3 := Fold(r4, r4.b6, x3);
    var r2 := Fold(r3, r3.b5, x2);
    var r1 := Fold(r2, r2.b4, x1);
    var r0 := Fold(r1, r1.b3, x);
    r := r0;
    assert Mul(r0, y) == ZERO by {
      hide Mul, XTime, Fold;
      XTimeAnnihilates(x, y);
      XTimeAnnihilates(x1, y);
      XTimeAnnihilates(x2, y);
      XTimeAnnihilates(x3, y);
      XTimeAnnihilates(x4, y);
      FoldAnnihilates(r5, r5.b7, x4, y);
      FoldAnnihilates(r4, r4.b6, x3, y);
      FoldAnnihilates(r3, r3.b5, x2, y);
      FoldAnnihilates(r2, r2.b4, x1, y);
      FoldAnnihilates(r1, r1.b3, x, y);
    }
    hide Mul;
  }

  lemma Descend2(x: Byte, y: Byte) returns (r: Byte)
    requires Mul(x, y) == ZERO && !x.b7 && !x.b6 && !x.b5 && !x.b4 && !x.b3 && x.b2
    ensures Mul(r, y) == ZERO && r != ZERO && !r.b7 && !r.b6 && !r.b5 && !r.b4 && !r.b3 && !r.b2
  {
    var x1 := XTime(x);
    var x2 := XTime(x1);
    var x3 := XTime(x2);
    var x4 := XTime(x3);
    var x5 := XTime(x4);
    var r6 := XTime(x5);
    var r5 := Fold(r6, r6.b7, x5);
    var r4 := Fold(r5, r5.b6, x4);
    var r3 := Fold(r4, r4.b5, x3);
    var r2 := Fold(r3, r3.b4, x2);
    var r1 := Fold(r2, r2.b3, x1);
    var r0 := Fold(r1, r1.b2, x);
    r := r0;
    assert Mul(r0, y) == ZERO by {
      hide Mul, XTime, Fold;
      XTimeAnnihilates(x, y);
      XTimeAnnihilates(x1, y);
      XTimeAnnihilates(x2, y);
      XTimeAnnihilates(x3, y);
      XTimeAnnihilates(x4, y);
      XTimeAnnihilates(x5, y);
      FoldAnnihilates(r6, r6.b7, x5, y);
      FoldAnnihilates(r5, r5.b6, x4, y);
      FoldAnnihilates(r4, r4.b5, x3, y);
      FoldAnnihilates(r3, r3.b4, x2, y);
      FoldAnnihilates(r2, r2.b3, x1, y);
      FoldAnnihilates(r1, r1.b2, x, y);
    }
    hide Mul;
  }

  lemma Descend1(x: Byte, y: Byte) returns (r: Byte)
    requires Mul(x, y) == ZERO && !x.b7 && !x.b6 && !x.b5 && !x.b4 && !x.b3 && !x.b2 && x.b1
    ensures Mul(r, y) == ZERO && r != ZERO && !r.b7 && !r.b6 && !r.b5 && !r.b4 && !r.b3 && !r.b2 && !r.b1
  {
    var x1 := XTime(x);
    var x2 := XTime(x1);
    var x3 := XTime(x2);
    var x4 := XTime(x3);
    var x5 := XTime(x4);
    var x6 := XTime(x5);
    var r7 := XTime(x6);
    var r6 := Fold(r7, r7.b7, x6);
    var r5 := Fold(r6, r6.b6, x5);
    var r4 := Fold(r5, r5.b5, x4);
    var r3 := Fold(r4, r4.b4, x3);
    var r2 := Fold(r3, r3.b3, x2);
    var r1 := Fold(r2, r2.b2, x1);
    var r0 := Fold(r1, r1.b1, x);
    r := r0;
    assert Mul(r0, y) == ZERO by {
      hide Mul, XTime, Fold;
      XTimeAnnihilates(x, y);
      XTimeAnnihilates(x1, y);
      XTimeAnnihilates(x2, y);
      XTimeAnnihilates(x3, y);
      XTimeAnnihilates(x4, y);
      XTimeAnnihilates(x5, y);
      XTimeAnnihilates(x6, y);
      FoldAnnihilates(r7, r7.b7, x6, y);
      FoldAnnihilates(r6, r6.b6, x5, y);
      FoldAnnihilates(r5, r5.b5, x4, y);
      FoldAnnihilates(r4, r4.b4, x3, y);
      FoldAnnihilates(r3, r3.b3, x2, y);
      FoldAnnihilates(r2, r2.b2, x1, y);
      FoldAnnihilates(r1, r1.b1, x, y);
    }
    hide Mul;
  }

  lemma {:induction false} NoZeroDivisors(x: Byte, y: Byte)
    requires Mul(x, y) == ZERO
    ensures x == ZERO || y == ZERO
    decreases Degree(x)
  {
    hide Mul;
    if x == ZERO {
    } else if x == ONE {
      MulUnits(y);
    } else {
      var r;
      if x.b7 {
        r := Descend7(x, y);
      } else if x.b6 {
        r := Descend6(x, y);
      } else if x.b5 {
        r := Descend5(x, y);
      } else if x.b4 {
        r := Descend4(x, y);
      } else if x.b3 {
        r := Descend3(x, y);
      } else if x.b2 {
        r := Descend2(x, y);
      } else {
        r := Descend1(x, y);
      }
      NoZeroDivisors(r, y);
    }
  }

  lemma MulCancels(x: Byte, y: Byte, z: Byte)
    requires Mul(x, y) == Mul(x, z) && x != ZERO
    ensures y == z
  {
    hide Mul, Xor;
    MulDistributes(x, y, z);
    XorLaws(Mul(x, y), ZERO, ZERO);
    NoZeroDivisors(x, Xor(y, z));
    XorIsZero(y, z);
  }

  // ----- powers

  lemma PowerZero(x: Byte)
    ensures Power(x, 0) == ONE
  {
  }

  lemma {:induction false} PowerAdd(x: Byte, m: nat, n: nat)
    ensures Power(x, m + n) == Mul(Power(x, m), Power(x, n))
  {
    hide Mul;
    if n == 0 {
      MulUnits(Power(x, m));
    } else {
      PowerAdd(x, m, n - 1);
      MulAssociates(Power(x, m), Power(x, n - 1), x);
    }
  }

  lemma {:induction false} PowerMul(x: Byte, m: nat, n: nat)
    ensures Power(Power(x, m), n) == Power(x, m * n)
  {
    hide Mul;
    if n > 0 {
      PowerMul(x, m, n - 1);
      PowerAdd(x, m * (n - 1), m);
      assert m * (n - 1) + m == m * n;
    }
  }

  lemma {:induction false} PowerOfOne(n: nat)
    ensures Power(ONE, n) == ONE
  {
    hide Mul;
    if n > 0 {
      PowerOfOne(n - 1);
      MulUnits(ONE);
    }
  }

  lemma {:induction false} PowerNonZero(x: Byte, n: nat)
    requires x != ZERO
    ensures Power(x, n) != ZERO
  {
    hide Mul;
    if n > 0 {
      PowerNonZero(x, n - 1);
      if Mul(Power(x, n - 1), x) == ZERO {
        NoZeroDivisors(Power(x, n - 1), x);
      }
    }
  }

  // ----- the order of 2

  function Times32(x: Byte): Byte {
    XTime(XTime(XTime(XTime(XTime(x)))))
  }

  // Multiplication by fixed elements: each bit of the product is a sum of bits of the factor.

  function Times3(p: Byte): Byte {
    Byte(p.b7 != p.b6, p.b6 != p.b5, p.b5 != p.b4, (p.b7 != p.b4) != p.b3, (p.b7 != p.b3) != p.b2,
         (p.b7 != p.b2) != p.b1, p.b1 != p.b0, p.b7 != p.b0)
  }

  lemma PowerPlus5(n: nat)
    ensures Power(TWO, n + 5) == Times32(Power(TWO, n))
  {
    hide Mul, XTime;
    var p := Power(TWO, n);
    MulUnits(p);
    var p1 := Power(TWO, n + 1);
    MulUnits(p1);
    var p2 := Power(TWO, n + 2);
    MulUnits(p2);
    var p3 := Power(TWO, n + 3);
    MulUnits(p3);
    var p4 := Power(TWO, n + 4);
    MulUnits(p4);
  }

  function Times116(p: Byte): Byte {
    Byte(((p.b7 != p.b3) != p.b2) != p.b1, ((p.b6 != p.b2) != p.b1) != p.b0, (p.b5 != p.b1) != p.b0,
         (p.b7 != p.b4) != p.b0, ((p.b7 != p.b6) != p.b2) != p.b1, (((p.b6 != p.b5) != p.b3) != p.b2) != p.b0,
         (p.b5 != p.b4) != p.b3, (p.b4 != p.b3) != p.b2)
  }

  function Times38(p: Byte): Byte {
    Byte((p.b7 != p.b5) != p.b2, ((p.b7 != p.b6) != p.b4) != p.b1, (((p.b7 != p.b6) != p.b5) != p.b3) != p.b0,
         ((p.b6 != p.b5) != p.b4) != p.b2, (((p.b7 != p.b4) != p.b3) != p.b2) != p.b1,
         (((p.b6 != p.b5) != p.b3) != p.b1) != p.b0, (p.b7 != p.b4) != p.b0, p.b6 != p.b3)
  }

  function Times180(p: Byte): Byte {
    Byte(((p.b4 != p.b3) != p.b2) != p.b0, (p.b3 != p.b2) != p.b1, (p.b2 != p.b1) != p.b0, p.b1 != p.b0,
         ((p.b7 != p.b4) != p.b3) != p.b2, (((p.b7 != p.b6) != p.b4) != p.b1) != p.b0,
         ((p.b6 != p.b5) != p.b4) != p.b2, ((p.b5 != p.b4) != p.b3) != p.b1)
  }

  function Times5(p: Byte): Byte {
    Byte(p.b7 != p.b5, p.b6 != p.b4, (p.b7 != p.b5) != p.b3, ((p.b7 != p.b6) != p.b4) != p.b2,
         ((p.b7 != p.b6) != p.b3) != p.b1, (p.b6 != p.b2) != p.b0, p.b7 != p.b1, p.b6 != p.b0)
  }

  lemma CircleTo10(p: Byte)
    ensures Times32(Times32(p)) == Times116(p)
  {
  }

  lemma CircleTo15(p: Byte)
    ensures Times32(Times116(p)) == Times38(p)
  {
  }

  lemma CircleTo20(p: Byte)
    ensures Times32(Times38(p)) == Times180(p)
  {
  }

  lemma CircleTo25(p: Byte)
    ensures Times32(Times180(p)) == Times3(p)
  {
  }

  lemma CircleTo50(p: Byte)
    ensures Times3(Times3(p)) == Times5(p)
  {
  }

  lemma PowerPlus25(n: nat)
    ensures Power(TWO, n + 25) == Times3(Power(TWO, n))
  {
    hide Power, Times32, Times3, Times116, Times38, Times180;
    var p := Power(TWO, n);
    PowerPlus5(n);
    PowerPlus5(n + 5);
    CircleTo10(p);
    PowerPlus5(n + 10);
    CircleTo15(p);
    PowerPlus5(n + 15);
    CircleTo20(p);
    PowerPlus5(n + 20);
    CircleTo25(p);
  }

  lemma PowerPlus50(n: nat)
    ensures Power(TWO, n + 50) == Times5(Power(TWO, n))
  {
    hide Power, Times3, Times5;
    PowerPlus25(n);
    PowerPlus25(n + 25);
    CircleTo50(Power(TWO, n));
  }

  function Times17(p: Byte): Byte {
    Byte(p.b3, p.b7 != p.b2, (p.b7 != p.b6) != p.b1, (p.b6 != p.b5) != p.b0, ((p.b7 != p.b5) != p.b4) != p.b3,
         (p.b6 != p.b4) != p.b2, p.b5 != p.b1, p.b4 != p.b0)
  }

  function Times85(p: Byte): Byte {
    Byte(((p.b7 != p.b6) != p.b3) != p.b1, (((p.b7 != p.b6) != p.b5) != p.b2) != p.b0,
         ((p.b6 != p.b5) != p.b4) != p.b1, (((p.b7 != p.b5) != p.b4) != p.b3) != p.b0, (p.b4 != p.b2) != p.b1,
         (p.b7 != p.b6) != p.b0, (p.b5 != p.b3) != p.b1, ((p.b7 != p.b4) != p.b2) != p.b0)
  }

  function Times28(p: Byte): Byte {
    Byte(((p.b7 != p.b5) != p.b4) != p.b3, ((p.b6 != p.b4) != p.b3) != p.b2,
         (((p.b7 != p.b5) != p.b3) != p.b2) != p.b1, (((p.b6 != p.b4) != p.b2) != p.b1) != p.b0,
         (p.b4 != p.b1) != p.b0, ((p.b7 != p.b5) != p.b4) != p.b0, (p.b7 != p.b6) != p.b5, (p.b6 != p.b5) != p.b4)
  }

  function Times108(p: Byte): Byte {
    Byte((p.b4 != p.b2) != p.b1, (p.b3 != p.b1) != p.b0, p.b2 != p.b0, p.b1, ((p.b4 != p.b2) != p.b1) != p.b0,
         (((p.b7 != p.b4) != p.b3) != p.b2) != p.b0, (p.b6 != p.b4) != p.b3, (p.b5 != p.b3) != p.b2)
  }

  lemma CircleTo100(p: Byte)
    ensures Times5(Times5(p)) == Times17(p)
  {
  }

  lemma CircleTo150(p: Byte)
    ensures Times5(Times17(p)) == Times85(p)
  {
  }

  lemma CircleTo200(p: Byte)
    ensures Times5(Times85(p)) == Times28(p)
  {
  }

  lemma CircleTo250(p: Byte)
    ensures Times5(Times28(p)) == Times108(p)
  {
  }

  lemma CircleTo255(p: Byte)
    ensures Times32(Times108(p)) == p
  {
  }

  /** Multiplying by 2^255 changes nothing. */
  lemma PowerPlus255(n: nat)
    ensures Power(TWO, n + 255) == Power(TWO, n)
  {
    hide Power, Times32, Times5, Times17, Times85, Times28, Times108;
    var p := Power(TWO, n);
    PowerPlus50(n);
    PowerPlus50(n + 50);
    CircleTo100(p);
    PowerPlus50(n + 100);
    CircleTo150(p);
    PowerPlus50(n + 150);
    CircleTo200(p);
    PowerPlus50(n + 200);
    CircleTo250(p);
    PowerPlus5(n + 250);
    CircleTo255(p);
  }

  /** On the way from one back to one, the exponents 15, 51 and 85 are not the end. */
  lemma NotYetAround(p: Byte)
    requires p == ONE
    ensures Times32(Times32(Times32(p))) != p
    ensures XTime(Times5(p)) != p
    ensures Times32(Times32(Times3(Times5(p)))) != p
  {
  }

  lemma PowerPlusPart(n: nat)
    requires Power(TWO, n) == ONE
    ensures Power(TWO, n + 15) != ONE && Power(TWO, n + 51) != ONE && Power(TWO, n + 85) != ONE
  {
    hide Power, Times32, Times5, Times3, XTime;
    PowerPlus5(n);
    PowerPlus5(n + 5);
    PowerPlus5(n + 10);
    PowerPlus50(n);
    PowerSucc(n + 50);
    PowerPlus25(n + 50);
    PowerPlus5(n + 75);
    PowerPlus5(n + 80);
    NotYetAround(Power(TWO, n));
  }

  lemma PowerSucc(n: nat)
    ensures Power(TWO, n + 1) == XTime(Power(TWO, n))
  {
    hide Mul, XTime;
    MulUnits(Power(TWO, n));
  }

  lemma PowerQuotient(m: nat, n: nat)
    requires m <= n && Power(TWO, m) == ONE && Power(TWO, n) == ONE
    ensures Power(TWO, n - m) == ONE
  {
    hide Mul, Power;
    PowerAdd(TWO, m, n - m);
    MulUnits(Power(TWO, n - m));
  }

  lemma PowerMultiple(m: nat, q: nat)
    requires Power(TWO, m) == ONE
    ensures Power(TWO, m * q) == ONE
  {
    hide Power;
    PowerMul(TWO, m, q);
    PowerOfOne(q);
  }

  /** A period of 2 leaves a remainder of 255 that is a period too. */
  lemma PowerRemainder(m: nat)
    requires 0 < m && Power(TWO, m) == ONE
    ensures Power(TWO, 255 % m) == ONE
  {
    hide Power;
    PowerPlus255(0);
    PowerZero(TWO);
    PowerMultiple(m, 255 / m);
    assert m * (255 / m) + 255 % m == 255;
    PowerQuotient(m * (255 / m), 255);
  }

  lemma SmallDivisors(v: nat, w: nat)
    requires 0 < v < 16 && v * w == 255
    ensures (v == 1 && w == 255) || (v == 3 && w == 85) || (v == 5 && w == 51) || (v == 15 && w == 17)
  {
    if v < 8 {
      assert v == 1 || v == 2 || v == 3 || v == 4 || v == 5 || v == 6 || v == 7;
    } else {
      assert v == 8 || v == 9 || v == 10 || v == 11 || v == 12 || v == 13 || v == 14 || v == 15;
    }
  }

  /** Every proper divisor of 255 = 3 * 5 * 17 divides 85, 51 or 15. */
  lemma ProperDivisors(m: nat)
    requires 0 < m < 255 && 255 % m == 0
    ensures 85 % m == 0 || 51 % m == 0 || 15 % m == 0
  {
    var q := 255 / m;
    assert m * q == 255;
    if m < 16 {
      SmallDivisors(m, q);
    } else {
      assert q < 16;
      SmallDivisors(q, m);
    }
  }

  /** The element 2 has no period below 255. */
  lemma {:induction false} NoShortPeriod(m: nat)
    requires 0 < m < 255
    ensures Power(TWO, m) != ONE
  {
    hide Power;
    if Power(TWO, m) == ONE {
      PowerRemainder(m);
      if 255 % m != 0 {
        NoShortPeriod(255 % m);
      } else {
        ProperDivisors(m);
        var d := if 85 % m == 0 then 85 else if 51 % m == 0 then 51 else 15;
        PowerZero(TWO);
        PowerPlusPart(0);
        assert m * (d / m) == d;
        PowerMultiple(m, d / m);
      }
    }
  }

  /** 2 has order 255: its powers 2^0 .. 2^254 are distinct. */
  lemma PowersDistinct(i: nat, j: nat)
    requires i < 255 && j < 255
    ensures Power(TWO, i) == Power(TWO, j) <==> i == j
  {
    hide Mul, Power;
    if i < j {
      PowerAdd(TWO, i, j - i);
      PowerNonZero(TWO, i);
      NoShortPeriod(j - i);
      MulUnits(Power(TWO, i));
      if Power(TWO, i) == Power(TWO, j) {
        MulCancels(Power(TWO, i), Power(TWO, j - i), ONE);
      }
    } else if j < i {
      PowersDistinct(j, i);
    }
  }
}
