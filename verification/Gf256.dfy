/**
 The field GF(2^8) modulo x^8 + x^4 + x^3 + x^2 + 1 (0x11D) in which the QR Code error
 correction works, and the Russian-peasant multiplication that implements its product.
 */
module Gf256 {

  /** An unsigned 8-bit value, most significant bit first. */
  datatype Byte = Byte(b7: bool, b6: bool, b5: bool, b4: bool, b3: bool, b2: bool, b1: bool, b0: bool)

  const ZERO := Byte(false, false, false, false, false, false, false, false)
  const ONE := Byte(false, false, false, false, false, false, false, true)
  const TWO := Byte(false, false, false, false, false, false, true, false)

  /** A 9-bit intermediate value: the carry out of a shift, and the low byte. */
  datatype Wide = Wide(b8: bool, low: Byte)

  /** The low byte of the field polynomial 0x11D. */
  const POLY_LOW := Byte(false, false, false, true, true, true, false, true)

  function ShiftRight(y: Byte): Byte {
    Byte(false, y.b7, y.b6, y.b5, y.b4, y.b3, y.b2, y.b1)
  }

  /** y >> n */
  function Shr(y: Byte, n: nat): Byte {
    if n == 0 then y else ShiftRight(Shr(y, n - 1))
  }

  /** (y >> i) & 1 */
  function Bit(y: Byte, i: nat): bool {
    Shr(y, i).b0
  }

  function Xor(a: Byte, b: Byte): Byte {
    Byte(a.b7 != b.b7, a.b6 != b.b6, a.b5 != b.b5, a.b4 != b.b4,
         a.b3 != b.b3, a.b2 != b.b2, a.b1 != b.b1, a.b0 != b.b0)
  }

  /** `a` where the bit is set and zero elsewhere: multiplication of a byte by a bit. */
  function Gate(bit: bool, a: Byte): Byte {
    if bit then a else ZERO
  }

  /** Multiplication by the element 2. */
  function XTime(z: Byte): Byte {
    Byte(z.b6, z.b5, z.b4, z.b3 != z.b7, z.b2 != z.b7, z.b1 != z.b7, z.b0, z.b7)
  }

  /** The product accumulated from the top k bits of y. */
  function MulTop(x: Byte, y: Byte, k: nat): Byte
    requires k <= 8
    decreases k, x
  {
    if k == 0 then ZERO else Xor(XTime(MulTop(x, y, k - 1)), Gate(Bit(y, 8 - k), x))
  }

  /** The loop over the low k bits of y, highest first, from the value z so far. */
  function MulLoop(x: Byte, y: Byte, z: Byte, k: nat): Byte
    requires k <= 8
    decreases k, x
  {
    if k == 0 then z else MulLoop(x, y, Xor(XTime(z), Gate(Bit(y, k - 1), x)), k - 1)
  }

  /** The field product. */
  function Mul(x: Byte, y: Byte): Byte {
    MulLoop(x, y, ZERO, 8)
  }

  lemma {:induction false} MulLoopTop(x: Byte, y: Byte, k: nat)
    requires k <= 8
    ensures MulLoop(x, y, MulTop(x, y, 8 - k), k) == MulTop(x, y, 8)
  {
    hide Xor, XTime, Bit;
    if k > 0 {
      MulLoopTop(x, y, k - 1);
    }
  }

  /** The product accumulated from all bits of y. */
  lemma MulIsTop(x: Byte, y: Byte)
    ensures Mul(x, y) == MulTop(x, y, 8)
  {
    hide Xor, XTime, Bit;
    MulLoopTop(x, y, 8);
  }

  function Power(x: Byte, n: nat): Byte
    decreases n, x
  {
    if n == 0 then ONE else Mul(Power(x, n - 1), x)
  }

  function WideXor(a: Wide, b: Wide): Wide {
    Wide(a.b8 != b.b8, Xor(a.low, b.low))
  }

  /** Shifting an 8-bit value left by one into nine bits. */
  function ShiftLeft(z: Byte): Wide {
    Wide(z.b7, Byte(z.b6, z.b5, z.b4, z.b3, z.b2, z.b1, z.b0, false))
  }

  /** The source's loop over the bits of y. The intermediate value never needs its ninth bit, so
      the range check that ends the function cannot fail. */
  method Multiply(x: Byte, y: Byte) returns (product: Byte)
    ensures product == Mul(x, y)
  {
    hide Xor, XTime, WideXor, ShiftLeft, Bit, Mul;
    var z := Wide(false, ZERO);
    var i := 7;
    while i >= 0
      invariant -1 <= i <= 7
      invariant z == Wide(false, MulTop(x, y, 7 - i))
    {
      ReduceStep(z.low, Gate(Bit(y, i), x));
      z := WideXor(ShiftLeft(z.low), if z.low.b7 then Wide(true, POLY_LOW) else Wide(false, ZERO));
      z := WideXor(z, Wide(false, Gate(Bit(y, i), x)));
      i := i - 1;
    }
    assert !z.b8;
    MulIsTop(x, y);
    product := z.low;
  }

  lemma ReduceStep(z: Byte, gated: Byte)
    ensures WideXor(ShiftLeft(z), if z.b7 then Wide(true, POLY_LOW) else Wide(false, ZERO))
         == Wide(false, XTime(z))
    ensures WideXor(Wide(false, XTime(z)), Wide(false, gated)) == Wide(false, Xor(XTime(z), gated))
  {
  }

  // ----- the additive group

  lemma XorLaws(a: Byte, b: Byte, c: Byte)
    ensures Xor(a, b) == Xor(b, a)
    ensures Xor(Xor(a, b), c) == Xor(a, Xor(b, c))
    ensures Xor(a, ZERO) == a == Xor(ZERO, a)
    ensures Xor(a, a) == ZERO
    ensures Xor(a, Xor(a, b)) == b
  {
    XorAssociates(a, b, c);
    XorAssociates(a, a, b);
  }

  lemma XorAssociates(a: Byte, b: Byte, c: Byte)
    ensures Xor(Xor(a, b), c) == Xor(a, Xor(b, c))
  {
  }

  lemma XorShuffle(a: Byte, b: Byte, c: Byte, d: Byte)
    ensures Xor(Xor(a, b), Xor(c, d)) == Xor(Xor(a, c), Xor(b, d))
  {
  }

  lemma XorIsZero(a: Byte, b: Byte)
    ensures Xor(a, b) == ZERO <==> a == b
  {
  }

  lemma XTimeLinear(a: Byte, b: Byte)
    ensures XTime(Xor(a, b)) == Xor(XTime(a), XTime(b))
  {
  }

  lemma ShiftRightXor(y: Byte, z: Byte)
    ensures ShiftRight(Xor(y, z)) == Xor(ShiftRight(y), ShiftRight(z))
    ensures Xor(y, z).b0 == (y.b0 != z.b0)
  {
  }

  lemma {:induction false} ShrXor(y: Byte, z: Byte, n: nat)
    ensures Shr(Xor(y, z), n) == Xor(Shr(y, n), Shr(z, n))
  {
    hide Xor, ShiftRight;
    if n > 0 {
      ShrXor(y, z, n - 1);
      ShiftRightXor(Shr(y, n - 1), Shr(z, n - 1));
    }
  }

  lemma BitOfXor(y: Byte, z: Byte, i: nat)
    ensures Bit(Xor(y, z), i) == (Bit(y, i) != Bit(z, i))
  {
    hide Shr;
    ShrXor(y, z, i);
  }

  lemma GateXor(p: bool, q: bool, x: Byte)
    ensures Gate(p != q, x) == Xor(Gate(p, x), Gate(q, x))
  {
    XorLaws(x, x, x);
  }

  lemma GateLinear(p: bool, x: Byte, y: Byte)
    ensures Gate(p, Xor(x, y)) == Xor(Gate(p, x), Gate(p, y))
  {
    XorLaws(ZERO, ZERO, ZERO);
  }

  lemma GateXTime(p: bool, x: Byte)
    ensures Gate(p, XTime(x)) == XTime(Gate(p, x))
    ensures XTime(ZERO) == ZERO
  {
  }

  // ----- the product is bilinear

  lemma {:induction false} MulTopXorRight(x: Byte, y: Byte, z: Byte, k: nat)
    requires k <= 8
    ensures MulTop(x, Xor(y, z), k) == Xor(MulTop(x, y, k), MulTop(x, z, k))
  {
    hide Xor, XTime, Bit;
    if k == 0 {
      XorLaws(ZERO, ZERO, ZERO);
    } else {
      MulTopXorRight(x, y, z, k - 1);
      XTimeLinear(MulTop(x, y, k - 1), MulTop(x, z, k - 1));
      BitOfXor(y, z, 8 - k);
      GateXor(Bit(y, 8 - k), Bit(z, 8 - k), x);
      XorShuffle(XTime(MulTop(x, y, k - 1)), XTime(MulTop(x, z, k - 1)),
                 Gate(Bit(y, 8 - k), x), Gate(Bit(z, 8 - k), x));
    }
  }

  lemma {:induction false} MulTopXorLeft(x: Byte, x': Byte, y: Byte, k: nat)
    requires k <= 8
    ensures MulTop(Xor(x, x'), y, k) == Xor(MulTop(x, y, k), MulTop(x', y, k))
  {
    hide Xor, XTime, Bit;
    if k == 0 {
      XorLaws(ZERO, ZERO, ZERO);
    } else {
      MulTopXorLeft(x, x', y, k - 1);
      XTimeLinear(MulTop(x, y, k - 1), MulTop(x', y, k - 1));
      GateLinear(Bit(y, 8 - k), x, x');
      XorShuffle(XTime(MulTop(x, y, k - 1)), XTime(MulTop(x', y, k - 1)),
                 Gate(Bit(y, 8 - k), x), Gate(Bit(y, 8 - k), x'));
    }
  }

  /** Bilinearity over xor. */
  lemma MulDistributes(x: Byte, y: Byte, z: Byte)
    ensures Mul(x, Xor(y, z)) == Xor(Mul(x, y), Mul(x, z))
    ensures Mul(Xor(y, z), x) == Xor(Mul(y, x), Mul(z, x))
  {
    hide Mul, MulTop, Xor;
    MulTopXorRight(x, y, z, 8);
    MulTopXorLeft(y, z, x, 8);
    MulIsTop(x, Xor(y, z));
    MulIsTop(Xor(y, z), x);
    MulIsTop(x, y);
    MulIsTop(x, z);
    MulIsTop(y, x);
    MulIsTop(z, x);
  }

  lemma {:induction false} MulTopXTime(x: Byte, y: Byte, k: nat)
    requires k <= 8
    ensures MulTop(XTime(x), y, k) == XTime(MulTop(x, y, k))
  {
    hide Xor, XTime, Bit;
    if k > 0 {
      MulTopXTime(x, y, k - 1);
      XTimeLinear(XTime(MulTop(x, y, k - 1)), Gate(Bit(y, 8 - k), x));
      GateXTime(Bit(y, 8 - k), x);
    } else {
      GateXTime(false, x);
    }
  }

  lemma {:induction false} MulTopZero(y: Byte, k: nat)
    requires k <= 8
    ensures MulTop(ZERO, y, k) == ZERO
  {
    if k > 0 {
      MulTopZero(y, k - 1);
    }
  }

  lemma MulZeroLeft(y: Byte)
    ensures Mul(ZERO, y) == ZERO
  {
    hide Mul, MulTop;
    MulTopZero(y, 8);
    MulIsTop(ZERO, y);
  }

  lemma MulXTimeLeft(x: Byte, y: Byte)
    ensures Mul(XTime(x), y) == XTime(Mul(x, y))
  {
    hide Mul, MulTop, XTime;
    MulTopXTime(x, y, 8);
    MulIsTop(x, y);
    MulIsTop(XTime(x), y);
  }

  lemma ShiftBack(w: Byte)
    ensures Xor(XTime(ShiftRight(w)), Gate(w.b0, ONE)) == w
  {
  }

  lemma ShrEight(y: Byte)
    ensures Shr(y, 8) == ZERO
  {
    var f := false;
    assert Shr(y, 1) == Byte(f, y.b7, y.b6, y.b5, y.b4, y.b3, y.b2, y.b1);
    assert Shr(y, 2) == Byte(f, f, y.b7, y.b6, y.b5, y.b4, y.b3, y.b2);
    assert Shr(y, 3) == Byte(f, f, f, y.b7, y.b6, y.b5, y.b4, y.b3);
    assert Shr(y, 4) == Byte(f, f, f, f, y.b7, y.b6, y.b5, y.b4);
    assert Shr(y, 5) == Byte(f, f, f, f, f, y.b7, y.b6, y.b5);
    assert Shr(y, 6) == Byte(f, f, f, f, f, f, y.b7, y.b6);
  }

  lemma {:induction false} MulTopOne(y: Byte, k: nat)
    requires k <= 8
    ensures MulTop(ONE, y, k) == Shr(y, 8 - k)
  {
    hide Xor, XTime, ShiftRight, Gate;
    if k == 0 {
      ShrEight(y);
    } else {
      MulTopOne(y, k - 1);
      ShiftBack(Shr(y, 8 - k));
    }
  }

  lemma MulOneLeft(y: Byte)
    ensures Mul(ONE, y) == y
  {
    hide Mul, MulTop;
    MulTopOne(y, 8);
    MulIsTop(ONE, y);
  }

  // ----- the product is commutative and associative

  lemma {:induction false} MulTopSwap(x: Byte, y: Byte, k: nat)
    requires k <= 8
    ensures MulTop(x, y, k) == Mul(MulTop(ONE, y, k), x)
  {
    hide Xor, XTime, Bit, Mul;
    if k == 0 {
      MulZeroLeft(x);
    } else {
      var p, bit := MulTop(ONE, y, k - 1), Bit(y, 8 - k);
      MulTopSwap(x, y, k - 1);
      MulDistributes(x, XTime(p), Gate(bit, ONE));
      MulXTimeLeft(p, x);
      MulOneLeft(x);
      MulZeroLeft(x);
    }
  }

  lemma MulCommutes(x: Byte, y: Byte)
    ensures Mul(x, y) == Mul(y, x)
  {
    hide Mul, MulTop;
    MulTopSwap(x, y, 8);
    MulIsTop(x, y);
    MulIsTop(ONE, y);
    MulOneLeft(y);
  }

  lemma {:induction false} MulTopAssociates(x: Byte, y: Byte, z: Byte, k: nat)
    requires k <= 8
    ensures Mul(x, MulTop(y, z, k)) == MulTop(Mul(x, y), z, k)
  {
    hide Xor, XTime, Bit, Mul;
    if k == 0 {
      MulCommutes(x, ZERO);
      MulZeroLeft(x);
    } else {
      var p, bit := MulTop(y, z, k - 1), Bit(z, 8 - k);
      MulTopAssociates(x, y, z, k - 1);
      MulDistributes(x, XTime(p), Gate(bit, y));
      MulCommutes(x, XTime(p));
      MulXTimeLeft(p, x);
      MulCommutes(p, x);
      MulCommutes(x, ZERO);
      MulZeroLeft(x);
    }
  }

  lemma MulAssociates(x: Byte, y: Byte, z: Byte)
    ensures Mul(x, Mul(y, z)) == Mul(Mul(x, y), z)
  {
    hide Mul, MulTop;
    MulTopAssociates(x, y, z, 8);
    MulIsTop(y, z);
    MulIsTop(Mul(x, y), z);
  }

  lemma MulUnits(x: Byte)
    ensures Mul(ONE, x) == x == Mul(x, ONE)
    ensures Mul(ZERO, x) == ZERO == Mul(x, ZERO)
    ensures Mul(x, TWO) == XTime(x)
  {
    assert TWO == XTime(ONE);
    hide Mul, XTime, Xor;
    MulOneLeft(x);
    MulCommutes(ONE, x);
    MulZeroLeft(x);
    MulCommutes(ZERO, x);
    MulXTimeLeft(ONE, x);
    MulCommutes(TWO, x);
  }
}
