/**
 Polynomials over GF(2^8), stored as sequences of coefficients from the highest power down.
 */
module Polynomials {
  import opened Gf256

  type Poly = seq<Byte>

  function Zeros(n: nat): (p: Poly)
    ensures |p| == n
  {
    seq(n, i => ZERO)
  }

  function Add(p: Poly, q: Poly): (r: Poly)
    requires |p| == |q|
    ensures |r| == |p|
  {
    seq(|p|, i requires 0 <= i < |p| => Xor(p[i], q[i]))
  }

  function Scale(c: Byte, p: Poly): (r: Poly)
    ensures |r| == |p|
  {
    seq(|p|, i requires 0 <= i < |p| => Mul(c, p[i]))
  }

  /** The value of the polynomial at x. */
  function Eval(p: Poly, x: Byte): Byte {
    if p == [] then ZERO else Xor(Mul(Eval(p[..|p| - 1], x), x), p[|p| - 1])
  }

  /** The product of two polynomials, by schoolbook multiplication. */
  function Product(q: Poly, d: Poly): (r: Poly)
    requires d != []
    ensures |r| == |q| + |d| - 1
  {
    if q == [] then Zeros(|d| - 1)
    else Add(Product(q[..|q| - 1], d) + [ZERO], Zeros(|q| - 1) + Scale(q[|q| - 1], d))
  }

  lemma ProductSnoc(q: Poly, f: Byte, d: Poly)
    requires d != []
    ensures Product(q + [f], d) == Add(Product(q, d) + [ZERO], Zeros(|q|) + Scale(f, d))
  {
    hide Mul, Xor;
    assert (q + [f])[..|q|] == q;
  }

  // ----- evaluation is a ring homomorphism

  lemma EvalSnoc(p: Poly, c: Byte, x: Byte)
    ensures Eval(p + [c], x) == Xor(Mul(Eval(p, x), x), c)
  {
    hide Mul, Xor;
    assert (p + [c])[..|p|] == p;
  }

  lemma {:induction false} EvalZeros(n: nat, x: Byte)
    ensures Eval(Zeros(n), x) == ZERO
  {
    hide Mul, Xor;
    if n > 0 {
      assert Zeros(n) == Zeros(n - 1) + [ZERO];
      EvalZeros(n - 1, x);
      EvalSnoc(Zeros(n - 1), ZERO, x);
      MulUnits(x);
      XorLaws(ZERO, ZERO, ZERO);
    }
  }

  lemma {:induction false} EvalAdd(p: Poly, q: Poly, x: Byte)
    requires |p| == |q|
    ensures Eval(Add(p, q), x) == Xor(Eval(p, x), Eval(q, x))
  {
    hide Mul, Xor;
    if p == [] {
      XorLaws(ZERO, ZERO, ZERO);
    } else {
      var n := |p| - 1;
      EvalAdd(p[..n], q[..n], x);
      assert Add(p, q) == Add(p[..n], q[..n]) + [Xor(p[n], q[n])];
      EvalSnoc(Add(p[..n], q[..n]), Xor(p[n], q[n]), x);
      MulDistributes(x, Eval(p[..n], x), Eval(q[..n], x));
      XorShuffle(Mul(Eval(p[..n], x), x), Mul(Eval(q[..n], x), x), p[n], q[n]);
    }
  }

  lemma {:induction false} EvalScale(c: Byte, p: Poly, x: Byte)
    ensures Eval(Scale(c, p), x) == Mul(c, Eval(p, x))
  {
    hide Mul, Xor;
    if p == [] {
      MulUnits(c);
    } else {
      var n := |p| - 1;
      EvalScale(c, p[..n], x);
      assert Scale(c, p) == Scale(c, p[..n]) + [Mul(c, p[n])];
      EvalSnoc(Scale(c, p[..n]), Mul(c, p[n]), x);
      MulAssociates(c, Eval(p[..n], x), x);
      MulDistributes(c, Mul(Eval(p[..n], x), x), p[n]);
    }
  }

  lemma {:induction false} EvalPadded(n: nat, p: Poly, x: Byte)
    ensures Eval(Zeros(n) + p, x) == Eval(p, x)
  {
    hide Mul, Xor;
    if p == [] {
      EvalZeros(n, x);
      assert Zeros(n) + p == Zeros(n);
    } else {
      var m := |p| - 1;
      EvalPadded(n, p[..m], x);
      assert Zeros(n) + p == (Zeros(n) + p[..m]) + [p[m]];
      EvalSnoc(Zeros(n) + p[..m], p[m], x);
    }
  }

  /** The highest coefficient, split off. */
  lemma {:induction false} EvalCons(c: Byte, p: Poly, x: Byte)
    ensures Eval([c] + p, x) == Xor(Mul(c, Power(x, |p|)), Eval(p, x))
  {
    hide Mul, Xor;
    if p == [] {
      assert [c] + p == [] + [c];
      EvalSnoc([], c, x);
      MulUnits(x);
      MulUnits(c);
      XorLaws(c, ZERO, ZERO);
    } else {
      var m := |p| - 1;
      EvalCons(c, p[..m], x);
      assert [c] + p == ([c] + p[..m]) + [p[m]];
      EvalSnoc([c] + p[..m], p[m], x);
      MulDistributes(x, Mul(c, Power(x, m)), Eval(p[..m], x));
      MulAssociates(c, Power(x, m), x);
      XorLaws(Mul(c, Power(x, |p|)), Mul(Eval(p[..m], x), x), p[m]);
    }
  }

  /** Evaluating a product multiplies the values. */
  lemma {:induction false} EvalProduct(q: Poly, d: Poly, x: Byte)
    requires d != []
    ensures Eval(Product(q, d), x) == Mul(Eval(q, x), Eval(d, x))
  {
    hide Mul, Xor;
    if q == [] {
      EvalZeros(|d| - 1, x);
      MulUnits(Eval(d, x));
    } else {
      var n := |q| - 1;
      var low, top := Product(q[..n], d) + [ZERO], Zeros(n) + Scale(q[n], d);
      EvalProduct(q[..n], d, x);
      EvalAdd(low, top, x);
      EvalSnoc(Product(q[..n], d), ZERO, x);
      EvalPadded(n, Scale(q[n], d), x);
      EvalScale(q[n], d, x);
      var e, v := Eval(q[..n], x), Eval(d, x);
      XorLaws(Mul(Mul(e, v), x), ZERO, ZERO);
      ProductStep(e, v, x, q[n]);
    }
  }

  lemma ProductStep(e: Byte, v: Byte, x: Byte, c: Byte)
    ensures Xor(Mul(Mul(e, v), x), Mul(c, v)) == Mul(Xor(Mul(e, x), c), v)
  {
    hide Mul, Xor;
    MulAssociates(e, v, x);
    MulCommutes(v, x);
    MulAssociates(e, x, v);
    MulDistributes(v, Mul(e, x), c);
  }

  // ----- division by a monic polynomial

  /** r is what remains of data * x^|r| after taking away q times the monic polynomial whose lower
      coefficients are `divisor`; r has lower degree than that polynomial. */
  predicate IsDivision(data: Poly, divisor: Poly, q: Poly, r: Poly) {
    |q| == |data| && |r| == |divisor| && data + r == Product(q, [ONE] + divisor)
  }

  lemma ProductAt(q: Poly, d: Poly, k: nat)
    requires d != [] && q != [] && k < |q| + |d| - 1
    ensures k < |q| - 1 ==> Product(q, d)[k] == Product(q[..|q| - 1], d)[k]
    ensures k == |q| - 1 && |d| > 1 ==>
              Product(q, d)[k] == Xor(Product(q[..k], d)[k], Mul(q[k], d[0]))
    ensures k == |q| - 1 && |d| == 1 ==> Product(q, d)[k] == Mul(q[k], d[0])
  {
    hide Mul, Xor;
    var n := |q| - 1;
    var low, top := Product(q[..n], d) + [ZERO], Zeros(n) + Scale(q[n], d);
    assert Product(q, d)[k] == Xor(low[k], top[k]);
    if k < n {
      XorLaws(low[k], ZERO, ZERO);
    } else if k == n && |d| == 1 {
      XorLaws(top[k], ZERO, ZERO);
    }
  }

  /** The quotient and the remainder of a monic division are unique. */
  lemma DivisionUnique(data: Poly, divisor: Poly, q: Poly, r: Poly, q': Poly, r': Poly)
    requires IsDivision(data, divisor, q, r) && IsDivision(data, divisor, q', r')
    ensures q == q' && r == r'
  {
    hide Mul, Xor, Product;
    QuotientUnique(data, [ONE] + divisor, q, q');
    assert r == (data + r)[|data|..] && r' == (data + r')[|data|..];
  }

  lemma {:induction false} QuotientUnique(data: Poly, d: Poly, q: Poly, q': Poly)
    requires d != [] && d[0] == ONE
    requires |q| == |q'| == |data|
    requires data <= Product(q, d) && data <= Product(q', d)
    ensures q == q'
  {
    hide Mul, Xor, Product;
    if q != [] {
      var n := |q| - 1;
      forall k | 0 <= k < n
        ensures data[k] == Product(q[..n], d)[k] == Product(q'[..n], d)[k]
      {
        ProductAt(q, d, k);
        ProductAt(q', d, k);
      }
      QuotientUnique(data[..n], d, q[..n], q'[..n]);
      ProductAt(q, d, n);
      ProductAt(q', d, n);
      MulUnits(q[n]);
      MulUnits(q'[n]);
      if |d| > 1 {
        var c := Product(q[..n], d)[n];
        XorLaws(c, q[n], ZERO);
        XorLaws(c, q'[n], ZERO);
      }
      assert q == q[..n] + [q[n]] && q' == q'[..n] + [q'[n]];
    }
  }
}
