/**
 The Reed-Solomon generator polynomial and the shift register that divides by it.
 */
module ReedSolomon {
  import opened Gf256
  import opened GfField
  import opened Polynomials
  import opened Wrappers

  datatype Error = DegreeOutOfRange

  /** (x - 2^0)(x - 2^1)...(x - 2^(n-1)) */
  function RootsProduct(n: nat): (p: Poly)
    ensures |p| == n + 1
  {
    if n == 0 then [ONE] else Product(RootsProduct(n - 1), [ONE, Power(TWO, n - 1)])
  }

  /** One step of the shift register: append a data byte, subtract the multiple of the divisor
      that cancels the byte shifted out. */
  function Shift(rem: Poly, divisor: Poly, b: Byte): (r: Poly)
    requires |rem| == |divisor| > 0
    ensures |r| == |rem|
  {
    Add(rem[1..] + [ZERO], Scale(Xor(b, rem[0]), divisor))
  }

  /** The shift register after all of the data, starting from zero. */
  function Remainder(data: Poly, divisor: Poly): (r: Poly)
    requires divisor != []
    ensures |r| == |divisor|
  {
    if data == [] then Zeros(|divisor|)
    else Shift(Remainder(data[..|data| - 1], divisor), divisor, data[|data| - 1])
  }

  /** The generator polynomial of the given degree without its leading coefficient. */
  function Divisor(degree: nat): (d: Poly)
    ensures |d| == degree
  {
    RootsProduct(degree)[1..]
  }

  /** The codeword a block of data becomes: the data followed by its parity. */
  function Codeword(data: Poly, degree: nat): (c: Poly)
    requires degree > 0
    ensures |c| == |data| + degree
  {
    data + Remainder(data, Divisor(degree))
  }

  // ----- the divisor

  lemma RootsProductMonic(n: nat)
    ensures RootsProduct(n)[0] == ONE
  {
    hide Mul, Xor, Product;
    if n > 0 {
      RootsProductMonic(n - 1);
      TimesRootAt(RootsProduct(n - 1), Power(TWO, n - 1), 0);
      MulUnits(Power(TWO, n - 1));
      XorLaws(ONE, ZERO, ZERO);
    }
  }

  function At(p: Poly, k: int): Byte {
    if 0 <= k < |p| then p[k] else ZERO
  }

  /** The coefficients of p * (x - a). */
  lemma {:induction false} TimesRootAt(p: Poly, a: Byte, k: nat)
    requires k <= |p|
    ensures Product(p, [ONE, a])[k] == Xor(At(p, k), Mul(At(p, k - 1), a))
  {
    hide Mul, Xor;
    if p == [] {
      MulUnits(a);
      XorLaws(ZERO, ZERO, ZERO);
    } else {
      var n := |p| - 1;
      var low, top := Product(p[..n], [ONE, a]) + [ZERO], Zeros(n) + Scale(p[n], [ONE, a]);
      assert Product(p, [ONE, a])[k] == Xor(low[k], top[k]);
      MulUnits(p[n]);
      MulUnits(a);
      if k < n {
        TimesRootAt(p[..n], a, k);
        XorLaws(low[k], ZERO, ZERO);
      } else if k == n {
        TimesRootAt(p[..n], a, k);
        var m := Mul(At(p[..n], k - 1), a);
        assert low[k] == Xor(ZERO, m) && top[k] == Mul(p[n], ONE);
        assert At(p[..n], k - 1) == At(p, k - 1);
        XorLaws(m, p[n], ZERO);
      } else {
        XorLaws(top[k], ZERO, ZERO);
      }
    }
  }

  /** The register of reedSolomonComputeDivisor after i rounds: the product of the first i factors,
      right-aligned, without the coefficient that would be at its left. */
  function DivisorRegister(degree: nat, i: nat): (r: Poly)
    requires i <= degree
    ensures |r| == degree
  {
    (Zeros(degree - i) + RootsProduct(i))[1..]
  }

  /** The next register from the current one, position by position. */
  lemma DivisorRegisterStep(degree: nat, i: nat, j: nat)
    requires i < degree && j < degree
    ensures DivisorRegister(degree, i + 1)[j]
         == (var p := Mul(DivisorRegister(degree, i)[j], Power(TWO, i));
             if j + 1 < degree then Xor(p, DivisorRegister(degree, i)[j + 1]) else p)
  {
    hide Mul, Xor, Product;
    var p, a := RootsProduct(i), Power(TWO, i);
    var m := j + 1 - (degree - i);  // the position in p of the register's entry j
    var here, next := At(p, m), At(p, m + 1);
    assert DivisorRegister(degree, i)[j] == here;
    assert j + 1 < degree ==> DivisorRegister(degree, i)[j + 1] == next;
    assert j + 1 == degree ==> next == ZERO;
    MulUnits(a);
    XorLaws(Mul(here, a), ZERO, ZERO);
    XorLaws(next, Mul(here, a), ZERO);
    if m + 1 >= 0 {
      TimesRootAt(p, a, m + 1);
    }
  }

  method ComputeDivisor(degree: int) returns (r: Result<Poly, Error>)
    ensures r == if 1 <= degree <= 255 then Success(Divisor(degree)) else Failure(DegreeOutOfRange)
  {
    hide Mul, Xor, Product;
    if degree < 1 || degree > 255 {
      return Failure(DegreeOutOfRange);
    }
    var result := Zeros(degree);
    result := result[|result| - 1 := ONE];
    var root := ONE;
    var i := 0;
    assert result == DivisorRegister(degree, 0) by {
      assert RootsProduct(0) == [ONE];
    }
    while i < degree
      invariant 0 <= i <= degree
      invariant root == Power(TWO, i)
      invariant result == DivisorRegister(degree, i)
    {
      var j := 0;
      while j < |result|
        invariant 0 <= j <= |result| == degree
        invariant forall k :: 0 <= k < j ==> result[k] == DivisorRegister(degree, i + 1)[k]
        invariant forall k :: j <= k < degree ==> result[k] == DivisorRegister(degree, i)[k]
      {
        DivisorRegisterStep(degree, i, j);
        var p := Multiply(result[j], root);
        result := result[j := p];
        if j + 1 < |result| {
          result := result[j := Xor(result[j], result[j + 1])];
        }
        j := j + 1;
      }
      root := Multiply(root, TWO);
      i := i + 1;
    }
    assert Zeros(0) + RootsProduct(degree) == RootsProduct(degree);
    r := Success(result);
  }

  /** The generator polynomial vanishes at its roots, and nowhere else. */
  lemma {:induction false} RootsProductZeros(n: nat, x: Byte)
    ensures Eval(RootsProduct(n), x) == ZERO <==> exists i: nat :: i < n && x == Power(TWO, i)
  {
    hide Mul, Xor, Product, Power;
    if n == 0 {
      assert RootsProduct(0) == [] + [ONE];
      EvalSnoc([], ONE, x);
      MulUnits(x);
      XorLaws(ONE, ZERO, ZERO);
    } else {
      var p, a := RootsProduct(n - 1), Power(TWO, n - 1);
      EvalProduct(p, [ONE, a], x);
      assert [ONE, a] == ([] + [ONE]) + [a];
      EvalSnoc([], ONE, x);
      EvalSnoc([] + [ONE], a, x);
      MulUnits(x);
      XorLaws(ONE, ZERO, ZERO);
      XorIsZero(x, a);
      RootsProductZeros(n - 1, x);
      var u, v := Eval(p, x), Xor(x, a);
      MulUnits(u);
      MulUnits(v);
      if Mul(u, v) == ZERO {
        NoZeroDivisors(u, v);
      }
      assert Eval(RootsProduct(n), x) == ZERO <==> u == ZERO || x == a;
      if u == ZERO {
        var i: nat :| i < n - 1 && x == Power(TWO, i);
        assert i < n && x == Power(TWO, i);
      } else if x == a {
        var i: nat := n - 1;
        assert i < n && x == Power(TWO, i);
      } else {
        forall i: nat | i < n
          ensures x != Power(TWO, i)
        {
          assert i == n - 1 || i < n - 1;
        }
      }
    }
  }

  // ----- the remainder

  /** The shift register for any nonempty divisor, as the source runs it on a vector. */
  method ComputeRemainder(data: Poly, divisor: Poly) returns (result: Poly)
    requires divisor != []
    ensures result == Remainder(data, divisor)
  {
    hide Mul, Xor;
    result := Zeros(|divisor|);
    var n := 0;
    while n < |data|
      invariant 0 <= n <= |data|
      invariant result == Remainder(data[..n], divisor)
    {
      var factor := Xor(data[n], result[0]);
      ghost var before := result;
      result := result[1..];
      result := result + [ZERO];
      ghost var shifted := result;
      var i := 0;
      while i < |result|
        invariant 0 <= i <= |result| == |divisor|
        invariant forall k :: 0 <= k < i ==> result[k] == Xor(shifted[k], Mul(factor, divisor[k]))
        invariant forall k :: i <= k < |result| ==> result[k] == shifted[k]
      {
        var p := Multiply(divisor[i], factor);
        MulCommutes(divisor[i], factor);
        result := result[i := Xor(result[i], p)];
        i := i + 1;
      }
      assert result == Shift(before, divisor, data[n]);
      assert data[..n + 1][..n] == data[..n];
      n := n + 1;
    }
    assert data[..n] == data;
  }

  /** The quotient digits the shift register passes through. */
  function Quotient(data: Poly, divisor: Poly): (q: Poly)
    requires divisor != []
    ensures |q| == |data|
  {
    if data == [] then [] else
    var n := |data| - 1;
    Quotient(data[..n], divisor) + [Xor(data[n], Remainder(data[..n], divisor)[0])]
  }

  /** The shift register computes polynomial division by the monic polynomial x^n + divisor. */
  lemma {:induction false} RemainderDivides(data: Poly, divisor: Poly)
    requires divisor != []
    ensures IsDivision(data, divisor, Quotient(data, divisor), Remainder(data, divisor))
  {
    if data == [] {
      hide Mul, Xor;
      assert Product([], [ONE] + divisor) == Zeros(|divisor|);
    } else {
      hide Mul, Xor, Product;
      var n := |data| - 1;
      var d, q, rem := [ONE] + divisor, Quotient(data[..n], divisor), Remainder(data[..n], divisor);
      var f := Xor(data[n], rem[0]);
      RemainderDivides(data[..n], divisor);
      ProductSnoc(q, f, d);
      var low, top := Product(q, d) + [ZERO], Zeros(n) + Scale(f, d);
      var next := data[..n] + [data[n]] + Shift(rem, divisor, data[n]);
      forall k | 0 <= k < |next|
        ensures next[k] == Xor(low[k], top[k])
      {
        DivisionStepAt(data[..n], rem, divisor, data[n], low, top, k);
      }
      assert next == Add(low, top);
      assert data == data[..n] + [data[n]];
    }
  }

  lemma DivisionStepAt(data: Poly, rem: Poly, divisor: Poly, b: Byte, low: Poly, top: Poly, k: nat)
    requires |rem| == |divisor| > 0 && k <= |data| + |divisor|
    requires low == data + rem + [ZERO]
    requires top == Zeros(|data|) + Scale(Xor(b, rem[0]), [ONE] + divisor)
    ensures (data + [b] + Shift(rem, divisor, b))[k] == Xor(low[k], top[k])
  {
    hide Mul, Xor;
    var f := Xor(b, rem[0]);
    if k < |data| {
      XorLaws(low[k], ZERO, ZERO);
    } else if k == |data| {
      MulUnits(f);
      XorLaws(b, rem[0], ZERO);
      XorLaws(rem[0], b, ZERO);
    } else {
      var j := k - |data| - 1;
      assert low[k] == (rem[1..] + [ZERO])[j];
      assert top[k] == Mul(f, divisor[j]);
    }
  }

  /** For any monic divisor the loop computes the one polynomial of lower degree that is congruent
      to data * x^degree. */
  lemma RemainderCharacterised(data: Poly, divisor: Poly, r: Poly)
    requires divisor != []
    ensures r == Remainder(data, divisor) <==> exists q :: IsDivision(data, divisor, q, r)
  {
    hide Mul, Xor, Product;
    RemainderDivides(data, divisor);
    forall q | IsDivision(data, divisor, q, r)
      ensures r == Remainder(data, divisor)
    {
      DivisionUnique(data, divisor, q, r, Quotient(data, divisor), Remainder(data, divisor));
    }
  }

  /** Reed-Solomon correctness: every codeword vanishes at 2^0 .. 2^(degree-1). */
  lemma CodewordVanishes(data: Poly, degree: nat, i: nat)
    requires i < degree
    ensures Eval(Codeword(data, degree), Power(TWO, i)) == ZERO
  {
    hide Mul, Xor, Product;
    var d := Divisor(degree);
    var q := Quotient(data, d);
    RemainderDivides(data, d);
    RootsProductMonic(degree);
    assert [ONE] + d == RootsProduct(degree);
    EvalProduct(q, RootsProduct(degree), Power(TWO, i));
    RootsProductZeros(degree, Power(TWO, i));
    MulUnits(Eval(q, Power(TWO, i)));
  }
}
