/**
 The minimum distance of the Reed-Solomon code: Vandermonde elimination over GF(2^8).
 */
module ReedSolomonDistance {
  import opened Gf256
  import opened GfField
  import opened Polynomials
  import opened ReedSolomon

  /** The positions where two words of equal length differ. */
  function Differences(a: Poly, b: Poly): set<int>
    requires |a| == |b|
  {
    set k | 0 <= k < |a| && a[k] != b[k]
  }

  function Support(e: Poly): set<int> {
    set k | 0 <= k < |e| && e[k] != ZERO
  }

  /** sum over k of e[k] * x[k]^i */
  function PowerSum(e: Poly, x: seq<Byte>, i: nat): Byte
    requires |e| == |x|
  {
    if e == [] then ZERO else Xor(Mul(e[0], Power(x[0], i)), PowerSum(e[1..], x[1..], i))
  }

  /** The field elements that stand for the positions of a word of length n. */
  function Locators(n: nat): (x: seq<Byte>)
    ensures |x| == n
  {
    seq(n, k requires 0 <= k < n => Power(TWO, n - 1 - k))
  }

  predicate Distinct(x: seq<Byte>) {
    forall j, k :: 0 <= j < k < |x| ==> x[j] != x[k]
  }

  predicate Vanishes(e: Poly, x: seq<Byte>, d: nat)
    requires |e| == |x|
  {
    forall i: nat :: i < d ==> PowerSum(e, x, i) == ZERO
  }

  // ----- power sums

  lemma SupportTail(e: Poly)
    requires e != []
    ensures e[0] == ZERO <==> 0 !in Support(e)
    ensures forall k :: k in Support(e[1..]) <==> k >= 0 && k + 1 in Support(e)
  {
  }

  lemma {:induction false} PowerSumZero(e: Poly, x: seq<Byte>, i: nat)
    requires |e| == |x| && Support(e) == {}
    ensures PowerSum(e, x, i) == ZERO
  {
    hide Mul, Xor;
    if e != [] {
      SupportTail(e);
      PowerSumZero(e[1..], x[1..], i);
      MulUnits(Power(x[0], i));
      XorLaws(ZERO, ZERO, ZERO);
    }
  }

  lemma {:induction false} PowerSumSingle(e: Poly, x: seq<Byte>, w: nat, i: nat)
    requires |e| == |x| && w < |e| && Support(e) <= {w}
    ensures PowerSum(e, x, i) == Mul(e[w], Power(x[w], i))
  {
    hide Mul, Xor;
    if w == 0 {
      SupportTail(e);
      PowerSumZero(e[1..], x[1..], i);
      XorLaws(Mul(e[0], Power(x[0], i)), ZERO, ZERO);
    } else {
      SupportTail(e);
      PowerSumSingle(e[1..], x[1..], w - 1, i);
      MulUnits(Power(x[0], i));
      XorLaws(Mul(e[w], Power(x[w], i)), ZERO, ZERO);
    }
  }

  lemma {:induction false} PowerSumAdd(a: Poly, b: Poly, x: seq<Byte>, i: nat)
    requires |a| == |b| == |x|
    ensures PowerSum(Add(a, b), x, i) == Xor(PowerSum(a, x, i), PowerSum(b, x, i))
  {
    hide Mul, Xor;
    if a == [] {
      XorLaws(ZERO, ZERO, ZERO);
    } else {
      assert Add(a, b)[1..] == Add(a[1..], b[1..]);
      PowerSumAdd(a[1..], b[1..], x[1..], i);
      var p := Power(x[0], i);
      MulDistributes(p, a[0], b[0]);
      XorShuffle(Mul(a[0], p), Mul(b[0], p), PowerSum(a[1..], x[1..], i), PowerSum(b[1..], x[1..], i));
    }
  }

  /** A word's value at 2^i is the i-th power sum over the locators of its positions. */
  lemma {:induction false} EvalIsPowerSum(p: Poly, i: nat)
    ensures Eval(p, Power(TWO, i)) == PowerSum(p, Locators(|p|), i)
  {
    hide Mul, Xor;
    if p != [] {
      var x, n := Power(TWO, i), |p| - 1;
      assert p == [p[0]] + p[1..];
      EvalCons(p[0], p[1..], x);
      EvalIsPowerSum(p[1..], i);
      assert Locators(|p|)[1..] == Locators(n);
      PowerMul(TWO, i, n);
      PowerMul(TWO, n, i);
      assert i * n == n * i;
    }
  }

  lemma LocatorsDistinct(n: nat)
    requires n <= 255
    ensures Distinct(Locators(n))
  {
    hide Mul, Power;
    forall j, k | 0 <= j < k < n
      ensures Locators(n)[j] != Locators(n)[k]
    {
      PowersDistinct(n - 1 - j, n - 1 - k);
    }
  }

  // ----- elimination

  /** The word with position w eliminated. */
  function Eliminate(e: Poly, x: seq<Byte>, a: Byte): (r: Poly)
    requires |e| == |x|
    ensures |r| == |e|
  {
    seq(|e|, k requires 0 <= k < |e| => Mul(e[k], Xor(x[k], a)))
  }

  lemma {:induction false} EliminatePowerSum(e: Poly, x: seq<Byte>, a: Byte, i: nat)
    requires |e| == |x|
    ensures PowerSum(Eliminate(e, x, a), x, i) == Xor(PowerSum(e, x, i + 1), Mul(PowerSum(e, x, i), a))
  {
    hide Mul, Xor;
    if e == [] {
      MulUnits(a);
      XorLaws(ZERO, ZERO, ZERO);
    } else {
      var e', x' := e[1..], x[1..];
      assert Eliminate(e, x, a)[1..] == Eliminate(e', x', a);
      EliminatePowerSum(e', x', a, i);
      var p := Power(x[0], i);
      EliminateTerm(e[0], x[0], a, p);
      MulDistributes(a, Mul(e[0], p), PowerSum(e', x', i));
      XorShuffle(Mul(e[0], Mul(p, x[0])), Mul(Mul(e[0], p), a),
                 PowerSum(e', x', i + 1), Mul(PowerSum(e', x', i), a));
    }
  }

  lemma EliminateTerm(c: Byte, x: Byte, a: Byte, p: Byte)
    ensures Mul(Mul(c, Xor(x, a)), p) == Xor(Mul(c, Mul(p, x)), Mul(Mul(c, p), a))
  {
    hide Mul, Xor;
    MulAssociates(c, Xor(x, a), p);
    MulCommutes(Xor(x, a), p);
    MulDistributes(p, x, a);
    MulDistributes(c, Mul(p, x), Mul(p, a));
    MulAssociates(c, p, a);
  }

  lemma EliminateSupport(e: Poly, x: seq<Byte>, w: nat)
    requires |e| == |x| && w < |e| && Distinct(x)
    ensures Support(Eliminate(e, x, x[w])) == Support(e) - {w}
  {
    hide Mul, Xor;
    var r := Eliminate(e, x, x[w]);
    forall k | 0 <= k < |e|
      ensures r[k] != ZERO <==> e[k] != ZERO && k != w
    {
      XorIsZero(x[k], x[w]);
      MulUnits(e[k]);
      MulUnits(Xor(x[k], x[w]));
      if Mul(e[k], Xor(x[k], x[w])) == ZERO {
        NoZeroDivisors(e[k], Xor(x[k], x[w]));
      }
    }
  }

  /** A word whose first d power sums over distinct locators vanish, and which is nonzero in at most
      d places, is zero: a Vandermonde matrix is nonsingular. */
  lemma {:induction false} Vandermonde(e: Poly, x: seq<Byte>, d: nat)
    requires |e| == |x| && Distinct(x)
    requires |Support(e)| <= d && Vanishes(e, x, d)
    ensures Support(e) == {}
    decreases d
  {
    hide Mul, Xor, PowerSum, Eliminate;
    if Support(e) != {} {
      var w :| w in Support(e);
      assert |Support(e)| > 0;
      var r := Eliminate(e, x, x[w]);
      EliminateSupport(e, x, w);
      assert |Support(r)| == |Support(e)| - 1;
      forall i: nat | i < d - 1
        ensures PowerSum(r, x, i) == ZERO
      {
        EliminatePowerSum(e, x, x[w], i);
        MulUnits(x[w]);
        XorLaws(ZERO, ZERO, ZERO);
      }
      Vandermonde(r, x, d - 1);
      assert Support(e) <= {w};
      PowerSumSingle(e, x, w, 0);
      MulUnits(e[w]);
      PowerZero(x[w]);
    }
  }

  // ----- the code

  lemma CloseCodewordsEqual(data: Poly, data': Poly, degree: nat)
    requires degree > 0 && |data| == |data'| && |data| + degree <= 255
    requires |Differences(Codeword(data, degree), Codeword(data', degree))| <= degree
    ensures data == data'
  {
    hide Mul, Xor, PowerSum;
    var c, c' := Codeword(data, degree), Codeword(data', degree);
    var e, x := Add(c, c'), Locators(|c|);
    SupportOfSum(c, c');
    forall i: nat | i < degree
      ensures PowerSum(e, x, i) == ZERO
    {
      CodewordVanishes(data, degree, i);
      CodewordVanishes(data', degree, i);
      EvalIsPowerSum(c, i);
      EvalIsPowerSum(c', i);
      PowerSumAdd(c, c', x, i);
      XorLaws(ZERO, ZERO, ZERO);
    }
    LocatorsDistinct(|c|);
    Vandermonde(e, x, degree);
    forall k | 0 <= k < |data|
      ensures data[k] == data'[k]
    {
      assert k !in Differences(c, c');
      assert c[k] == data[k] && c'[k] == data'[k];
    }
  }

  /** Two codewords of different data blocks of the same length differ in more places than there are
      parity bytes. */
  lemma MinimumDistance(data: Poly, data': Poly, degree: nat)
    requires degree > 0 && |data| == |data'| && |data| + degree <= 255
    requires data != data'
    ensures |Differences(Codeword(data, degree), Codeword(data', degree))| >= degree + 1
  {
    if |Differences(Codeword(data, degree), Codeword(data', degree))| <= degree {
      CloseCodewordsEqual(data, data', degree);
    }
  }

  lemma SupportOfSum(a: Poly, b: Poly)
    requires |a| == |b|
    ensures Support(Add(a, b)) == Differences(a, b)
  {
    hide Mul, Xor;
    forall k | 0 <= k < |a|
      ensures Add(a, b)[k] != ZERO <==> a[k] != b[k]
    {
      XorIsZero(a[k], b[k]);
    }
  }

  lemma SubsetSize(a: set<int>, b: set<int>)
    requires a <= b
    ensures |a| <= |b|
  {
    assert b == a + (b - a);
  }

  /** A received word with at most degree/2 wrong bytes has a unique nearest codeword. */
  lemma UniqueNearestCodeword(received: Poly, data: Poly, data': Poly, degree: nat)
    requires degree > 0 && |data| == |data'| && |received| == |data| + degree <= 255
    requires |Differences(received, Codeword(data, degree))| <= degree / 2
    requires data != data'
    ensures |Differences(received, Codeword(data, degree))| < |Differences(received, Codeword(data', degree))|
  {
    hide Mul, Xor;
    var c, c' := Codeword(data, degree), Codeword(data', degree);
    MinimumDistance(data, data', degree);
    SubsetSize(Differences(c, c'), Differences(received, c) + Differences(received, c'));
  }
}
