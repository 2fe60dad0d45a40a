/**
 The check bits as a remainder: data and check bits together are a multiple of the generator polynomial,
 and no other check bits make them one. Polynomials over GF(2) have the lowest coefficient first.
 */
module BchPolynomials {
  import opened BchCode

  function Zeros(n: nat): (z: seq<bool>)
    ensures |z| == n && forall i :: 0 <= i < n ==> !z[i]
  {
    seq(n, i => false)
  }

  function Scale(c: bool, g: seq<bool>): (r: seq<bool>)
    ensures |r| == |g| && forall i :: 0 <= i < |g| ==> r[i] == (c && g[i])
  {
    seq(|g|, i requires 0 <= i < |g| => c && g[i])
  }

  /** The product of polynomials: one copy of g for each term of q, at its place. */
  function Times(q: seq<bool>, g: seq<bool>): (p: seq<bool>)
    requires |g| > 0
    ensures |p| == |q| + |g| - 1
  {
    if q == [] then Zeros(|g| - 1)
    else XorBits(Scale(q[0], g) + Zeros(|q| - 1), [false] + Times(q[1..], g))
  }

  /** The word is a multiple of g, apart from zeros at its end. */
  ghost predicate Multiple(w: seq<bool>, g: seq<bool>)
    requires |g| > 0
  {
    exists q, z: nat :: IsProduct(w, z, q, g)
  }

  ghost predicate IsProduct(w: seq<bool>, z: nat, q: seq<bool>, g: seq<bool>)
    requires |g| > 0
  {
    w + Zeros(z) == Times(q, g)
  }

  /** The generator with its highest coefficient, as the source has it. */
  function Monic(generator: seq<bool>): (g: seq<bool>)
    ensures |g| == |generator| + 1 && g[|generator|]
  {
    generator + [true]
  }

  // ----- the register divides

  lemma XorSame(a: seq<bool>, b: seq<bool>, c: seq<bool>, d: seq<bool>)
    requires |a| == |b| && |c| == |d|
    ensures XorBits(a + c, b + d) == XorBits(a, b) + XorBits(c, d)
  {
  }

  /** One turn: x times the register is the highest bit times the generator, plus the next register. */
  lemma TurnOf(rem: seq<bool>, generator: seq<bool>)
    requires |rem| == |generator| > 0
    ensures [false] + rem
         == XorBits(Scale(rem[|rem| - 1], Monic(generator)), CheckStep(rem, generator) + [false])
  {
    var n := |rem|;
    var next := CheckStep(rem, generator);
    var r := XorBits(Scale(rem[n - 1], Monic(generator)), next + [false]);
    forall i | 0 <= i <= n
      ensures ([false] + rem)[i] == r[i]
    {
      if i < n {
        assert next[i] == ((i > 0 && rem[i - 1]) != (rem[n - 1] && generator[i]));
      }
    }
  }

  /** The bits shifted out so far are the quotient. */
  function Quotient(data: seq<bool>, generator: seq<bool>, k: nat): (q: seq<bool>)
    requires |data| == |generator| > 0
    ensures |q| == k
  {
    if k == 0 then [] else [CheckBits(data, generator, k - 1)[|data| - 1]] + Quotient(data, generator, k - 1)
  }

  lemma {:induction false} RegisterDivides(data: seq<bool>, generator: seq<bool>, k: nat)
    requires |data| == |generator| > 0
    ensures Zeros(k) + data
         == XorBits(Times(Quotient(data, generator, k), Monic(generator)), CheckBits(data, generator, k) + Zeros(k))
  {
    var n, g := |data|, Monic(generator);
    var rem, q := CheckBits(data, generator, k), Quotient(data, generator, k);
    if k == 0 {
      assert Zeros(0) + data == data && rem + Zeros(0) == rem;
      assert XorBits(Zeros(n), data) == data;
    } else {
      var rem', q' := CheckBits(data, generator, k - 1), Quotient(data, generator, k - 1);
      hide CheckStep, Quotient, CheckBits;
      RegisterDivides(data, generator, k - 1);
      TurnOf(rem', generator);
      assert q == [rem'[n - 1]] + q' by { QuotientNext(data, generator, k); }
      assert rem == CheckStep(rem', generator) by { CheckNext(data, generator, k); }
      TurnAdds(data, rem', rem, Times(q', g), g, k - 1);
      assert q[1..] == q';
    }
  }

  lemma QuotientNext(data: seq<bool>, generator: seq<bool>, k: nat)
    requires |data| == |generator| > 0 && k > 0
    ensures Quotient(data, generator, k)
         == [CheckBits(data, generator, k - 1)[|data| - 1]] + Quotient(data, generator, k - 1)
  {
    hide CheckBits;
  }

  lemma CheckNext(data: seq<bool>, generator: seq<bool>, k: nat)
    requires |data| == |generator| > 0 && k > 0
    ensures CheckBits(data, generator, k) == CheckStep(CheckBits(data, generator, k - 1), generator)
  {
    hide CheckStep;
  }

  /** The arithmetic of a turn, place by place. */
  lemma TurnAdds(data: seq<bool>, rem: seq<bool>, next: seq<bool>, product: seq<bool>, g: seq<bool>, k: nat)
    requires |data| == |rem| == |next| > 0 && |g| == |rem| + 1 && |product| == |data| + k
    requires Zeros(k) + data == XorBits(product, rem + Zeros(k))
    requires [false] + rem == XorBits(Scale(rem[|rem| - 1], g), next + [false])
    ensures Zeros(k + 1) + data
         == XorBits(XorBits(Scale(rem[|rem| - 1], g) + Zeros(k), [false] + product), next + Zeros(k + 1))
  {
    var n, s := |rem|, Scale(rem[|rem| - 1], g);
    var all := XorBits(XorBits(s + Zeros(k), [false] + product), next + Zeros(k + 1));
    forall i | 0 <= i < n + k + 1
      ensures (Zeros(k + 1) + data)[i] == all[i]
    {
      if i <= n {
        assert ([false] + rem)[i] == XorBits(s, next + [false])[i];
      }
      if i > 0 {
        assert (Zeros(k) + data)[i - 1] == XorBits(product, rem + Zeros(k))[i - 1];
      }
    }
  }

  /** Check bits and data together are a multiple of the generator. */
  lemma CheckDivides(data: nat, generator: seq<bool>)
    requires |generator| > 0
    ensures Multiple(CheckWord(data, generator) + LowBits(data, |generator|), Monic(generator))
  {
    hide CheckBits, Quotient, Times;
    var n, d := |generator|, LowBits(data, |generator|);
    RegisterDivides(d, generator, n);
    var q := Quotient(d, generator, n);
    var product := Times(q, Monic(generator));
    forall i | 0 <= i < 2 * n
      ensures (CheckWord(data, generator) + d)[i] == product[i]
    {
      assert (Zeros(n) + d)[i] == XorBits(product, CheckBits(d, generator, n) + Zeros(n))[i];
    }
    assert IsProduct(CheckWord(data, generator) + d, 0, q, Monic(generator));
  }

  // ----- and nothing else does

  lemma {:induction false} TimesZeros(q: seq<bool>, g: seq<bool>, z: nat)
    requires |g| > 0
    ensures Times(q + Zeros(z), g) == Times(q, g) + Zeros(z)
  {
    if q != [] {
      TimesZeros(q[1..], g, z);
      assert (q + Zeros(z))[1..] == q[1..] + Zeros(z);
      var a, b := Scale(q[0], g) + Zeros(|q| - 1), [false] + Times(q[1..], g);
      assert Scale(q[0], g) + Zeros(|q| + z - 1) == a + Zeros(z);
      assert [false] + (Times(q[1..], g) + Zeros(z)) == b + Zeros(z);
      XorSame(a, b, Zeros(z), Zeros(z));
      assert XorBits(Zeros(z), Zeros(z)) == Zeros(z);
    } else {
      NoneTimes(g, z);
      assert [] + Zeros(z) == Zeros(z);
      assert Zeros(|g| - 1) + Zeros(z) == Zeros(|g| - 1 + z);
    }
  }

  lemma {:induction false} NoneTimes(g: seq<bool>, z: nat)
    requires |g| > 0
    ensures Times(Zeros(z), g) == Zeros(|g| - 1 + z)
  {
    if z > 0 {
      NoneTimes(g, z - 1);
      assert Zeros(z)[1..] == Zeros(z - 1);
    }
  }

  lemma TimesAt(q: seq<bool>, g: seq<bool>, i: nat)
    requires |g| > 0 && q != [] && i < |Times(q, g)|
    ensures Times(q, g)[i] == ((i < |g| && q[0] && g[i]) != (i > 0 && Times(q[1..], g)[i - 1]))
  {
    var a, b := Scale(q[0], g) + Zeros(|q| - 1), [false] + Times(q[1..], g);
    assert Times(q, g)[i] == (a[i] != b[i]);
  }

  lemma {:induction false} TimesXor(q: seq<bool>, q': seq<bool>, g: seq<bool>)
    requires |q| == |q'| && |g| > 0
    ensures Times(XorBits(q, q'), g) == XorBits(Times(q, g), Times(q', g))
  {
    if q != [] {
      TimesXor(q[1..], q'[1..], g);
      assert XorBits(q, q')[1..] == XorBits(q[1..], q'[1..]);
      var l, r := Times(XorBits(q, q'), g), XorBits(Times(q, g), Times(q', g));
      hide Times;
      forall i | 0 <= i < |l|
        ensures l[i] == r[i]
      {
        TimesAt(XorBits(q, q'), g, i);
        TimesAt(q, g, i);
        TimesAt(q', g, i);
      }
    } else {
      assert XorBits(q, q') == [];
      assert XorBits(Zeros(|g| - 1), Zeros(|g| - 1)) == Zeros(|g| - 1);
    }
  }

  lemma NoneTrue(q: seq<bool>)
    requires true !in q
    ensures q == Zeros(|q|)
  {
    forall i | 0 <= i < |q|
      ensures q[i] == false
    {
      assert q[i] in q;
    }
  }

  /** A multiple by a polynomial other than zero reaches at least as far as g does. */
  lemma {:induction false} TimesReaches(q: seq<bool>, g: seq<bool>)
    requires |g| > 0 && g[|g| - 1] && true in q
    ensures exists i :: |g| - 1 <= i < |Times(q, g)| && Times(q, g)[i]
  {
    hide Times;
    if true in q[1..] {
      TimesReaches(q[1..], g);
      var i :| |g| - 1 <= i < |Times(q[1..], g)| && Times(q[1..], g)[i];
      TimesAt(q, g, i + 1);
      assert Times(q, g)[i + 1];
    } else {
      NoneTrue(q[1..]);
      NoneTimes(g, |q| - 1);
      TimesAt(q, g, |g| - 1);
      assert Times(q, g)[|g| - 1];
    }
  }

  /** A multiple of g that is shorter than g is zero. */
  lemma ShortMultiple(w: seq<bool>, q: seq<bool>, g: seq<bool>)
    requires |g| > 0 && g[|g| - 1] && |w| == |Times(q, g)| && w == Times(q, g)
    requires forall i :: |g| - 1 <= i < |w| ==> !w[i]
    ensures w == Zeros(|w|)
  {
    if true in q {
      TimesReaches(q, g);
    } else {
      NoneTrue(q);
      NoneTimes(g, |q|);
    }
  }

  /** Of all check bits before the same data, only one makes a multiple. */
  lemma CheckUnique(check: seq<bool>, check': seq<bool>, data: seq<bool>, generator: seq<bool>)
    requires |check| == |check'| == |generator|
    requires Multiple(check + data, Monic(generator)) && Multiple(check' + data, Monic(generator))
    ensures check == check'
  {
    hide Times, Multiple;
    var g := Monic(generator);
    var q, z, q', z' := SameLength(check + data, check' + data, g);
    TimesXor(q, q', g);
    var w := XorBits(check + data + Zeros(z), check' + data + Zeros(z));
    ShortMultiple(w, XorBits(q, q'), g);
    forall i | 0 <= i < |check|
      ensures check[i] == check'[i]
    {
      assert w[i] == (check[i] != check'[i]);
    }
  }

  lemma SameLength(w: seq<bool>, w': seq<bool>, g: seq<bool>)
      returns (q: seq<bool>, z: nat, q': seq<bool>, z': nat)
    requires |g| > 0 && |w| == |w'| && Multiple(w, g) && Multiple(w', g)
    ensures IsProduct(w, z, q, g) && IsProduct(w', z', q', g) && z == z' && |q| == |q'|
  {
    hide Times;
    var p: seq<bool>, y: nat :| IsProduct(w, y, p, g);
    var p': seq<bool>, y': nat :| IsProduct(w', y', p', g);
    q, z, q', z' := p, y, p', y';
    if z < z' {
      TimesZeros(q, g, z' - z);
      assert w + Zeros(z') == w + Zeros(z) + Zeros(z' - z);
      q, z := q + Zeros(z' - z), z';
    } else {
      TimesZeros(q', g, z - z');
      assert w' + Zeros(z) == w' + Zeros(z') + Zeros(z - z');
      q', z' := q' + Zeros(z - z'), z;
    }
  }
}
