/**
 How far apart the format words are, and the version words, and how much damage to them can be repaired.
 */
module BchDistance {
  import opened BchCode
  import opened BchPolynomials
  import opened Bits
  import opened QrTables

  /** The places where two words differ. */
  function Places(a: seq<bool>, b: seq<bool>): set<int>
    requires |a| == |b|
  {
    set i | 0 <= i < |a| && a[i] != b[i]
  }

  function Ones(b: bool): nat {
    if b then 1 else 0
  }

  /** The number of ones among the first n bits. */
  function Weight(w: seq<bool>, n: nat): nat
    requires n <= |w|
  {
    if n == 0 then 0 else Weight(w, n - 1) + Ones(w[n - 1])
  }

  lemma {:induction false} PlacesUpTo(a: seq<bool>, b: seq<bool>, n: nat)
    requires n <= |a| == |b|
    ensures |set i | 0 <= i < n && a[i] != b[i]| == Weight(XorBits(a, b), n)
  {
    if n > 0 {
      PlacesUpTo(a, b, n - 1);
      var before := set i | 0 <= i < n - 1 && a[i] != b[i];
      assert (set i | 0 <= i < n && a[i] != b[i]) == before + if a[n - 1] != b[n - 1] then {n - 1} else {};
    }
  }

  lemma PlacesCount(a: seq<bool>, b: seq<bool>)
    requires |a| == |b|
    ensures |Places(a, b)| == Weight(XorBits(a, b), |a|)
  {
    PlacesUpTo(a, b, |a|);
  }

  // ----- code words

  /** Check bits and data, for data of fewer bits than the generator has. */
  function CodeOf(data: seq<bool>, generator: seq<bool>): (w: seq<bool>)
    requires 0 < |data| <= |generator|
    ensures |w| == |generator| + |data|
  {
    CheckBits(data + Zeros(|generator| - |data|), generator, |generator|) + data
  }

  lemma StepXor(a: seq<bool>, b: seq<bool>, generator: seq<bool>)
    requires |a| == |b| == |generator| > 0
    ensures CheckStep(XorBits(a, b), generator) == XorBits(CheckStep(a, generator), CheckStep(b, generator))
  {
  }

  lemma {:induction false} CheckXor(a: seq<bool>, b: seq<bool>, generator: seq<bool>, k: nat)
    requires |a| == |b| == |generator| > 0
    ensures CheckBits(XorBits(a, b), generator, k) == XorBits(CheckBits(a, generator, k), CheckBits(b, generator, k))
  {
    hide CheckStep, XorBits;
    if k > 0 {
      CheckXor(a, b, generator, k - 1);
      StepXor(CheckBits(a, generator, k - 1), CheckBits(b, generator, k - 1), generator);
    }
  }

  /** The sum of two code words is a code word. */
  lemma CodeXor(a: seq<bool>, b: seq<bool>, generator: seq<bool>)
    requires 0 < |a| == |b| <= |generator|
    ensures CodeOf(XorBits(a, b), generator) == XorBits(CodeOf(a, generator), CodeOf(b, generator))
  {
    hide CheckBits;
    var n, z := |generator|, Zeros(|generator| - |a|);
    XorSame(a, b, z, z);
    assert XorBits(z, z) == z;
    CheckXor(a + z, b + z, generator, n);
    XorSame(CheckBits(a + z, generator, n), CheckBits(b + z, generator, n), a, b);
  }

  lemma {:induction false} LowBitsPadded(val: nat, len: nat, more: nat)
    requires val < Exp2(len)
    ensures LowBits(val, len + more) == LowBits(val, len) + Zeros(more)
  {
    if len > 0 {
      LowBitsPadded(val / 2, len - 1, more);
    } else {
      NoBits(more);
    }
  }

  lemma {:induction false} NoBits(len: nat)
    ensures LowBits(0, len) == Zeros(len)
  {
    if len > 0 {
      NoBits(len - 1);
    }
  }

  lemma WordIsCode(val: nat, len: nat, generator: seq<bool>)
    requires 0 < len <= |generator| && val < Exp2(len)
    ensures CheckWord(val, generator) + LowBits(val, len) == CodeOf(LowBits(val, len), generator)
  {
    hide CheckBits, LowBits;
    LowBitsPadded(val, len, |generator| - len);
  }

  lemma {:induction false} LowBitsInjective(a: nat, b: nat, len: nat)
    requires a < Exp2(len) && b < Exp2(len) && LowBits(a, len) == LowBits(b, len)
    ensures a == b
  {
    LowValueOf(a, len);
    LowValueOf(b, len);
  }

  // ----- format words, bit by bit

  /** The register after turn k, for k from 5 on; before that the data bits only move up. */
  function FormatRegister(a: bool, b: bool, c: bool, d: bool, e: bool, k: nat): (r: seq<bool>)
    requires 5 <= k <= 10
    ensures |r| == 10
  {
    if k == 5 then
      [false, false, false, false, false, a, b, c, d, e]
    else if k == 6 then
      [e, e, e, false, e, e, a, b, c != e, d]
    else if k == 7 then
      [d, d != e, d != e, e, d, d != e, e, a, b != d, c != e]
    else if k == 8 then
      [c != e, (c != d) != e, c != d, d != e, c, (c != d) != e, d != e, e, (a != c) != e, b != d]
    else if k == 9 then
      [b != d, ((b != c) != d) != e, (b != c) != e, c != d, b != e, (b != c) != d, (c != d) != e, d != e,
       (b != d) != e, (a != c) != e]
    else
      [(a != c) != e, (((a != b) != c) != d) != e, (a != b) != d, (b != c) != e, (a != d) != e, (a != b) != c,
       (b != c) != d, (c != d) != e, (a != c) != d, (b != d) != e]
  }

  /** One turn, place by place. */
  lemma FormatStep(r: seq<bool>)
    requires |r| == 10
    ensures CheckStep(r, FORMAT_GENERATOR)
         == [r[9], r[0] != r[9], r[1] != r[9], r[2], r[3] != r[9], r[4] != r[9], r[5], r[6], r[7] != r[9],
             r[8]]
  {
  }

  lemma FormatShifts(a: bool, b: bool, c: bool, d: bool, e: bool)
    ensures CheckBits([a, b, c, d, e] + Zeros(5), FORMAT_GENERATOR, 5) == FormatRegister(a, b, c, d, e, 5)
  {
    hide CheckStep;
    var r := [a, b, c, d, e] + Zeros(5);
    FormatStep(CheckBits(r, FORMAT_GENERATOR, 0));
    FormatStep(CheckBits(r, FORMAT_GENERATOR, 1));
    FormatStep(CheckBits(r, FORMAT_GENERATOR, 2));
    FormatStep(CheckBits(r, FORMAT_GENERATOR, 3));
    FormatStep(CheckBits(r, FORMAT_GENERATOR, 4));
  }

  lemma FormatTurn5(a: bool, b: bool, c: bool, d: bool, e: bool)
    ensures CheckStep(FormatRegister(a, b, c, d, e, 5), FORMAT_GENERATOR) == FormatRegister(a, b, c, d, e, 6)
  {
    hide CheckStep;
    FormatStep(FormatRegister(a, b, c, d, e, 5));
  }

  lemma FormatTurn6(a: bool, b: bool, c: bool, d: bool, e: bool)
    ensures CheckStep(FormatRegister(a, b, c, d, e, 6), FORMAT_GENERATOR) == FormatRegister(a, b, c, d, e, 7)
  {
    hide CheckStep;
    FormatStep(FormatRegister(a, b, c, d, e, 6));
  }

  lemma FormatTurn7(a: bool, b: bool, c: bool, d: bool, e: bool)
    ensures CheckStep(FormatRegister(a, b, c, d, e, 7), FORMAT_GENERATOR) == FormatRegister(a, b, c, d, e, 8)
  {
    hide CheckStep;
    FormatStep(FormatRegister(a, b, c, d, e, 7));
  }

  lemma FormatTurn8(a: bool, b: bool, c: bool, d: bool, e: bool)
    ensures CheckStep(FormatRegister(a, b, c, d, e, 8), FORMAT_GENERATOR) == FormatRegister(a, b, c, d, e, 9)
  {
    hide CheckStep;
    FormatStep(FormatRegister(a, b, c, d, e, 8));
  }

  lemma FormatTurn9(a: bool, b: bool, c: bool, d: bool, e: bool)
    ensures CheckStep(FormatRegister(a, b, c, d, e, 9), FORMAT_GENERATOR) == FormatRegister(a, b, c, d, e, 10)
  {
    hide CheckStep;
    FormatStep(FormatRegister(a, b, c, d, e, 9));
  }

  lemma {:induction false} FormatTurns(a: bool, b: bool, c: bool, d: bool, e: bool, k: nat)
    requires 5 <= k <= 10
    ensures CheckBits([a, b, c, d, e] + Zeros(5), FORMAT_GENERATOR, k) == FormatRegister(a, b, c, d, e, k)
  {
    hide FormatRegister, CheckStep;
    if k > 5 {
      FormatTurns(a, b, c, d, e, k - 1);
      if k == 6 {
        FormatTurn5(a, b, c, d, e);
      } else if k == 7 {
        FormatTurn6(a, b, c, d, e);
      } else if k == 8 {
        FormatTurn7(a, b, c, d, e);
      } else if k == 9 {
        FormatTurn8(a, b, c, d, e);
      } else if k == 10 {
        FormatTurn9(a, b, c, d, e);
      }
    } else {
      FormatShifts(a, b, c, d, e);
    }
  }

  // ----- version words, bit by bit

  /** The register after turn k, for k from 6 on; before that the data bits only move up. */
  function VersionRegister(a: bool, b: bool, c: bool, d: bool, e: bool, f: bool, k: nat): (r: seq<bool>)
    requires 6 <= k <= 12
    ensures |r| == 12
  {
    if k == 6 then
      [false, false, false, false, false, false, a, b, c, d, e, f]
    else if k == 7 then
      [f, false, f, false, false, f, false, a, b != f, c != f, d != f, e != f]
    else if k == 8 then
      [e != f, f, e != f, f, false, e != f, f, false, (a != e) != f, b != e, c != e, d != e]
    else if k == 9 then
      [d != e, e != f, (d != e) != f, e != f, f, d != e, e != f, f, d != e, (a != d) != f, b != d, c != d]
    else if k == 10 then
      [c != d, d != e, ((c != d) != e) != f, (d != e) != f, e != f, (c != d) != f, d != e, e != f, (c != d) != f,
       c != e, (a != c) != f, b != c]
    else if k == 11 then
      [b != c, c != d, ((b != c) != d) != e, ((c != d) != e) != f, (d != e) != f, ((b != c) != e) != f,
       (c != d) != f, d != e, ((b != c) != e) != f, (b != d) != f, b != e, (a != b) != f]
    else
      [(a != b) != f, b != c, (((a != b) != c) != d) != f, ((b != c) != d) != e, ((c != d) != e) != f,
       ((a != b) != d) != e, ((b != c) != e) != f, (c != d) != f, (((a != b) != d) != e) != f, (a != c) != e,
       a != d, (a != e) != f]
  }

  /** One turn, place by place. */
  lemma VersionStep(r: seq<bool>)
    requires |r| == 12
    ensures CheckStep(r, VERSION_GENERATOR)
         == [r[11], r[0], r[1] != r[11], r[2], r[3], r[4] != r[11], r[5], r[6], r[7] != r[11],
             r[8] != r[11], r[9] != r[11], r[10] != r[11]]
  {
  }

  lemma VersionShifts(a: bool, b: bool, c: bool, d: bool, e: bool, f: bool)
    ensures CheckBits([a, b, c, d, e, f] + Zeros(6), VERSION_GENERATOR, 6) == VersionRegister(a, b, c, d, e, f, 6)
  {
    hide CheckStep;
    var r := [a, b, c, d, e, f] + Zeros(6);
    VersionStep(CheckBits(r, VERSION_GENERATOR, 0));
    VersionStep(CheckBits(r, VERSION_GENERATOR, 1));
    VersionStep(CheckBits(r, VERSION_GENERATOR, 2));
    VersionStep(CheckBits(r, VERSION_GENERATOR, 3));
    VersionStep(CheckBits(r, VERSION_GENERATOR, 4));
    VersionStep(CheckBits(r, VERSION_GENERATOR, 5));
  }

  lemma VersionTurn6(a: bool, b: bool, c: bool, d: bool, e: bool, f: bool)
    ensures CheckStep(VersionRegister(a, b, c, d, e, f, 6), VERSION_GENERATOR) == VersionRegister(a, b, c, d, e, f, 7)
  {
    hide CheckStep;
    VersionStep(VersionRegister(a, b, c, d, e, f, 6));
  }

  lemma VersionTurn7(a: bool, b: bool, c: bool, d: bool, e: bool, f: bool)
    ensures CheckStep(VersionRegister(a, b, c, d, e, f, 7), VERSION_GENERATOR) == VersionRegister(a, b, c, d, e, f, 8)
  {
    hide CheckStep;
    VersionStep(VersionRegister(a, b, c, d, e, f, 7));
  }

  lemma VersionTurn8(a: bool, b: bool, c: bool, d: bool, e: bool, f: bool)
    ensures CheckStep(VersionRegister(a, b, c, d, e, f, 8), VERSION_GENERATOR) == VersionRegister(a, b, c, d, e, f, 9)
  {
    hide CheckStep;
    VersionStep(VersionRegister(a, b, c, d, e, f, 8));
  }

  lemma VersionTurn9(a: bool, b: bool, c: bool, d: bool, e: bool, f: bool)
    ensures CheckStep(VersionRegister(a, b, c, d, e, f, 9), VERSION_GENERATOR) == VersionRegister(a, b, c, d, e, f, 10)
  {
    hide CheckStep;
    VersionStep(VersionRegister(a, b, c, d, e, f, 9));
  }

  lemma VersionTurn10(a: bool, b: bool, c: bool, d: bool, e: bool, f: bool)
    ensures CheckStep(VersionRegister(a, b, c, d, e, f, 10), VERSION_GENERATOR) == VersionRegister(a, b, c, d, e, f, 11)
  {
    hide CheckStep;
    VersionStep(VersionRegister(a, b, c, d, e, f, 10));
  }

  lemma VersionTurn11(a: bool, b: bool, c: bool, d: bool, e: bool, f: bool)
    ensures CheckStep(VersionRegister(a, b, c, d, e, f, 11), VERSION_GENERATOR) == VersionRegister(a, b, c, d, e, f, 12)
  {
    hide CheckStep;
    VersionStep(VersionRegister(a, b, c, d, e, f, 11));
  }

  lemma {:induction false} VersionTurns(a: bool, b: bool, c: bool, d: bool, e: bool, f: bool, k: nat)
    requires 6 <= k <= 12
    ensures CheckBits([a, b, c, d, e, f] + Zeros(6), VERSION_GENERATOR, k) == VersionRegister(a, b, c, d, e, f, k)
  {
    hide VersionRegister, CheckStep;
    if k > 6 {
      VersionTurns(a, b, c, d, e, f, k - 1);
      if k == 7 {
        VersionTurn6(a, b, c, d, e, f);
      } else if k == 8 {
        VersionTurn7(a, b, c, d, e, f);
      } else if k == 9 {
        VersionTurn8(a, b, c, d, e, f);
      } else if k == 10 {
        VersionTurn9(a, b, c, d, e, f);
      } else if k == 11 {
        VersionTurn10(a, b, c, d, e, f);
      } else if k == 12 {
        VersionTurn11(a, b, c, d, e, f);
      }
    } else {
      VersionShifts(a, b, c, d, e, f);
    }
  }

  // ----- the distances

  lemma FiveMore(w: seq<bool>, n: nat)
    requires n + 5 <= |w|
    ensures Weight(w, n + 5)
         == Weight(w, n) + Ones(w[n]) + Ones(w[n + 1]) + Ones(w[n + 2]) + Ones(w[n + 3]) + Ones(w[n + 4])
  {
    hide Ones;
    assert Weight(w, n + 4) == Weight(w, n + 3) + Ones(w[n + 3]);
    assert Weight(w, n + 2) == Weight(w, n + 1) + Ones(w[n + 1]);
  }

  lemma WeightOfFifteen(w: seq<bool>)
    requires |w| >= 15
    ensures Weight(w, 15) == Ones(w[0]) + Ones(w[1]) + Ones(w[2]) + Ones(w[3]) + Ones(w[4]) + Ones(w[5]) + Ones(w[6])
                           + Ones(w[7]) + Ones(w[8]) + Ones(w[9]) + Ones(w[10]) + Ones(w[11]) + Ones(w[12])
                           + Ones(w[13]) + Ones(w[14])
  {
    hide Weight, Ones;
    FiveMore(w, 0);
    FiveMore(w, 5);
    FiveMore(w, 10);
    NoWeight(w);
  }

  lemma FormatWeight(a: bool, b: bool, c: bool, d: bool, e: bool)
    requires a || b || c || d || e
    ensures Weight(FormatRegister(a, b, c, d, e, 10) + [a, b, c, d, e], 15) >= 7
  {
    hide Weight;
    WeightOfFifteen(FormatRegister(a, b, c, d, e, 10) + [a, b, c, d, e]);
  }

  lemma NoWeight(w: seq<bool>)
    ensures Weight(w, 0) == 0
  {
  }

  lemma ThreeMore(w: seq<bool>, n: nat)
    requires n + 3 <= |w|
    ensures Weight(w, n + 3) == Weight(w, n) + Ones(w[n]) + Ones(w[n + 1]) + Ones(w[n + 2])
  {
    hide Ones;
    assert Weight(w, n + 2) == Weight(w, n + 1) + Ones(w[n + 1]);
  }

  lemma VersionWeight(a: bool, b: bool, c: bool, d: bool, e: bool, f: bool)
    requires a || b || c || d || e || f
    ensures Weight(VersionRegister(a, b, c, d, e, f, 12) + [a, b, c, d, e, f], 18) >= 8
  {
    hide Weight;
    var w := VersionRegister(a, b, c, d, e, f, 12) + [a, b, c, d, e, f];
    WeightOfFifteen(w);
    ThreeMore(w, 15);
  }

  lemma XorCancels(a: seq<bool>, b: seq<bool>, pattern: seq<bool>)
    requires |a| == |b| == |pattern|
    ensures XorBits(XorBits(a, pattern), XorBits(b, pattern)) == XorBits(a, b)
  {
  }

  lemma SomeTrue(a: seq<bool>, b: seq<bool>) returns (i: int)
    requires |a| == |b| && a != b
    ensures 0 <= i < |a| && XorBits(a, b)[i]
  {
    i :| 0 <= i < |a| && a[i] != b[i];
  }

  function FormatData(ecl: Ecc, mask: nat): nat {
    EccFormatBits(ecl) * 8 + mask
  }

  lemma FormatWordIsCode(ecl: Ecc, mask: nat)
    requires mask < 8
    ensures FormatWord(ecl, mask)
         == XorBits(CodeOf(LowBits(FormatData(ecl, mask), 5), FORMAT_GENERATOR), FORMAT_PATTERN)
  {
    hide CodeOf, CheckWord, LowBits, XorBits;
    assert Exp2(5) == 32;
    WordIsCode(FormatData(ecl, mask), 5, FORMAT_GENERATOR);
  }

  /** The words of two different levels or masks differ in seven places or more. */
  lemma FormatDistance(ecl: Ecc, mask: nat, ecl': Ecc, mask': nat)
    requires mask < 8 && mask' < 8 && (ecl != ecl' || mask != mask')
    ensures |Places(FormatWord(ecl, mask), FormatWord(ecl', mask'))| >= 7
  {
    hide FormatWord, XorBits, CodeOf, CheckBits, LowBits, Weight, FormatRegister;
    var d, d' := LowBits(FormatData(ecl, mask), 5), LowBits(FormatData(ecl', mask'), 5);
    FormatWordIsCode(ecl, mask);
    FormatWordIsCode(ecl', mask');
    PlacesCount(FormatWord(ecl, mask), FormatWord(ecl', mask'));
    XorCancels(CodeOf(d, FORMAT_GENERATOR), CodeOf(d', FORMAT_GENERATOR), FORMAT_PATTERN);
    CodeXor(d, d', FORMAT_GENERATOR);
    FormatDataDiffers(ecl, mask, ecl', mask');
    var i := SomeTrue(d, d');
    FormatCodeWeight(XorBits(d, d'), i);
  }

  lemma FormatDataDiffers(ecl: Ecc, mask: nat, ecl': Ecc, mask': nat)
    requires mask < 8 && mask' < 8 && (ecl != ecl' || mask != mask')
    ensures LowBits(FormatData(ecl, mask), 5) != LowBits(FormatData(ecl', mask'), 5)
  {
    hide LowBits;
    assert Exp2(5) == 32;
    if LowBits(FormatData(ecl, mask), 5) == LowBits(FormatData(ecl', mask'), 5) {
      LowBitsInjective(FormatData(ecl, mask), FormatData(ecl', mask'), 5);
    }
  }

  lemma FormatCodeWeight(x: seq<bool>, i: int)
    requires |x| == 5 && 0 <= i < 5 && x[i]
    ensures Weight(CodeOf(x, FORMAT_GENERATOR), 15) >= 7
  {
    hide CheckBits, Weight, FormatRegister;
    assert x == [x[0], x[1], x[2], x[3], x[4]];
    FormatTurns(x[0], x[1], x[2], x[3], x[4], 10);
    FormatWeight(x[0], x[1], x[2], x[3], x[4]);
  }

  /** The words of two different versions differ in eight places or more. */
  lemma VersionDistance(ver: nat, ver': nat)
    requires ver < 64 && ver' < 64 && ver != ver'
    ensures |Places(VersionWord(ver), VersionWord(ver'))| >= 8
  {
    hide XorBits, CodeOf, CheckWord, CheckBits, LowBits, Weight;
    var d, d' := LowBits(ver, 6), LowBits(ver', 6);
    assert Exp2(6) == 64;
    WordIsCode(ver, 6, VERSION_GENERATOR);
    WordIsCode(ver', 6, VERSION_GENERATOR);
    PlacesCount(VersionWord(ver), VersionWord(ver'));
    CodeXor(d, d', VERSION_GENERATOR);
    if d == d' {
      LowBitsInjective(ver, ver', 6);
    }
    var i := SomeTrue(d, d');
    VersionCodeWeight(XorBits(d, d'), i);
  }

  lemma VersionCodeWeight(x: seq<bool>, i: int)
    requires |x| == 6 && 0 <= i < 6 && x[i]
    ensures Weight(CodeOf(x, VERSION_GENERATOR), 18) >= 8
  {
    hide CheckBits, Weight, VersionRegister;
    assert x == [x[0], x[1], x[2], x[3], x[4], x[5]];
    VersionTurns(x[0], x[1], x[2], x[3], x[4], x[5], 12);
    VersionWeight(x[0], x[1], x[2], x[3], x[4], x[5]);
  }

  // ----- damaged words

  lemma PlacesTriangle(a: seq<bool>, b: seq<bool>, received: seq<bool>)
    requires |a| == |b| == |received|
    ensures |Places(a, b)| <= |Places(received, a)| + |Places(received, b)|
  {
    var p, q := Places(received, a), Places(received, b);
    assert Places(a, b) <= p + q;
    Subset(Places(a, b), p + q);
    assert p + q == p + (q - p);
    Subset(q - p, q);
  }

  lemma Subset(a: set<int>, b: set<int>)
    requires a <= b
    ensures |a| <= |b|
  {
    assert b == a + (b - a);
  }

  /** Read with up to three wrong modules, format information is nearest to the word that was drawn. */
  lemma FormatNearest(received: seq<bool>, ecl: Ecc, mask: nat, ecl': Ecc, mask': nat)
    requires mask < 8 && mask' < 8 && (ecl != ecl' || mask != mask')
    requires |received| == 15 && |Places(received, FormatWord(ecl, mask))| <= 3
    ensures |Places(received, FormatWord(ecl, mask))| < |Places(received, FormatWord(ecl', mask'))|
  {
    hide FormatWord, Places;
    FormatDistance(ecl, mask, ecl', mask');
    PlacesTriangle(FormatWord(ecl, mask), FormatWord(ecl', mask'), received);
  }

  /** The same for version information. */
  lemma VersionNearest(received: seq<bool>, ver: nat, ver': nat)
    requires ver < 64 && ver' < 64 && ver != ver'
    requires |received| == 18 && |Places(received, VersionWord(ver))| <= 3
    ensures |Places(received, VersionWord(ver))| < |Places(received, VersionWord(ver'))|
  {
    hide VersionWord, Places;
    VersionDistance(ver, ver');
    PlacesTriangle(VersionWord(ver), VersionWord(ver'), received);
  }
}
