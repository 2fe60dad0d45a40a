/**
 The words that tell a reader the level, mask and version of a symbol: a few bits of data, followed by
 the check bits of a shift register.
 */
module BchCode {
  import opened Bits
  import opened QrTables

  /** Numbers as bits here have the lowest bit first: bit i of a word is (word >> i) & 1. */
  function LowBits(val: nat, len: nat): (bits: seq<bool>)
    ensures |bits| == len
  {
    if len == 0 then [] else [val % 2 == 1] + LowBits(val / 2, len - 1)
  }

  /** The generator polynomials 0x537 and 0x1F25, without their highest bits. */
  const FORMAT_GENERATOR := [true, true, true, false, true, true, false, false, true, false]
  const VERSION_GENERATOR := [true, false, true, false, false, true, false, false, true, true, true, true]

  /** The fixed pattern 0x5412 over every format word. */
  const FORMAT_PATTERN :=
    [false, true, false, false, true, false, false, false, false, false, true, false, true, false, true]

  /** The register shifted by one place, less the generator if a bit was shifted out. */
  function CheckStep(rem: seq<bool>, generator: seq<bool>): (r: seq<bool>)
    requires |rem| == |generator| > 0
    ensures |r| == |rem|
  {
    seq(|rem|, i requires 0 <= i < |rem| => (i > 0 && rem[i - 1]) != (rem[|rem| - 1] && generator[i]))
  }

  function CheckBits(rem: seq<bool>, generator: seq<bool>, k: nat): (r: seq<bool>)
    requires |rem| == |generator| > 0
    ensures |r| == |rem|
  {
    if k == 0 then rem else CheckStep(CheckBits(rem, generator, k - 1), generator)
  }

  /** The check bits of a number: as many as the generator has coefficients. */
  function CheckWord(data: nat, generator: seq<bool>): (r: seq<bool>)
    requires |generator| > 0
    ensures |r| == |generator|
  {
    CheckBits(LowBits(data, |generator|), generator, |generator|)
  }

  function EccFormatBits(ecl: Ecc): nat {
    match ecl
    case LOW => 1
    case MEDIUM => 0
    case QUARTILE => 3
    case HIGH => 2
  }

  function XorBits(a: seq<bool>, b: seq<bool>): (r: seq<bool>)
    requires |a| == |b|
    ensures |r| == |a|
  {
    seq(|a|, i requires 0 <= i < |a| => a[i] != b[i])
  }

  /** The fifteen format bits of a level and a mask. */
  function FormatWord(ecl: Ecc, mask: nat): (word: seq<bool>)
    requires mask < 8
    ensures |word| == 15
  {
    var data := EccFormatBits(ecl) * 8 + mask;
    XorBits(CheckWord(data, FORMAT_GENERATOR) + LowBits(data, 5), FORMAT_PATTERN)
  }

  /** The format words of a level, by mask. */
  function FormatWords(ecl: Ecc): (words: seq<seq<bool>>)
    ensures |words| == 8 && forall m :: 0 <= m < 8 ==> |words[m]| == 15 && words[m] == FormatWord(ecl, m)
  {
    seq(8, m requires 0 <= m < 8 => FormatWord(ecl, m))
  }

  ghost predicate WordsOf(words: seq<seq<bool>>, ecl: Ecc) {
    |words| == 8 && forall m :: 0 <= m < 8 ==> |words[m]| == 15 && words[m] == FormatWord(ecl, m)
  }

  /** The eighteen version bits. */
  function VersionWord(ver: nat): (word: seq<bool>)
    ensures |word| == 18
  {
    CheckWord(ver, VERSION_GENERATOR) + LowBits(ver, 6)
  }

  /** The source's loop on a register with one bit more than the generator, which is clear after every
      turn; so the range checks that follow cannot fail. */
  method ComputeCheckBits(data: nat, generator: seq<bool>) returns (rem: seq<bool>)
    requires |generator| > 0
    ensures rem == CheckWord(data, generator)
  {
    hide CheckStep, XorBits;
    var n := |generator|;
    var reg := LowBits(data, n) + [false];
    var i := 0;
    assert reg[..n] == LowBits(data, n);
    while i < n
      invariant 0 <= i <= n && |reg| == n + 1 && !reg[n]
      invariant reg[..n] == CheckBits(LowBits(data, n), generator, i)
    {
      RegisterStep(reg, generator);
      var shifted := [false] + reg[..n];
      reg := if reg[n - 1] then XorBits(shifted, generator + [true]) else shifted;
      i := i + 1;
    }
    rem := reg[..n];
  }

  lemma RegisterStep(reg: seq<bool>, generator: seq<bool>)
    requires |reg| == |generator| + 1 > 1
    ensures var n := |generator|; var shifted := [false] + reg[..n];
            var next := if reg[n - 1] then XorBits(shifted, generator + [true]) else shifted;
            !next[n] && next[..n] == CheckStep(reg[..n], generator)
  {
    var n := |generator|;
    var shifted := [false] + reg[..n];
    var next := if reg[n - 1] then XorBits(shifted, generator + [true]) else shifted;
    forall i | 0 <= i < n
      ensures next[i] == CheckStep(reg[..n], generator)[i]
    {
      assert i > 0 ==> shifted[i] == reg[i - 1];
    }
  }

  // ----- reading the format

  function EccOf(bits: nat): Ecc
    requires bits < 4
  {
    if bits == 1 then LOW else if bits == 0 then MEDIUM else if bits == 3 then QUARTILE else HIGH
  }

  function LowValue(bits: seq<bool>): nat {
    if bits == [] then 0 else (if bits[0] then 1 else 0) + 2 * LowValue(bits[1..])
  }

  datatype Format = Format(ecl: Ecc, mask: nat)

  /** The level and the mask that a format word stands for, by its five bits of data. */
  function ReadFormat(word: seq<bool>): Format
    requires |word| == 15
  {
    var data := LowValue(XorBits(word, FORMAT_PATTERN)[10..]);
    Format(EccOf(data / 8 % 4), data % 8)
  }

  lemma {:induction false} LowValueOf(val: nat, len: nat)
    requires val < Exp2(len)
    ensures LowValue(LowBits(val, len)) == val
  {
    if len > 0 {
      LowValueOf(val / 2, len - 1);
      assert LowBits(val, len)[1..] == LowBits(val / 2, len - 1);
    }
  }

  lemma XorTwice(a: seq<bool>, b: seq<bool>)
    requires |a| == |b|
    ensures XorBits(XorBits(a, b), b) == a
  {
  }

  /** The level and the mask can be read from their format word. */
  lemma FormatRoundTrip(ecl: Ecc, mask: nat)
    requires mask < 8
    ensures ReadFormat(FormatWord(ecl, mask)) == Format(ecl, mask)
  {
    hide XorBits, LowBits, LowValue, CheckWord;
    var data := EccFormatBits(ecl) * 8 + mask;
    var word := CheckWord(data, FORMAT_GENERATOR) + LowBits(data, 5);
    XorTwice(word, FORMAT_PATTERN);
    assert word[10..] == LowBits(data, 5);
    assert Exp2(5) == 32;
    LowValueOf(data, 5);
  }

  method ComputeFormatBits(ecl: Ecc, mask: nat) returns (bits: seq<bool>)
    requires mask < 8
    ensures bits == FormatWord(ecl, mask)
  {
    var data := EccFormatBits(ecl) * 8 + mask;
    var rem := ComputeCheckBits(data, FORMAT_GENERATOR);
    bits := XorBits(rem + LowBits(data, 5), FORMAT_PATTERN);
  }

  method ComputeVersionBits(ver: nat) returns (bits: seq<bool>)
    ensures bits == VersionWord(ver)
  {
    var rem := ComputeCheckBits(ver, VERSION_GENERATOR);
    bits := rem + LowBits(ver, 6);
  }
}
