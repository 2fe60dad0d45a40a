/**
 Splitting the data codewords into blocks, appending each block's parity, and interleaving.
 */
module Interleave {
  import opened Gf256
  import opened ReedSolomon
  import opened QrTables
  import opened Wrappers

  /** The block parameters of a symbol. */
  datatype Layout = Layout(numBlocks: int, eccLen: int, rawCodewords: int) {

    predicate Valid() {
      ConsistentBlocks(numBlocks, eccLen, rawCodewords)
    }

    function NumShort(): int
      requires numBlocks > 0
    {
      numBlocks - rawCodewords % numBlocks
    }

    /** The data bytes of a short block; long blocks have one more. */
    function ShortData(): int
      requires numBlocks > 0
    {
      rawCodewords / numBlocks - eccLen
    }

    function DataLen(i: int): int
      requires numBlocks > 0
    {
      ShortData() + if i < NumShort() then 0 else 1
    }

    /** Where the data of block i begins. */
    function DataStart(i: nat): int
      requires numBlocks > 0
    {
      if i == 0 then 0 else DataStart(i - 1) + DataLen(i - 1)
    }

    /** The length of a stored block: a short block carries one byte of padding. */
    function Width(): int
      requires numBlocks > 0
    {
      rawCodewords / numBlocks + 1
    }

    /** The first block that has a byte in column i. */
    function FirstRow(i: int): int
      requires numBlocks > 0
    {
      if i == ShortData() then NumShort() else 0
    }

    /** Where column i begins in the interleaved sequence. */
    function ColumnStart(i: nat): int
      requires numBlocks > 0
    {
      if i == 0 then 0 else ColumnStart(i - 1) + numBlocks - FirstRow(i - 1)
    }

    /** Whether column i of block j is sent; only the padding is not. */
    predicate Sent(j: int, i: int)
      requires numBlocks > 0
    {
      0 <= i < Width() && FirstRow(i) <= j < numBlocks
    }

    /** The place of that byte in the interleaved sequence. */
    function Position(j: int, i: nat): int
      requires numBlocks > 0
    {
      ColumnStart(i) + j - FirstRow(i)
    }
  }

  function LayoutOf(ver: int, ecl: Ecc): Layout {
    Layout(NumBlocks(ver, ecl), BlockEccLen(ver, ecl), RawCodewords(ver))
  }

  // ----- sizes

  lemma LayoutBounds(l: Layout)
    requires l.Valid()
    ensures 0 < l.NumShort() <= l.numBlocks && 0 < l.eccLen <= 255
    ensures 0 < l.ShortData() && l.Width() == l.ShortData() + l.eccLen + 1 <= 255
    ensures l.rawCodewords == l.numBlocks * (l.ShortData() + l.eccLen) + (l.numBlocks - l.NumShort())
  {
    var n, q, r := l.numBlocks, l.rawCodewords / l.numBlocks, l.rawCodewords % l.numBlocks;
    assert l.rawCodewords == n * q + r && 0 <= r < n;
    assert n * (l.eccLen + 1) == n * l.eccLen + n;
    assert q >= l.eccLen + 1 by {
      if q <= l.eccLen {
        Monotone(n, q, l.eccLen);
      }
    }
    assert q < 255 by {
      if q >= 255 {
        Monotone(n, 255, q);
      }
    }
  }

  lemma Monotone(n: int, a: int, b: int)
    requires n >= 0 && a <= b
    ensures n * a <= n * b
  {
    assert n * b - n * a == n * (b - a);
  }

  lemma {:induction false} DataStartClosed(l: Layout, i: nat)
    requires l.Valid() && i <= l.numBlocks
    ensures l.DataStart(i) == i * l.ShortData() + if i <= l.NumShort() then 0 else i - l.NumShort()
  {
    if i > 0 {
      DataStartClosed(l, i - 1);
      assert (i - 1) * l.ShortData() + l.ShortData() == i * l.ShortData();
    }
  }

  lemma {:induction false} ColumnStartClosed(l: Layout, i: nat)
    requires l.Valid()
    ensures l.ColumnStart(i) == i * l.numBlocks - if i <= l.ShortData() then 0 else l.NumShort()
  {
    if i > 0 {
      ColumnStartClosed(l, i - 1);
      LayoutBounds(l);
      assert (i - 1) * l.numBlocks + l.numBlocks == i * l.numBlocks;
    }
  }

  /** The data fills the blocks exactly, and the columns fill the codewords exactly. */
  lemma Totals(l: Layout)
    requires l.Valid()
    ensures l.DataStart(l.numBlocks) == l.rawCodewords - l.eccLen * l.numBlocks
    ensures l.ColumnStart(l.Width()) == l.rawCodewords
  {
    LayoutBounds(l);
    DataStartClosed(l, l.numBlocks);
    ColumnStartClosed(l, l.Width());
    TotalsArithmetic(l.numBlocks, l.ShortData(), l.eccLen);
  }

  lemma TotalsArithmetic(n: int, s: int, e: int)
    ensures n * (s + e) == n * s + e * n
    ensures (s + e + 1) * n == n * s + e * n + n
  {
  }

  lemma {:induction false} DataStartMonotone(l: Layout, i: nat, k: nat)
    requires l.Valid() && i <= k
    ensures 0 <= l.DataStart(i) <= l.DataStart(k)
    decreases k
  {
    LayoutBounds(l);
    if i < k {
      DataStartMonotone(l, i, k - 1);
    } else if i > 0 {
      DataStartMonotone(l, i - 1, i - 1);
    }
  }

  lemma {:induction false} ColumnStartMonotone(l: Layout, i: nat, k: nat)
    requires l.Valid() && i <= k
    ensures 0 <= l.ColumnStart(i) <= l.ColumnStart(k)
    decreases k
  {
    LayoutBounds(l);
    if i < k {
      ColumnStartMonotone(l, i, k - 1);
    } else if i > 0 {
      ColumnStartMonotone(l, i - 1, i - 1);
    }
  }

  // ----- the positions are a bijection

  lemma PositionInRange(l: Layout, j: int, i: int)
    requires l.Valid() && l.Sent(j, i)
    ensures 0 <= l.ColumnStart(i) <= l.Position(j, i) < l.ColumnStart(i + 1) <= l.rawCodewords
  {
    ColumnStartMonotone(l, i, i + 1);
    ColumnStartMonotone(l, i + 1, l.Width());
    Totals(l);
  }

  /** No two bytes that are sent share a place. */
  lemma PositionInjective(l: Layout, j: int, i: int, j': int, i': int)
    requires l.Valid() && l.Sent(j, i) && l.Sent(j', i')
    requires l.Position(j, i) == l.Position(j', i')
    ensures j == j' && i == i'
  {
    PositionInRange(l, j, i);
    PositionInRange(l, j', i');
    if i < i' {
      ColumnStartMonotone(l, i + 1, i');
    } else if i' < i {
      ColumnStartMonotone(l, i' + 1, i);
    }
  }

  /** Every place holds a byte of some block. */
  lemma PositionSurjective(l: Layout, t: int) returns (j: int, i: int)
    requires l.Valid() && 0 <= t < l.rawCodewords
    ensures l.Sent(j, i) && l.Position(j, i) == t
  {
    LayoutBounds(l);
    Totals(l);
    i := 0;
    while t >= l.ColumnStart(i + 1)
      invariant 0 <= i < l.Width() && l.ColumnStart(i) <= t
      decreases l.Width() - i
    {
      i := i + 1;
    }
    j := t - l.ColumnStart(i) + l.FirstRow(i);
  }

  /** The bytes come column by column, and within a column block by block. */
  lemma PositionOrder(l: Layout, j: int, i: int, j': int, i': int)
    requires l.Valid() && l.Sent(j, i) && l.Sent(j', i')
    ensures l.Position(j, i) < l.Position(j', i') <==> i < i' || (i == i' && j < j')
  {
    PositionInRange(l, j, i);
    PositionInRange(l, j', i');
    if i < i' {
      ColumnStartMonotone(l, i + 1, i');
    } else if i' < i {
      ColumnStartMonotone(l, i' + 1, i);
    }
  }

  /** The blocks follow each other in the data, and the last ones may be longer by one byte. Of the shorter
      ones, the column behind their data is not sent. */
  lemma BlocksAscend(l: Layout, i: nat, j: nat)
    requires l.Valid() && i < j < l.numBlocks
    ensures l.DataStart(0) == 0 && l.DataStart(i + 1) == l.DataStart(i) + l.DataLen(i)
    ensures l.DataLen(i) <= l.DataLen(j) <= l.DataLen(i) + 1
    ensures forall c :: 0 <= c < l.Width() ==> (l.Sent(i, c) <==> !(c == l.DataLen(i) == l.ShortData()))
  {
    LayoutBounds(l);
  }

  // ----- blocks

  /** The data bytes of block j. */
  function BlockData(l: Layout, data: seq<Byte>, j: int): (d: seq<Byte>)
    requires l.Valid() && 0 <= j < l.numBlocks && |data| == l.rawCodewords - l.eccLen * l.numBlocks
    ensures |d| == l.DataLen(j)
  {
    DataStartMonotone(l, j, j + 1);
    DataStartMonotone(l, j + 1, l.numBlocks);
    Totals(l);
    data[l.DataStart(j)..l.DataStart(j + 1)]
  }

  /** Block j as the source stores it: data, padding if the block is short, parity. */
  function StoredBlock(l: Layout, data: seq<Byte>, j: int): (row: seq<Byte>)
    requires l.Valid() && 0 <= j < l.numBlocks && |data| == l.rawCodewords - l.eccLen * l.numBlocks
    ensures |row| == l.Width()
  {
    LayoutBounds(l);
    var d := BlockData(l, data, j);
    d + (if j < l.NumShort() then [ZERO] else []) + Remainder(d, Divisor(l.eccLen))
  }

  /** What a reader collects for block j from an interleaved sequence. */
  function CollectData(l: Layout, codewords: seq<Byte>, j: int): (d: seq<Byte>)
    requires l.Valid() && 0 <= j < l.numBlocks
    ensures |d| == l.DataLen(j)
  {
    LayoutBounds(l);
    seq(l.DataLen(j), i requires 0 <= i < l.DataLen(j) => At(codewords, l.Position(j, i)))
  }

  function CollectParity(l: Layout, codewords: seq<Byte>, j: int): (p: seq<Byte>)
    requires l.Valid() && 0 <= j < l.numBlocks
    ensures |p| == l.eccLen
  {
    LayoutBounds(l);
    var s := l.ShortData() + 1;
    seq(l.eccLen, i requires 0 <= i < l.eccLen => At(codewords, l.Position(j, s + i)))
  }

  /** The data of the first j blocks. */
  function Deinterleave(l: Layout, codewords: seq<Byte>, j: nat): seq<Byte>
    requires l.Valid() && j <= l.numBlocks
  {
    if j == 0 then [] else Deinterleave(l, codewords, j - 1) + CollectData(l, codewords, j - 1)
  }

  /** `codewords` holds every byte that is sent of every block at its place. */
  ghost predicate Interleaved(l: Layout, data: seq<Byte>, codewords: seq<Byte>)
    requires l.Valid() && |data| == l.rawCodewords - l.eccLen * l.numBlocks
  {
    && |codewords| == l.rawCodewords
    && forall j, i :: l.Sent(j, i) ==> At(codewords, l.Position(j, i)) == StoredBlock(l, data, j)[i]
  }

  // ----- the source's method

  datatype Error = InvalidArgument

  /** The body of the source's block loop: block i starts at k. */
  method BuildBlock(l: Layout, data: seq<Byte>, i: int, k: int, rsDiv: seq<Byte>) returns (dat: seq<Byte>, k': int)
    requires l.Valid() && |data| == l.rawCodewords - l.eccLen * l.numBlocks
    requires 0 <= i < l.numBlocks && k == l.DataStart(i) && rsDiv == Divisor(l.eccLen)
    ensures dat == StoredBlock(l, data, i) && k' == l.DataStart(i + 1)
  {
    hide ConsistentBlocks, Remainder, Divisor;
    LayoutBounds(l);
    Totals(l);
    DataStartMonotone(l, i, i + 1);
    DataStartMonotone(l, i + 1, l.numBlocks);
    var shortBlockLen := l.rawCodewords / l.numBlocks;
    var numShortBlocks := l.numBlocks - l.rawCodewords % l.numBlocks;
    dat := data[k..k + shortBlockLen - l.eccLen + if i < numShortBlocks then 0 else 1];
    assert dat == BlockData(l, data, i);
    k' := k + |dat|;
    var ecc := ComputeRemainder(dat, rsDiv);
    if i < numShortBlocks {
      dat := dat + [ZERO];
    }
    dat := dat + ecc;
  }

  /** Splits off each block, with its padding and parity. */
  method BuildBlocks(l: Layout, data: seq<Byte>) returns (blocks: seq<seq<Byte>>)
    requires l.Valid() && |data| == l.rawCodewords - l.eccLen * l.numBlocks
    ensures |blocks| == l.numBlocks
    ensures forall j :: 0 <= j < l.numBlocks ==> blocks[j] == StoredBlock(l, data, j)
  {
    hide ConsistentBlocks, Divisor, StoredBlock;
    LayoutBounds(l);
    var rsDiv := ComputeDivisor(l.eccLen);
    blocks := [];
    var i, k := 0, 0;
    while i < l.numBlocks
      invariant 0 <= i <= l.numBlocks && |blocks| == i
      invariant k == l.DataStart(i)
      invariant forall j :: 0 <= j < i ==> blocks[j] == StoredBlock(l, data, j)
    {
      var dat;
      dat, k := BuildBlock(l, data, i, k, rsDiv.value);
      blocks := blocks + [dat];
      i := i + 1;
    }
  }

  /** Interleaves stored blocks, skipping the padding. */
  method InterleaveBlocks(l: Layout, blocks: seq<seq<Byte>>) returns (result: seq<Byte>)
    requires l.Valid() && |blocks| == l.numBlocks
    requires forall j :: 0 <= j < |blocks| ==> |blocks[j]| == l.Width()
    ensures |result| == l.rawCodewords
    ensures forall j, i :: l.Sent(j, i) ==> At(result, l.Position(j, i)) == blocks[j][i]
  {
    LayoutBounds(l);
    Totals(l);
    var shortBlockLen := l.rawCodewords / l.numBlocks;
    var numShortBlocks := l.numBlocks - l.rawCodewords % l.numBlocks;
    result := [];
    var i := 0;
    while i < |blocks[0]|
      invariant 0 <= i <= l.Width()
      invariant |result| == l.ColumnStart(i)
      invariant forall j, c :: l.Sent(j, c) && c < i ==> At(result, l.Position(j, c)) == blocks[j][c]
    {
      ColumnStartMonotone(l, i, i);
      var j := 0;
      while j < |blocks|
        invariant 0 <= j <= |blocks|
        invariant |result| == l.ColumnStart(i) + if j <= l.FirstRow(i) then 0 else j - l.FirstRow(i)
        invariant forall r, c :: l.Sent(r, c) && (c < i || (c == i && r < j)) ==>
                  At(result, l.Position(r, c)) == blocks[r][c]
      {
        if i != shortBlockLen - l.eccLen || j >= numShortBlocks {
          forall r, c | l.Sent(r, c) && (c < i || (c == i && r < j))
            ensures 0 <= l.Position(r, c) < |result|
          {
            EarlierPosition(l, r, c, j, i);
          }
          result := result + [blocks[j][i]];
        }
        j := j + 1;
      }
      i := i + 1;
    }
  }

  lemma EarlierPosition(l: Layout, j: int, i: int, j': int, i': int)
    requires l.Valid() && l.Sent(j, i) && 0 <= i' && l.FirstRow(i') <= j' < l.numBlocks
    requires i < i' || (i == i' && j < j')
    ensures 0 <= l.Position(j, i) < l.ColumnStart(i') + j' - l.FirstRow(i')
  {
    PositionInRange(l, j, i);
    if i < i' {
      ColumnStartMonotone(l, i + 1, i');
    }
  }

  /** The source's function for a symbol's version and level. The length check at its end cannot
      fail, whatever the data. */
  method AddEccAndInterleave(ver: int, ecl: Ecc, data: seq<Byte>) returns (r: Result<seq<Byte>, Error>)
    requires ValidVersion(ver)
    ensures r.Success? <==> |data| == NumDataCodewords(ver, ecl)
    ensures r.Success? ==> LayoutOf(ver, ecl).Valid() && Interleaved(LayoutOf(ver, ecl), data, r.value)
  {
    if |data| != NumDataCodewords(ver, ecl) {
      return Failure(InvalidArgument);
    }
    TablesConsistent(ver, ecl);
    hide NumBlocks, BlockEccLen, RawDataModules;
    var l := LayoutOf(ver, ecl);
    LayoutBounds(l);
    var blocks := BuildBlocks(l, data);
    var result := InterleaveBlocks(l, blocks);
    assert |result| == l.rawCodewords;
    r := Success(result);
  }

  // ----- round trip

  /** A deinterleaver gets back each block's data and parity. */
  lemma BlocksRecovered(l: Layout, data: seq<Byte>, codewords: seq<Byte>, j: int)
    requires l.Valid() && |data| == l.rawCodewords - l.eccLen * l.numBlocks
    requires Interleaved(l, data, codewords) && 0 <= j < l.numBlocks
    ensures CollectData(l, codewords, j) == BlockData(l, data, j)
    ensures CollectData(l, codewords, j) + CollectParity(l, codewords, j)
         == Codeword(BlockData(l, data, j), l.eccLen)
  {
    hide Interleaved, Remainder, Divisor;
    LayoutBounds(l);
    var row, d := StoredBlock(l, data, j), BlockData(l, data, j);
    forall i | 0 <= i < |d|
      ensures CollectData(l, codewords, j)[i] == d[i]
    {
      ByteSent(l, data, codewords, j, i);
    }
    var p := Remainder(d, Divisor(l.eccLen));
    forall i | 0 <= i < l.eccLen
      ensures CollectParity(l, codewords, j)[i] == p[i]
    {
      ByteSent(l, data, codewords, j, l.ShortData() + 1 + i);
    }
  }

  lemma ByteSent(l: Layout, data: seq<Byte>, codewords: seq<Byte>, j: int, i: int)
    requires l.Valid() && |data| == l.rawCodewords - l.eccLen * l.numBlocks
    requires Interleaved(l, data, codewords) && l.Sent(j, i)
    ensures At(codewords, l.Position(j, i)) == StoredBlock(l, data, j)[i]
  {
  }

  /** Deinterleaving all blocks gets back the data. */
  lemma {:induction false} DataRecovered(l: Layout, data: seq<Byte>, codewords: seq<Byte>, j: nat)
    requires l.Valid() && |data| == l.rawCodewords - l.eccLen * l.numBlocks
    requires Interleaved(l, data, codewords) && j <= l.numBlocks
    ensures 0 <= l.DataStart(j) <= |data|
    ensures Deinterleave(l, codewords, j) == data[..l.DataStart(j)]
    ensures j == l.numBlocks ==> Deinterleave(l, codewords, j) == data
  {
    hide Interleaved, ConsistentBlocks, Remainder, Divisor, CollectData, CollectParity;
    Totals(l);
    DataStartMonotone(l, j, l.numBlocks);
    if j > 0 {
      DataRecovered(l, data, codewords, j - 1);
      BlocksRecovered(l, data, codewords, j - 1);
      DataStartMonotone(l, j - 1, j);
      assert data[..l.DataStart(j)] == data[..l.DataStart(j - 1)] + BlockData(l, data, j - 1);
    }
  }
}
