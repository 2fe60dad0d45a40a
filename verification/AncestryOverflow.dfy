/**
 A chain on which the 32-bit counters of the backward walk wrap around: every transaction spends both
 outputs of the one before it, each behind a ring of the two, so the number of paths grows fourfold from
 block to block.
 */
module AncestryOverflow {
  import opened AncestryCounts
  import opened AncestryDb
  import opened AncestryGraph
  import opened Wrappers
  import Refresh = AncestryRefresh
  import Walk = AncestryWalk

  /** The miner transaction of block k, with hash 2k. The first has two outputs of amount 0, the others
      one of amount 1. */
  function MinerTx(k: nat): Transaction {
    Transaction([Gen], if k == 0 then [KeyOut(0), KeyOut(1)] else [KeyOut(100 + k)])
  }

  /** The other transaction of block k > 0, with hash 2k + 1: one ring for each output of the transaction
      before it. */
  function SpendTx(k: nat): Transaction
    requires 0 < k <= 20
  {
    Transaction([ToKey(0, [2 * k - 2, 1]), ToKey(0, [2 * k - 2, 1])], [KeyOut(2 * k), KeyOut(2 * k + 1)])
  }

  function BlockAt(k: nat): Block {
    Block(MinerTx(k), 2 * k, if k == 0 then [] else [2 * k + 1])
  }

  /** The two outputs of each block at amount 0, and those of the later miner transactions. */
  function AllOutputs(): set<Output> {
    (set j: nat | j < 42 :: Output(0, j)) + set k: nat | k < 20 :: Output(1, k)
  }

  function DataOf(o: Output): OutputData {
    if o.amount == 0 then OutputData(o.offset, o.offset / 2) else OutputData(101 + o.offset, o.offset + 1)
  }

  const GROWING: Db :=
    Db(21,
       map k: nat | k < 21 :: BlockAt(k),
       map t: nat | t < 42 && t != 1 :: if t % 2 == 0 then MinerTx(t / 2) else SpendTx(t / 2),
       map o: Output | o in AllOutputs() :: DataOf(o))

  lemma OutputKnown(j: nat)
    requires j < 42
    ensures Output(0, j) in GROWING.outputs && GROWING.outputs[Output(0, j)] == OutputData(j, j / 2)
  {
    assert Output(0, j) in AllOutputs();
  }

  /** The ring of both outputs of the transaction before that of block k. */
  function PairRing(k: nat): Ring
    requires 0 < k <= 20
  {
    Ring(0, [2 * k - 2, 2 * k - 1])
  }

  lemma SpendData(k: nat)
    requires 0 < k <= 20
    ensures GetTx(GROWING, 2 * k + 1) == Some(TxData([PairRing(k), PairRing(k)], [2 * k, 2 * k + 1], false))
  {
    hide AbsoluteOffsets, ToTxData;
    assert GROWING.txs[2 * k + 1] == SpendTx(k);
    SpendRings(k);
  }

  lemma SpendRings(k: nat)
    requires 0 < k <= 20
    ensures ToTxData(SpendTx(k)) == Some(TxData([PairRing(k), PairRing(k)], [2 * k, 2 * k + 1], false))
  {
    hide AbsoluteOffsets;
    var tx := SpendTx(k);
    OffsetsOfPair(2 * k - 2);
    assert Rings(tx.vin) == [PairRing(k), PairRing(k)];
    assert Keys(tx.vout) == [2 * k, 2 * k + 1];
  }

  lemma OffsetsOfPair(n: uint64)
    requires n < 100
    ensures AbsoluteOffsets([n, 1]) == [n, n + 1]
  {
    assert [n, 1][..1] == [n] && [n][..0] == [];
    assert AbsoluteOffsets([n]) == [n];
  }

  lemma MembersOfSpend(k: nat)
    requires 0 < k <= 20
    ensures GetTx(GROWING, 2 * k + 1).Some?
    ensures var a, b := Output(0, 2 * k - 2), Output(0, 2 * k - 1); Members(GROWING, 2 * k + 1) == [a, b, a, b]
  {
    hide GetTx, GROWING;
    SpendData(k);
    var r := PairRing(k);
    FlattenNext([r, r], 0);
    FlattenNext([r, r], 1);
    assert [r, r][..2] == [r, r] && [r, r][..1] == [r] && [r, r][..0] == [];
    assert RingOutputs(r) == [Output(0, 2 * k - 2), Output(0, 2 * k - 1)];
  }

  lemma MembersOfMiner(k: nat)
    requires k < 21
    ensures GetTx(GROWING, 2 * k).Some? && GetTx(GROWING, 2 * k).value.coinbase
    ensures Members(GROWING, 2 * k) == []
  {
  }

  lemma OtherMembers(t: Hash)
    requires t >= 42 || t == 1
    ensures Members(GROWING, t) == []
  {
  }

  /** The transaction with the outputs 2k and 2k + 1 of amount 0. */
  function CreatorOf(j: nat): Hash {
    if j < 2 then 0 else 2 * (j / 2) + 1
  }

  lemma CreatorKnownHere(j: nat)
    requires j < 42
    ensures Creator(GROWING, Output(0, j)) == Some(CreatorOf(j))
    ensures GetTx(GROWING, CreatorOf(j)).Some?
  {
    var k := j / 2;
    OutputKnown(j);
    assert GetBlock(GROWING, k) == Some(BlockAt(k));
    hide GROWING, GetTx;
    if k == 0 {
      MembersOfMiner(0);
      assert SearchOutputs([KeyOut(0), KeyOut(1)][1..], 1) == Found;
    } else {
      SpendData(k);
      assert MinerTx(k).vout[1..] == [];
      assert SearchOutputs(MinerTx(k).vout, j) == Absent;
      assert SearchTxs(GROWING, [2 * k + 1], j) == Some(2 * k + 1);
    }
  }

  lemma MembersAre(t: Hash, i: nat)
    requires i < |Members(GROWING, t)|
    ensures t % 2 == 1 && 3 <= t < 42
    ensures Members(GROWING, t)[i] == Output(0, t - 3) || Members(GROWING, t)[i] == Output(0, t - 2)
  {
    hide Members, GROWING;
    if t >= 42 || t == 1 {
      OtherMembers(t);
    } else if t % 2 == 0 {
      MembersOfMiner(t / 2);
    } else {
      MembersOfSpend(t / 2);
    }
  }

  // ----- the assumptions about a chain hold

  function Ids(): seq<Hash> {
    Refresh.TxidsBelow(GROWING, false, 21)
  }

  lemma {:induction false} IdsBelow(h: nat)
    requires 0 < h <= 21
    ensures |Refresh.TxidsBelow(GROWING, false, h)| == h - 1
    ensures forall i :: 0 <= i < h - 1 ==> Refresh.TxidsBelow(GROWING, false, h)[i] == 2 * i + 3
  {
    if h > 1 {
      IdsBelow(h - 1);
    }
  }

  lemma CreatorOfMember(t: Hash, i: nat)
    requires i < |Members(GROWING, t)|
    ensures Creator(GROWING, Members(GROWING, t)[i]) == Some(if t == 3 then 0 else t - 2)
    ensures GetTx(GROWING, if t == 3 then 0 else t - 2).Some?
  {
    hide Members, Creator, GetTx, GROWING;
    MembersAre(t, i);
    CreatorKnownHere(t - 3);
    CreatorKnownHere(t - 2);
  }

  lemma GrowingIsOrdered()
    ensures Ordered(GROWING, Ids())
  {
    hide Members, Creator, GetTx, GROWING, Refresh.TxidsBelow;
    IdsBelow(21);
    var ids := Ids();
    forall t: Hash, k: nat | k < |Members(GROWING, t)|
      ensures Creator(GROWING, Members(GROWING, t)[k]).Some?
      ensures GetTx(GROWING, Creator(GROWING, Members(GROWING, t)[k]).value).Some?
    {
      CreatorOfMember(t, k);
    }
    forall t | Members(GROWING, t) != []
      ensures t in ids
    {
      MembersAre(t, 0);
      assert ids[t / 2 - 1] == t;
    }
    forall i, k | 0 <= i < |ids| && 0 <= k < |Members(GROWING, ids[i])|
      ensures NoMembersOrIn(GROWING, Creator(GROWING, Members(GROWING, ids[i])[k]), ids[..i])
    {
      EarlierCreator(ids, i, k);
    }
  }

  lemma EarlierCreator(ids: seq<Hash>, i: nat, k: nat)
    requires i < |ids| == 20 && forall j :: 0 <= j < 20 ==> ids[j] == 2 * j + 3
    requires k < |Members(GROWING, ids[i])|
    ensures NoMembersOrIn(GROWING, Creator(GROWING, Members(GROWING, ids[i])[k]), ids[..i])
  {
    hide Members, Creator, GROWING;
    CreatorOfMember(ids[i], k);
    if i == 0 {
      MembersOfMiner(0);
    } else {
      assert ids[..i][i - 1] == 2 * i + 1;
    }
  }

  /** The assumptions of the refresh can be met. */
  lemma GrowingIsChain()
    ensures Refresh.Chain(GROWING, false)
  {
    hide Ordered, Members, Creator, GetTx, Refresh.TxidsBelow;
    GrowingIsOrdered();
    IdsBelow(21);
    forall t | t in Ids()
      ensures GetTx(GROWING, t).Some?
    {
      MembersOfSpend(t / 2);
    }
    forall h: nat | h < 21
      ensures GetBlock(GROWING, h) == Some(BlockAt(h)) && Members(GROWING, 2 * h) == []
    {
      MembersOfMiner(h);
    }
  }

  // ----- the counts

  function Pow4(n: nat): nat {
    if n == 0 then 1 else 4 * Pow4(n - 1)
  }

  lemma {:induction false} PathsGrow(k: nat)
    requires 0 < k <= 20 && Ordered(GROWING, Ids())
    ensures PathsTo(GROWING, Ids(), 2 * k + 1, Output(0, 0)) == 2 * Pow4(k - 1)
  {
    hide Ordered, Members, Creator, GetTx, GROWING, Ids, PathsTo, PathsToBefore;
    var t, first := 2 * k + 1, Output(0, 0);
    MembersOfSpend(k);
    CreatorOfMember(t, 0);
    CreatorOfMember(t, 1);
    PathsStart(GROWING, Ids(), t, first);
    PathsToNext(GROWING, Ids(), t, 0, first);
    PathsToNext(GROWING, Ids(), t, 1, first);
    PathsToNext(GROWING, Ids(), t, 2, first);
    PathsToNext(GROWING, Ids(), t, 3, first);
    AllMembers(t, 4, first);
    if k == 1 {
      NoPathsFromMiner(first);
    } else {
      PathsGrow(k - 1);
    }
  }

  lemma AllMembers(t: Hash, n: nat, o: Output)
    requires Ordered(GROWING, Ids()) && |Members(GROWING, t)| == n
    ensures PathsTo(GROWING, Ids(), t, o) == PathsToBefore(GROWING, Ids(), t, n, o)
  {
    hide Ordered, Members, PathsToBefore, Ids, GROWING;
  }

  lemma NoPathsFromMiner(o: Output)
    requires Ordered(GROWING, Ids())
    ensures PathsTo(GROWING, Ids(), 0, o) == 0
  {
    hide Ordered, Members, GROWING, Ids, PathsToBefore;
    MembersOfMiner(0);
    PathsStart(GROWING, Ids(), 0, o);
  }

  /** Walking back from the transaction of block 17, the counter of the first output ends at zero, and
      the total reported is not the number of paths. */
  lemma CounterWraps(counters: Walk.Counters)
    requires Walk.Counted(GROWING, Ids(), 35, counters)
    ensures Output(0, 0) in counters && counters[Output(0, 0)] == 0
    ensures PathsTo(GROWING, Ids(), 35, Output(0, 0)) == 0x2_0000_0000
    ensures SumOver(counters.Keys, counters) % Walk.SIZE_RANGE != Paths(GROWING, Ids(), 35)
  {
    hide Ordered, Members, Creator, GROWING, Ids, PathsTo, Paths, Ancestors, SumOver;
    PathsGrow(17);
    PowerOfFour();
    ReachesIffCounted(GROWING, Ids(), 35, Output(0, 0));
    Walk.FullAncestryIsPaths(GROWING, Ids(), 35, counters);
  }

  lemma PowerOfFour()
    ensures Pow4(16) == 0x1_0000_0000
  {
    assert Pow4(4) == 0x100;
    assert Pow4(8) == 0x1_0000;
    assert Pow4(12) == 0x100_0000;
  }
}
