/**
 The RingCT outputs of a chain: how many are counted for its blocks, and how many are stored.
 */
module BlockRct {
  import opened BlockPops
  import opened BlockRuns
  import opened BlockStore
  import opened OutputStacks
  import opened Wrappers

  /** The count of zero amounts is right for a transaction when its outputs are stored as they are. */
  predicate CountedRight(tx: Transaction) {
    StoredUnderZero(tx) ==> forall i :: 0 <= i < |tx.vout| ==> tx.vout[i].amount == 0
  }

  lemma StoredAtLeastCounted(tx: Transaction)
    ensures StoredRct(tx) >= ZeroAmounts(tx.vout)
    ensures StoredRct(tx) == ZeroAmounts(tx.vout) <==> CountedRight(tx)
  {
    hide StoredUnderZero;
    StoredCount(tx, |tx.vout|);
    assert tx.vout[..|tx.vout|] == tx.vout;
    ZeroAmountsBound(tx.vout);
  }

  lemma {:induction false} AllStoredAtLeastCounted(txs: seq<Transaction>)
    ensures StoredRctOfAll(txs) >= ZeroAmountsOfAll(txs)
    ensures StoredRctOfAll(txs) == ZeroAmountsOfAll(txs) <==> forall i :: 0 <= i < |txs| ==> CountedRight(txs[i])
  {
    hide CountedRight, StoredRct, ZeroAmounts;
    if txs != [] {
      AllStoredAtLeastCounted(txs[..|txs| - 1]);
      StoredAtLeastCounted(txs[|txs| - 1]);
      assert txs == txs[..|txs| - 1] + [txs[|txs| - 1]];
    }
  }

  /** A version 1 transaction with an output of amount 0 is rejected. */
  lemma {:induction false} NoZeroAmountsInOldTxs(o: Outs, txHash: Hash, tx: Transaction, height: nat, n: nat)
    requires n <= |tx.vout| && tx.version <= 1
    ensures AddOutputs(o, txHash, tx, height, n).Success? ==> forall i :: 0 <= i < n ==> tx.vout[i].amount != 0
  {
    hide Stack;
    if n > 0 {
      NoZeroAmountsInOldTxs(o, txHash, tx, height, n - 1);
    }
  }

  lemma MinerHasNoZeroAmounts(s: Store, txHash: Hash, tx: Transaction)
    requires AddTransaction(s, txHash, tx).Success? && tx.version <= 1
    ensures ZeroAmounts(tx.vout) == 0
  {
    hide SpendInputs, AddOutputs;
    NoZeroAmountsInOldTxs(s.outs, txHash, tx, |s.blocks|, |tx.vout|);
    ZeroAmountsBound(tx.vout);
  }

  /** All outputs of a version 2 miner transaction are stored under amount 0, and none of version 1. */
  lemma MinerStored(s: Store, txHash: Hash, tx: Transaction)
    requires AddTransaction(s, txHash, tx).Success? && HasGen(tx.vin)
    ensures StoredRct(tx) == if tx.version == 2 then |tx.vout| else 0
  {
    hide AddTransaction;
    StoredCount(tx, |tx.vout|);
    assert tx.vout[..|tx.vout|] == tx.vout;
    if tx.version <= 1 {
      MinerHasNoZeroAmounts(s, txHash, tx);
    }
  }

  ghost predicate AllCountedRight(txs: seq<Transaction>) {
    forall i :: 0 <= i < |txs| ==> CountedRight(txs[i])
  }

  /** Conservation: the number counted for a block is the number of its outputs stored under amount 0,
      exactly when no transaction but the miner's has other outputs moved to amount 0. */
  lemma ConservedIff(s: Store, b: Block, txs: seq<Transaction>)
    requires AddBlock(s, b, txs).Success? && HasGen(b.minerTx.vin)
    ensures RctHeight(AddBlock(s, b, txs).value) == RctHeight(s) + NumRctOuts(b, txs) <==> AllCountedRight(txs)
  {
    hide AddTransaction, AddTransactions, AddBlockRow, HasGen, RctHeight, StoredRct, StoredRctOfAll, ZeroAmountsOfAll,
         CountedRight;
    AddBlockRct(s, b, txs);
    MinerStored(s, b.minerTx.hash, b.minerTx);
    AllStoredAtLeastCounted(txs);
  }

  // ----- over runs

  function RctOfChain(chain: seq<Entry>): nat {
    if chain == [] then 0 else
    RctOfChain(chain[..|chain| - 1]) + NumRctOuts(chain[|chain| - 1].block, chain[|chain| - 1].txs)
  }

  ghost predicate ChainCountedRight(chain: seq<Entry>) {
    forall i :: 0 <= i < |chain| ==> EntryCountedRight(chain[i])
  }

  ghost predicate EntryCountedRight(e: Entry) {
    HasGen(e.block.minerTx.vin) && AllCountedRight(e.txs)
  }

  /** The counts of all blocks add up to the height of the table of amount 0. */
  lemma {:induction false} ChainConserves(chain: seq<Entry>)
    requires Grow(chain).Success? && ChainCountedRight(chain)
    ensures RctHeight(Grow(chain).value) == RctOfChain(chain)
  {
    hide AddBlock, NumRctOuts, AllCountedRight, HasGen;
    if chain != [] {
      var before, e := chain[..|chain| - 1], chain[|chain| - 1];
      ChainConserves(before);
      assert EntryCountedRight(e);
      ConservedIff(Grow(before).value, e.block, e.txs);
    }
  }

  /** After any additions and pops the counts of the blocks left add up to that height exactly when the
      rules agree for all blocks popped. */
  lemma RunConserves(steps: seq<Step>)
    requires Run(steps).Success? && ChainCountedRight(Net(steps))
    ensures RctHeight(Run(steps).value) >= RctOfChain(Net(steps))
    ensures RctHeight(Run(steps).value) == RctOfChain(Net(steps)) <==> Agreeing(PoppedEntries(steps))
  {
    hide Run, Grow, Net, PoppedEntries, RctHeight, RctOfChain, Agreeing, Excess, EntryCountedRight, Like;
    RunIsLikeNet(steps);
    ChainConserves(Net(steps));
    ExcessIff(PoppedEntries(steps));
  }

  // ----- the cumulative count stored with each block

  /** The count stored with the top block is that of all outputs under amount 0. */
  ghost predicate CumulativeRight(s: Store) {
    s.blocks != [] ==> s.blocks[|s.blocks| - 1].cumulativeRct == RctHeight(s)
  }

  lemma AddBlockCumulative(s: Store, b: Block, txs: seq<Transaction>)
    requires AddBlock(s, b, txs).Success?
    ensures var s' := AddBlock(s, b, txs).value;
            && |s'.blocks| == |s.blocks| + 1
            && (b.majorVersion >= 4 ==> s.blocks != [])
            && s'.blocks[|s.blocks|].cumulativeRct == NumRctOuts(b, txs)
                 + if b.majorVersion >= 4 then s.blocks[|s.blocks| - 1].cumulativeRct else 0
  {
    hide AddTransaction, AddTransactions, NumRctOuts;
    AddTransactionKeepsBlocks(s, b.minerTx.hash, b.minerTx);
    AddTransactionsKeepBlocks(AddTransaction(s, b.minerTx.hash, b.minerTx).value, b.txHashes, txs, |txs|);
  }

  lemma AddTransactionKeepsBlocks(s: Store, txHash: Hash, tx: Transaction)
    ensures var r := AddTransaction(s, txHash, tx); r.Success? ==> r.value.blocks == s.blocks
  {
    hide SpendInputs, AddOutputs;
  }

  lemma {:induction false} AddTransactionsKeepBlocks(s: Store, hashes: seq<Hash>, txs: seq<Transaction>, n: nat)
    requires n <= |txs| == |hashes|
    ensures var r := AddTransactions(s, hashes, txs, n); r.Success? ==> r.value.blocks == s.blocks
  {
    hide AddTransaction;
    if n > 0 {
      AddTransactionsKeepBlocks(s, hashes, txs, n - 1);
      if AddTransactions(s, hashes, txs, n - 1).Success? {
        AddTransactionKeepsBlocks(AddTransactions(s, hashes, txs, n - 1).value, hashes[n - 1], txs[n - 1]);
      }
    }
  }

  /** Adding a block keeps the cumulative count right exactly when its version is at least 4 or nothing
      was stored under amount 0 before it. */
  lemma CumulativeKeptIff(s: Store, b: Block, txs: seq<Transaction>)
    requires AddBlock(s, b, txs).Success? && CumulativeRight(s)
    requires HasGen(b.minerTx.vin) && AllCountedRight(txs)
    ensures CumulativeRight(AddBlock(s, b, txs).value) <==> b.majorVersion >= 4 || RctHeight(s) == 0
  {
    hide AddBlock, NumRctOuts, HasGen, AllCountedRight, RctHeight;
    ConservedIff(s, b, txs);
    AddBlockCumulative(s, b, txs);
  }

  /** Blocks before version 4 come before the first output under amount 0. */
  ghost predicate VersionsInOrder(chain: seq<Entry>) {
    forall i :: 0 <= i < |chain| ==> chain[i].block.majorVersion >= 4 || RctOfChain(chain[..i]) == 0
  }

  lemma {:induction false} ChainCumulative(chain: seq<Entry>)
    requires Grow(chain).Success? && ChainCountedRight(chain) && VersionsInOrder(chain)
    ensures CumulativeRight(Grow(chain).value)
  {
    hide AddBlock, NumRctOuts, AllCountedRight, HasGen, RctHeight, RctOfChain;
    if chain != [] {
      var before, e := chain[..|chain| - 1], chain[|chain| - 1];
      assert forall i :: 0 <= i < |before| ==> before[..i] == chain[..i];
      ChainCumulative(before);
      ChainConserves(before);
      assert EntryCountedRight(e);
      CumulativeKeptIff(Grow(before).value, e.block, e.txs);
    }
  }

  /** A block of version 1 with a miner transaction of version 2 that has one output. */
  function EarlyBlock(n: nat): Block
    requires n > 0
  {
    Block(n, n - 1, 1, Transaction(n, 2, 0, [Gen], [TxOut(5, Some(7), 0)]), [])
  }

  lemma EarlyBlockAdded(s: Store, n: nat)
    requires n > 0 && Consistent(s) && |s.blocks| == n - 1 && n !in s.txs
    requires forall i :: 0 <= i < |s.blocks| ==> s.blocks[i].hash == i + 1
    ensures var r := AddBlock(s, EarlyBlock(n), []);
            && r.Success? && r.value.txs.Keys == s.txs.Keys + {n}
            && r.value.blocks == s.blocks + [BlockRow(EarlyBlock(n), n, 1)]
            && RctHeight(r.value) == RctHeight(s) + 1
  {
    hide Consistent, RctHeight, AddTransaction;
    EarlyMiner(s, n);
    var mined := AddTransaction(s, n, EarlyBlock(n).minerTx);
    AddTransactionConsistent(s, n, EarlyBlock(n).minerTx);
    EarlyBlockRow(mined.value, n);
    EarlyBlockIs(s, n);
    SameHeight(mined.value, AddBlock(s, EarlyBlock(n), []).value);
  }

  lemma EarlyBlockIs(s: Store, n: nat)
    requires n > 0
    ensures var mined := AddTransaction(s, n, EarlyBlock(n).minerTx);
            mined.Success? ==> AddBlock(s, EarlyBlock(n), []) == AddBlockRow(mined.value, EarlyBlock(n), 1)
  {
    hide AddTransaction, AddBlockRow;
    assert NumRctOuts(EarlyBlock(n), []) == 1;
  }

  lemma EarlyBlockRow(s: Store, n: nat)
    requires n > 0 && Consistent(s) && |s.blocks| == n - 1
    requires forall i :: 0 <= i < |s.blocks| ==> s.blocks[i].hash == i + 1
    ensures var r := AddBlockRow(s, EarlyBlock(n), 1);
            r.Success? && r.value == s.(blocks := r.value.blocks, heights := r.value.heights)
            && r.value.blocks == s.blocks + [BlockRow(EarlyBlock(n), n, 1)]
  {
    hide Consistent;
    BlockAddable.AddBlockRowIff(s, EarlyBlock(n), 1);
  }

  lemma EarlyMiner(s: Store, n: nat)
    requires n > 0 && n !in s.txs
    ensures var r := AddTransaction(s, n, EarlyBlock(n).minerTx);
            r.Success? && r.value.txs.Keys == s.txs.Keys + {n}
            && r.value.blocks == s.blocks && RctHeight(r.value) == RctHeight(s) + 1
  {
    hide RctHeight, AddTransaction;
    var tx := EarlyBlock(n).minerTx;
    assert tx.vin[0].Gen?;
    assert BlockAddable.Images(tx.vin, 0) == [];
    assert BlockAddable.Images(tx.vin, 1) == [];
    BlockAddable.AddTransactionIff(s, n, tx);
    AddTransactionKeepsBlocks(s, n, tx);
    AddTransactionRct(s, n, tx);
    StoredCount(tx, 1);
  }

  lemma SameHeight(s: Store, t: Store)
    requires s.outs == t.outs
    ensures RctHeight(s) == RctHeight(t)
  {
  }

  /** Two blocks on which the cumulative count is wrong: it is 1, with two outputs under amount 0. */
  lemma CountRestarts(first: Entry, second: Entry)
    requires first == Entry(EarlyBlock(1), []) && second == Entry(EarlyBlock(2), [])
    ensures var r := Grow([first, second]);
            && r.Success? && |r.value.blocks| == 2 && r.value.blocks[1].cumulativeRct == 1
            && RctHeight(r.value) == 2 && !CumulativeRight(r.value)
  {
    hide AddBlock, Consistent;
    EmptyConsistent();
    EarlyBlockAdded(EMPTY_STORE, 1);
    assert [first, second][..1] == [first] && [first][..0] == [];
    GrowNone();
    GrowConsistent([first]);
    EarlyBlockAdded(Grow([first]).value, 2);
  }
}
