/**
 What a pop does to a store, whether or not the two rules for the amounts of outputs agree, and when
 exactly it undoes an addition.
 */
module BlockPops {
  import opened BlockAddable
  import opened BlockStore
  import opened OutputStacks
  import opened Wrappers

  // ----- outputs under amount 0

  function RctHeight(s: Store): nat {
    |Stack(s.outs, 0)|
  }

  /** Outputs of a transaction that are stored under amount 0, and those that are looked for there. */
  function StoredRct(tx: Transaction): nat {
    CountStored(tx, 0, |tx.vout|)
  }

  function RemovedRct(tx: Transaction): nat {
    CountRemoved(tx, 0, |tx.vout|)
  }

  function StoredRctOfAll(txs: seq<Transaction>): nat {
    if txs == [] then 0 else StoredRctOfAll(txs[..|txs| - 1]) + StoredRct(txs[|txs| - 1])
  }

  function RemovedRctOfAll(txs: seq<Transaction>): nat {
    if txs == [] then 0 else RemovedRctOfAll(txs[..|txs| - 1]) + RemovedRct(txs[|txs| - 1])
  }

  function BlockStored(b: Block, txs: seq<Transaction>): nat {
    StoredRct(b.minerTx) + StoredRctOfAll(txs)
  }

  function BlockRemoved(b: Block, txs: seq<Transaction>): nat {
    RemovedRct(b.minerTx) + RemovedRctOfAll(txs)
  }

  lemma {:induction false} StoredCount(tx: Transaction, n: nat)
    requires n <= |tx.vout|
    ensures CountStored(tx, 0, n) == if StoredUnderZero(tx) then n else ZeroAmounts(tx.vout[..n])
    ensures CountRemoved(tx, 0, n) == if RemovedUnderZero(tx) then n else ZeroAmounts(tx.vout[..n])
  {
    hide StoredUnderZero, RemovedUnderZero;
    if n > 0 {
      StoredCount(tx, n - 1);
      assert tx.vout[..n][..n - 1] == tx.vout[..n - 1];
    }
  }

  lemma {:induction false} ZeroAmountsBound(vout: seq<TxOut>)
    ensures ZeroAmounts(vout) <= |vout|
    ensures ZeroAmounts(vout) == |vout| <==> forall i :: 0 <= i < |vout| ==> vout[i].amount == 0
    ensures ZeroAmounts(vout) == 0 <==> forall i :: 0 <= i < |vout| ==> vout[i].amount != 0
  {
    if vout != [] {
      var before := vout[..|vout| - 1];
      ZeroAmountsBound(before);
      assert forall i :: 0 <= i < |before| ==> vout[i] == before[i];
    }
  }

  /** All transactions that break the rules break them in the same way: what is looked for under
      amount 0 has been stored there. */
  lemma StoredAtLeastRemoved(tx: Transaction)
    ensures StoredRct(tx) >= RemovedRct(tx)
    ensures StoredRct(tx) == RemovedRct(tx) <==> RulesAgree(tx)
  {
    assert RemovedUnderZero(tx) ==> StoredUnderZero(tx);
    hide StoredUnderZero, RemovedUnderZero;
    StoredCount(tx, |tx.vout|);
    assert tx.vout[..|tx.vout|] == tx.vout;
    ZeroAmountsBound(tx.vout);
  }

  lemma {:induction false} AllStoredAtLeastRemoved(txs: seq<Transaction>)
    ensures StoredRctOfAll(txs) >= RemovedRctOfAll(txs)
    ensures StoredRctOfAll(txs) == RemovedRctOfAll(txs) <==> AllAgree(txs)
  {
    hide RulesAgree, StoredRct, RemovedRct;
    if txs != [] {
      AllStoredAtLeastRemoved(txs[..|txs| - 1]);
      StoredAtLeastRemoved(txs[|txs| - 1]);
      assert txs == txs[..|txs| - 1] + [txs[|txs| - 1]];
    }
  }

  lemma BlockStoredAtLeastRemoved(b: Block, txs: seq<Transaction>)
    ensures BlockStored(b, txs) >= BlockRemoved(b, txs)
    ensures BlockStored(b, txs) == BlockRemoved(b, txs) <==> RulesAgree(b.minerTx) && AllAgree(txs)
  {
    hide RulesAgree, StoredRct, RemovedRct, AllAgree;
    StoredAtLeastRemoved(b.minerTx);
    AllStoredAtLeastRemoved(txs);
  }

  lemma AddTransactionRct(s: Store, txHash: Hash, tx: Transaction)
    ensures var r := AddTransaction(s, txHash, tx); r.Success? ==> RctHeight(r.value) == RctHeight(s) + StoredRct(tx)
  {
    hide SpendInputs, AddOutputs, Stack, CountStored;
    AddOutputsCount(s.outs, txHash, tx, |s.blocks|, |tx.vout|, 0);
  }

  lemma {:induction false} AddTransactionsRct(s: Store, hashes: seq<Hash>, txs: seq<Transaction>, n: nat)
    requires n <= |txs| == |hashes|
    ensures var r := AddTransactions(s, hashes, txs, n);
            r.Success? ==> RctHeight(r.value) == RctHeight(s) + StoredRctOfAll(txs[..n])
  {
    hide AddTransaction, RctHeight, StoredRct;
    if n > 0 {
      AddTransactionsRct(s, hashes, txs, n - 1);
      assert txs[..n][..n - 1] == txs[..n - 1];
      if AddTransactions(s, hashes, txs, n - 1).Success? {
        AddTransactionRct(AddTransactions(s, hashes, txs, n - 1).value, hashes[n - 1], txs[n - 1]);
      }
    }
  }

  lemma AddBlockRct(s: Store, b: Block, txs: seq<Transaction>)
    ensures var r := AddBlock(s, b, txs); r.Success? ==> RctHeight(r.value) == RctHeight(s) + BlockStored(b, txs)
  {
    hide AddTransaction, AddTransactions, StoredRct, StoredRctOfAll, NumRctOuts;
    if AddBlock(s, b, txs).Success? {
      AddTransactionRct(s, b.minerTx.hash, b.minerTx);
      AddTransactionsRct(AddTransaction(s, b.minerTx.hash, b.minerTx).value, b.txHashes, txs, |txs|);
      assert txs[..|txs|] == txs;
    }
  }

  // ----- stores that differ in their outputs only

  /** The stores differ in the tables of outputs only, and in the indices noted for a transaction. */
  ghost predicate Like(s: Store, t: Store) {
    && s.spent == t.spent && s.txs == t.txs && s.blocks == t.blocks && s.heights == t.heights
    && s.txOutputs.Keys == t.txOutputs.Keys
    && forall id :: id in s.txOutputs ==> |s.txOutputs[id]| == |t.txOutputs[id]|
  }

  lemma AddTransactionLike(s: Store, t: Store, txHash: Hash, tx: Transaction)
    requires Like(s, t)
    ensures AddTransaction(s, txHash, tx).Success? <==> AddTransaction(t, txHash, tx).Success?
    ensures AddTransaction(s, txHash, tx).Success? ==>
              Like(AddTransaction(s, txHash, tx).value, AddTransaction(t, txHash, tx).value)
  {
    hide SpendInputs, AddOutputs, OutputStorable;
    AddOutputsIff(s.outs, txHash, tx, |s.blocks|, |tx.vout|);
    AddOutputsIff(t.outs, txHash, tx, |t.blocks|, |tx.vout|);
  }

  lemma {:induction false} AddTransactionsLike(s: Store, t: Store, hashes: seq<Hash>, txs: seq<Transaction>, n: nat)
    requires Like(s, t) && n <= |txs| == |hashes|
    ensures AddTransactions(s, hashes, txs, n).Success? <==> AddTransactions(t, hashes, txs, n).Success?
    ensures AddTransactions(s, hashes, txs, n).Success? ==>
              Like(AddTransactions(s, hashes, txs, n).value, AddTransactions(t, hashes, txs, n).value)
  {
    hide Like, AddTransaction;
    if n > 0 {
      AddTransactionsLike(s, t, hashes, txs, n - 1);
      var s', t' := AddTransactions(s, hashes, txs, n - 1), AddTransactions(t, hashes, txs, n - 1);
      if s'.Success? {
        AddTransactionLike(s'.value, t'.value, hashes[n - 1], txs[n - 1]);
      }
    }
  }

  lemma AddBlockRowLike(s: Store, t: Store, b: Block, numRct: nat)
    requires Like(s, t)
    ensures AddBlockRow(s, b, numRct).Success? <==> AddBlockRow(t, b, numRct).Success?
    ensures AddBlockRow(s, b, numRct).Success? ==>
              Like(AddBlockRow(s, b, numRct).value, AddBlockRow(t, b, numRct).value)
  {
  }

  lemma AddBlockLike(s: Store, t: Store, b: Block, txs: seq<Transaction>)
    requires Like(s, t)
    ensures AddBlock(s, b, txs).Success? <==> AddBlock(t, b, txs).Success?
    ensures AddBlock(s, b, txs).Success? ==> Like(AddBlock(s, b, txs).value, AddBlock(t, b, txs).value)
  {
    hide Like, AddTransaction, AddTransactions, AddBlockRow, NumRctOuts;
    if |b.txHashes| == |txs| {
      AddTransactionLike(s, t, b.minerTx.hash, b.minerTx);
      var s', t' := AddTransaction(s, b.minerTx.hash, b.minerTx), AddTransaction(t, b.minerTx.hash, b.minerTx);
      if s'.Success? {
        AddTransactionsLike(s'.value, t'.value, b.txHashes, txs, |txs|);
        var s'', t'' := AddTransactions(s'.value, b.txHashes, txs, |txs|),
                       AddTransactions(t'.value, b.txHashes, txs, |txs|);
        if s''.Success? {
          AddBlockRowLike(s''.value, t''.value, b, NumRctOuts(b, txs));
        }
      }
    }
  }

  // ----- removal from a store like the one an addition made

  /** Everything but the outputs is as before the addition, and under amount 0 there are as many outputs
      fewer as the rule for removing counts there. */
  lemma RemoveTransactionLike(s: Store, txHash: Hash, tx: Transaction, r: Store)
    requires Consistent(s) && AddTransaction(s, txHash, tx).Success? && Like(r, AddTransaction(s, txHash, tx).value)
    requires RemoveTransaction(r, txHash).Success?
    ensures txHash in r.txs && r.txs[txHash].tx == tx
    ensures Like(RemoveTransaction(r, txHash).value, s)
    ensures RctHeight(RemoveTransaction(r, txHash).value) + RemovedRct(tx) == RctHeight(r)
  {
    hide AddTransaction, RemoveTransaction, Consistent, Like, RctHeight, RemovedRct;
    AddedIsLike(s, txHash, tx, r);
    RowsRemovedLike(s, txHash, tx, r);
    RemoveTransactionRct(r, txHash);
  }

  /** A store like the one after an addition has its rows. */
  ghost predicate HasAdded(s: Store, txHash: Hash, tx: Transaction, r: Store) {
    var id := |s.txs|;
    && txHash in r.txs && r.txs[txHash].tx == tx && r.txs[txHash].id == id && r.txs - {txHash} == s.txs
    && r.spent - KeyImages(tx.vin) == s.spent && r.blocks == s.blocks && r.heights == s.heights
    && id in r.txOutputs && r.txOutputs.Keys - {id} == s.txOutputs.Keys
    && forall k :: k in s.txOutputs ==> |r.txOutputs[k]| == |s.txOutputs[k]|
  }

  lemma AddedIsLike(s: Store, txHash: Hash, tx: Transaction, r: Store)
    requires Consistent(s) && AddTransaction(s, txHash, tx).Success? && Like(r, AddTransaction(s, txHash, tx).value)
    ensures HasAdded(s, txHash, tx, r)
  {
    hide SpendInputs, AddOutputs, Numbered, KeyImages;
    SpendAll(s.spent, tx.vin);
    assert r.txs - {txHash} == s.txs;
  }

  lemma RowsRemovedLike(s: Store, txHash: Hash, tx: Transaction, r: Store)
    requires HasAdded(s, txHash, tx, r) && RemoveTransaction(r, txHash).Success?
    ensures txHash in r.txs && r.txs[txHash].tx == tx
    ensures Like(RemoveTransaction(r, txHash).value, s)
  {
    hide RemoveOutputs, KeyImages;
  }

  lemma RemoveTransactionRct(r: Store, txHash: Hash)
    requires txHash in r.txs && RemoveTransaction(r, txHash).Success?
    ensures RctHeight(RemoveTransaction(r, txHash).value) + RemovedRct(r.txs[txHash].tx) == RctHeight(r)
  {
    hide RemoveOutputs, KeyImages, Stack, CountRemoved;
    var row := r.txs[txHash];
    RemoveOutputsCount(r.outs, row.tx, r.txOutputs[row.id], |row.tx.vout|, 0);
  }

  lemma {:induction false} RemoveTransactionsLike(s: Store, hashes: seq<Hash>, txs: seq<Transaction>, n: nat, r: Store)
    requires Consistent(s) && n <= |txs| == |hashes|
    requires AddTransactions(s, hashes, txs, n).Success? && Like(r, AddTransactions(s, hashes, txs, n).value)
    requires RemoveTransactions(r, hashes, n).Success?
    ensures var p := RemoveTransactions(r, hashes, n).value;
            && p.txs == Reverse(txs[..n]) && Like(p.store, s)
            && RctHeight(p.store) + RemovedRctOfAll(txs[..n]) == RctHeight(r)
    decreases n
  {
    hide Consistent, Like, AddTransaction, RemoveTransaction, RctHeight, RemovedRct;
    if n > 0 {
      var before := AddTransactions(s, hashes, txs, n - 1).value;
      AddTransactionsConsistent(s, hashes, txs, n - 1);
      RemoveTransactionLike(before, hashes[n - 1], txs[n - 1], r);
      RemoveTransactionsLike(s, hashes, txs, n - 1, RemoveTransaction(r, hashes[n - 1]).value);
      assert Reverse(txs[..n]) == [txs[n - 1]] + Reverse(txs[..n - 1]);
      assert txs[..n][..n - 1] == txs[..n - 1];
    } else {
      assert Reverse(txs[..0]) == [];
    }
  }

  lemma RemoveBlockRowLike(s: Store, b: Block, numRct: nat, r: Store)
    requires AddBlockRow(s, b, numRct).Success? && Like(r, AddBlockRow(s, b, numRct).value)
    ensures r.blocks != [] && r.blocks[|r.blocks| - 1].block == b
    ensures RemoveBlockRow(r).Success? && Like(RemoveBlockRow(r).value, s) && RemoveBlockRow(r).value.outs == r.outs
  {
    hide AddBlockRow;
    RemoveAddedBlockRow(s, b, numRct);
    BlockRowsLike(r, AddBlockRow(s, b, numRct).value);
  }

  lemma BlockRowsLike(r: Store, t: Store)
    requires Like(r, t) && RemoveBlockRow(t).Success?
    ensures RemoveBlockRow(r).Success? && Like(RemoveBlockRow(r).value, RemoveBlockRow(t).value)
    ensures RemoveBlockRow(r).value.outs == r.outs
  {
  }

  /** A pop gives back the block added last, with its transactions in reverse order, and leaves a store
      like the one before, whatever the rules do to the outputs. */
  lemma PopLike(s: Store, b: Block, txs: seq<Transaction>, r: Store)
    requires Consistent(s) && AddBlock(s, b, txs).Success? && Like(r, AddBlock(s, b, txs).value)
    requires PopBlock(r).Success?
    ensures var p := PopBlock(r).value;
            && p.block == b && p.txs == Reverse(txs) && Like(p.store, s)
            && RctHeight(p.store) + BlockRemoved(b, txs) == RctHeight(r)
  {
    hide Consistent, Like, AddTransaction, AddTransactions, RemoveTransaction, RemoveTransactions, NumRctOuts,
         AddBlockRow,
         RemoveBlockRow, Reverse, RemovedRct, RemovedRctOfAll;
    AddTransactionConsistent(s, b.minerTx.hash, b.minerTx);
    var mined := AddTransaction(s, b.minerTx.hash, b.minerTx).value;
    var full := AddTransactions(mined, b.txHashes, txs, |txs|).value;
    RemoveBlockRowLike(full, b, NumRctOuts(b, txs), r);
    var r1 := RemoveBlockRow(r).value;
    RemoveTransactionsLike(mined, b.txHashes, txs, |txs|, r1);
    assert txs[..|txs|] == txs;
    RemoveTransactionLike(s, b.minerTx.hash, b.minerTx, RemoveTransactions(r1, b.txHashes, |txs|).value.store);
  }

  lemma LikeItself(s: Store)
    ensures Like(s, s)
  {
  }

  /** Popping the block just added undoes the addition exactly when the rules agree for all of its
      transactions. */
  lemma PopUndoesAddIff(s: Store, b: Block, txs: seq<Transaction>)
    requires Consistent(s)
    ensures var r := AddBlock(s, b, txs);
            r.Success? ==> (PopBlock(r.value) == Success(Popped(s, b, Reverse(txs)))
                         <==> RulesAgree(b.minerTx) && AllAgree(txs))
  {
    hide Consistent, Like, AddBlock, PopBlock, RulesAgree, AllAgree, Reverse, RctHeight, BlockStored, BlockRemoved;
    var r := AddBlock(s, b, txs);
    if r.Success? {
      BlockStoredAtLeastRemoved(b, txs);
      AddBlockRct(s, b, txs);
      LikeItself(r.value);
      if RulesAgree(b.minerTx) && AllAgree(txs) {
        PopUndoesAdd(s, b, txs);
      } else if PopBlock(r.value).Success? {
        PopLike(s, b, txs, r.value);
      }
    }
  }
}
