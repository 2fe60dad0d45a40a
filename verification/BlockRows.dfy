/**
 What is stored for a block: the row of every transaction, and of every output in both tables.
 */
module BlockRows {
  import opened BlockRuns
  import opened BlockStore
  import opened OutputStacks
  import opened Wrappers

  // ----- outputs

  /** A version 2 transaction with a miner input. */
  ghost predicate RctMiner(tx: Transaction) {
    tx.version == 2 && exists j :: 0 <= j < |tx.vin| && tx.vin[j] == Gen
  }

  /** Output i of a transaction has its entry at an index under its amount: all outputs of a version 2
      miner transaction are under amount 0, with a commitment to what they pay; other outputs of amount 0
      have the commitment of their transaction, and the rest have none. */
  ghost predicate OutputStored(o: Outs, txHash: Hash, tx: Transaction, height: nat, i: nat, index: nat)
    requires i < |tx.vout|
  {
    var out := tx.vout[i];
    var amount := if RctMiner(tx) then 0 else out.amount;
    && amount in o.byAmount && index < |o.byAmount[amount]|
    && EntryShows(o.byAmount[amount][index], tx, out, height, index, amount)
    && RowShows(o, o.byAmount[amount][index].outputId, txHash, i)
  }

  ghost predicate EntryShows(entry: OutKey, tx: Transaction, out: TxOut, height: nat, index: nat, amount: nat) {
    && out.key == Some(entry.key) && entry.unlockTime == tx.unlockTime && entry.height == height
    && entry.amountIndex == index
    && entry.commitment == if amount != 0 then None
                           else if RctMiner(tx) then Some(ZeroCommit(out.amount))
                           else Some(Mask(out.mask))
  }

  ghost predicate RowShows(o: Outs, id: nat, txHash: Hash, i: nat) {
    id < |o.all| && o.all[id] == OutTx(id, txHash, i)
  }

  /** Tables only grow at their ends. */
  ghost predicate OutsGrow(o: Outs, o': Outs) {
    && (forall a :: a in o.byAmount ==> a in o'.byAmount && o.byAmount[a] <= o'.byAmount[a])
    && o.all <= o'.all
  }

  lemma OutputKept(o: Outs, o': Outs, txHash: Hash, tx: Transaction, height: nat, i: nat, index: nat)
    requires i < |tx.vout| && OutsGrow(o, o') && OutputStored(o, txHash, tx, height, i, index)
    ensures OutputStored(o', txHash, tx, height, i, index)
  {
  }

  lemma OutsGrowTwice(a: Outs, b: Outs, c: Outs)
    requires OutsGrow(a, b) && OutsGrow(b, c)
    ensures OutsGrow(a, c)
  {
  }

  lemma NumberedCount(o: Outs)
    requires Numbered(o)
    ensures NumOutputs(o) == |o.all|
  {
  }

  lemma AddOutputGrows(o: Outs, txHash: Hash, amount: nat, key: Option<Key>, localIndex: nat, unlockTime: nat,
                       height: nat, commitment: Option<Commitment>)
    ensures var r := AddOutput(o, txHash, amount, key, localIndex, unlockTime, height, commitment);
            r.Success? ==> OutsGrow(o, r.value) && |r.value.all| == |o.all| + 1
  {
  }

  lemma OutputAdded(o: Outs, txHash: Hash, tx: Transaction, height: nat, i: nat)
    requires Numbered(o) && i < |tx.vout|
    ensures var amount := StoreAmount(tx, i);
            var r := AddOutput(o, txHash, amount, tx.vout[i].key, i, tx.unlockTime, height, CommitmentOf(tx, i));
            r.Success? ==> OutputStored(r.value, txHash, tx, height, i, |Stack(o, amount)|)
  {
    NumberedCount(o);
    assert RctMiner(tx) <==> StoredUnderZero(tx);
    hide Numbered, NumOutputs;
  }

  lemma {:induction false} OutputsAdded(o: Outs, txHash: Hash, tx: Transaction, height: nat, n: nat)
    requires Numbered(o) && n <= |tx.vout|
    ensures var r := AddOutputs(o, txHash, tx, height, n);
            r.Success? ==>
              && OutsGrow(o, r.value.outs) && |r.value.outs.all| == |o.all| + n
              && forall i :: 0 <= i < n ==> OutputStored(r.value.outs, txHash, tx, height, i, r.value.indices[i])
  {
    hide Numbered, AddOutput, CommitmentOf, StoreAmount, OutputStored, OutsGrow;
    var r := AddOutputs(o, txHash, tx, height, n);
    if n > 0 && r.Success? {
      OutputsAdded(o, txHash, tx, height, n - 1);
      AddOutputsNumbered(o, txHash, tx, height, n - 1);
      var before := AddOutputs(o, txHash, tx, height, n - 1).value;
      var key, c := tx.vout[n - 1].key, CommitmentOf(tx, n - 1);
      OutputAdded(before.outs, txHash, tx, height, n - 1);
      AddOutputGrows(before.outs, txHash, StoreAmount(tx, n - 1), key, n - 1, tx.unlockTime, height, c);
      OutsGrowTwice(o, before.outs, r.value.outs);
      forall i | 0 <= i < n
        ensures OutputStored(r.value.outs, txHash, tx, height, i, r.value.indices[i])
      {
        if i < n - 1 {
          OutputKept(before.outs, r.value.outs, txHash, tx, height, i, before.indices[i]);
        }
      }
    } else if n == 0 {
      GrowsItself(o);
    }
  }

  lemma GrowsItself(o: Outs)
    ensures OutsGrow(o, o)
  {
  }

  // ----- transactions

  /** A transaction has its row, its outputs are found by their indices, and its inputs are spent. */
  ghost predicate TxStored(s: Store, txHash: Hash, tx: Transaction, height: nat, id: nat) {
    && txHash in s.txs && s.txs[txHash] == TxRow(id, height, tx)
    && id in s.txOutputs && |s.txOutputs[id]| == |tx.vout|
    && (forall i :: 0 <= i < |tx.vout| ==> OutputStored(s.outs, txHash, tx, height, i, s.txOutputs[id][i]))
    && forall i :: 0 <= i < |tx.vin| && tx.vin[i].ToKey? ==> tx.vin[i].keyImage in s.spent
  }

  /** Everything stored stays. */
  ghost predicate StoreGrows(s: Store, t: Store) {
    && OutsGrow(s.outs, t.outs) && s.spent <= t.spent
    && (forall h :: h in s.txs ==> h in t.txs && t.txs[h] == s.txs[h])
    && (forall id :: id in s.txOutputs ==> id in t.txOutputs && t.txOutputs[id] == s.txOutputs[id])
    && s.blocks <= t.blocks && forall h :: h in s.heights ==> h in t.heights && t.heights[h] == s.heights[h]
  }

  lemma TxKept(s: Store, t: Store, txHash: Hash, tx: Transaction, height: nat, id: nat)
    requires StoreGrows(s, t) && TxStored(s, txHash, tx, height, id)
    ensures TxStored(t, txHash, tx, height, id)
  {
    hide OutputStored, OutsGrow;
    forall i | 0 <= i < |tx.vout|
      ensures OutputStored(t.outs, txHash, tx, height, i, t.txOutputs[id][i])
    {
      OutputKept(s.outs, t.outs, txHash, tx, height, i, s.txOutputs[id][i]);
    }
  }

  lemma StoreGrowsTwice(a: Store, b: Store, c: Store)
    requires StoreGrows(a, b) && StoreGrows(b, c)
    ensures StoreGrows(a, c)
  {
    hide OutsGrow;
    OutsGrowTwice(a.outs, b.outs, c.outs);
  }

  lemma StoreGrowsItself(s: Store)
    ensures StoreGrows(s, s)
  {
  }

  /** Adding a transaction stores all of it, under the next number, and touches nothing else. */
  lemma TransactionStored(s: Store, txHash: Hash, tx: Transaction)
    requires Consistent(s)
    ensures var r := AddTransaction(s, txHash, tx);
            r.Success? ==>
              && StoreGrows(s, r.value) && TxStored(r.value, txHash, tx, |s.blocks|, |s.txs|)
              && |r.value.txs| == |s.txs| + 1 && |r.value.outs.all| == |s.outs.all| + |tx.vout|
              && r.value.blocks == s.blocks && r.value.heights == s.heights
  {
    hide SpendInputs, AddOutputs, OutputStored, OutsGrow, Numbered, KeyImages;
    if AddTransaction(s, txHash, tx).Success? {
      OutputsAdded(s.outs, txHash, tx, |s.blocks|, |tx.vout|);
      SpendAll(s.spent, tx.vin);
      InputsMarked(tx.vin);
    }
  }

  lemma InputsMarked(vin: seq<TxIn>)
    ensures forall i :: 0 <= i < |vin| && vin[i].ToKey? ==> vin[i].keyImage in KeyImages(vin)
  {
  }

  lemma {:induction false} TransactionsStored(s: Store, hashes: seq<Hash>, txs: seq<Transaction>, n: nat)
    requires Consistent(s) && n <= |txs| == |hashes|
    ensures var r := AddTransactions(s, hashes, txs, n);
            r.Success? ==>
              && StoreGrows(s, r.value) && |r.value.txs| == |s.txs| + n
              && |r.value.outs.all| == |s.outs.all| + OutputsOf(txs[..n])
              && r.value.blocks == s.blocks && r.value.heights == s.heights
              && forall k :: 0 <= k < n ==> TxStored(r.value, hashes[k], txs[k], |s.blocks|, |s.txs| + k)
  {
    hide Consistent, AddTransaction, StoreGrows, TxStored;
    var r := AddTransactions(s, hashes, txs, n);
    if n > 0 && r.Success? {
      TransactionsStored(s, hashes, txs, n - 1);
      AddTransactionsConsistent(s, hashes, txs, n - 1);
      var before := AddTransactions(s, hashes, txs, n - 1).value;
      TransactionStored(before, hashes[n - 1], txs[n - 1]);
      StoreGrowsTwice(s, before, r.value);
      assert txs[..n][..n - 1] == txs[..n - 1];
      forall k | 0 <= k < n
        ensures TxStored(r.value, hashes[k], txs[k], |s.blocks|, |s.txs| + k)
      {
        if k < n - 1 {
          TxKept(before, r.value, hashes[k], txs[k], |s.blocks|, |s.txs| + k);
        }
      }
    } else if n == 0 {
      StoreGrowsItself(s);
    }
  }

  function OutputsOf(txs: seq<Transaction>): nat {
    if txs == [] then 0 else OutputsOf(txs[..|txs| - 1]) + |txs[|txs| - 1].vout|
  }

  // ----- blocks

  /** A block is stored with all its transactions at its height: the miner transaction first, then the
      others in order, numbered one after the other. */
  ghost predicate BlockStoredAt(s: Store, b: Block, txs: seq<Transaction>, height: nat, id: nat) {
    && |b.txHashes| == |txs|
    && height < |s.blocks| && s.blocks[height].block == b && s.blocks[height].hash == b.hash
    && b.hash in s.heights && s.heights[b.hash] == height
    && TxStored(s, b.minerTx.hash, b.minerTx, height, id)
    && forall k :: 0 <= k < |txs| ==> TxStored(s, b.txHashes[k], txs[k], height, id + 1 + k)
  }

  lemma BlockRowStored(s: Store, b: Block, numRct: nat)
    requires Consistent(s)
    ensures var r := AddBlockRow(s, b, numRct);
            r.Success? ==>
              && StoreGrows(s, r.value) && r.value.txs == s.txs && r.value.outs == s.outs
              && |r.value.blocks| == |s.blocks| + 1
              && r.value.blocks[|s.blocks|].block == b && r.value.blocks[|s.blocks|].hash == b.hash
              && b.hash in r.value.heights && r.value.heights[b.hash] == |s.blocks|
  {
    hide Numbered;
  }

  /** Adding a block stores all of it on top, and touches nothing else. */
  lemma BlockIsStored(s: Store, b: Block, txs: seq<Transaction>)
    requires Consistent(s)
    ensures var r := AddBlock(s, b, txs);
            r.Success? ==>
              && StoreGrows(s, r.value) && BlockStoredAt(r.value, b, txs, |s.blocks|, |s.txs|)
              && |r.value.blocks| == |s.blocks| + 1 && |r.value.txs| == |s.txs| + 1 + |txs|
              && |r.value.outs.all| == |s.outs.all| + |b.minerTx.vout| + OutputsOf(txs)
  {
    hide Consistent, AddTransaction, AddTransactions, AddBlockRow, NumRctOuts, StoreGrows, TxStored;
    var r := AddBlock(s, b, txs);
    if r.Success? {
      var mined := AddTransaction(s, b.minerTx.hash, b.minerTx).value;
      var full := AddTransactions(mined, b.txHashes, txs, |txs|).value;
      TransactionStored(s, b.minerTx.hash, b.minerTx);
      AddTransactionConsistent(s, b.minerTx.hash, b.minerTx);
      TransactionsStored(mined, b.txHashes, txs, |txs|);
      AddTransactionsConsistent(mined, b.txHashes, txs, |txs|);
      assert txs[..|txs|] == txs;
      BlockRowStored(full, b, NumRctOuts(b, txs));
      StoreGrowsTwice(mined, full, r.value);
      StoreGrowsTwice(s, mined, r.value);
      TxKept(mined, r.value, b.minerTx.hash, b.minerTx, |s.blocks|, |s.txs|);
      forall k | 0 <= k < |txs|
        ensures TxStored(r.value, b.txHashes[k], txs[k], |s.blocks|, |s.txs| + 1 + k)
      {
        TxKept(full, r.value, b.txHashes[k], txs[k], |s.blocks|, |mined.txs| + k);
      }
    }
  }

  // ----- chains

  function TxCount(chain: seq<Entry>): nat {
    if chain == [] then 0 else TxCount(chain[..|chain| - 1]) + 1 + |chain[|chain| - 1].txs|
  }

  function OutputCount(chain: seq<Entry>): nat {
    if chain == [] then 0 else
    var e := chain[|chain| - 1];
    OutputCount(chain[..|chain| - 1]) + |e.block.minerTx.vout| + OutputsOf(e.txs)
  }

  lemma BlockKept(s: Store, t: Store, b: Block, txs: seq<Transaction>, height: nat, id: nat)
    requires StoreGrows(s, t) && BlockStoredAt(s, b, txs, height, id)
    ensures BlockStoredAt(t, b, txs, height, id)
  {
    hide TxStored, OutsGrow;
    TxKept(s, t, b.minerTx.hash, b.minerTx, height, id);
    forall k | 0 <= k < |txs|
      ensures TxStored(t, b.txHashes[k], txs[k], height, id + 1 + k)
    {
      TxKept(s, t, b.txHashes[k], txs[k], height, id + 1 + k);
    }
  }

  /** After any additions every block is stored at its place in the chain, with all its transactions and
      outputs, and there are no others. */
  lemma {:induction false} ChainIsStored(chain: seq<Entry>)
    requires Grow(chain).Success?
    ensures |Grow(chain).value.blocks| == |chain| && |Grow(chain).value.txs| == TxCount(chain)
    ensures |Grow(chain).value.outs.all| == OutputCount(chain)
    ensures forall h :: 0 <= h < |chain| ==>
              BlockStoredAt(Grow(chain).value, chain[h].block, chain[h].txs, h, TxCount(chain[..h]))
  {
    hide AddBlock, BlockStoredAt, StoreGrows, Consistent;
    if chain != [] {
      var before, e := chain[..|chain| - 1], chain[|chain| - 1];
      ChainIsStored(before);
      GrowConsistent(before);
      BlockIsStored(Grow(before).value, e.block, e.txs);
      forall h | 0 <= h < |chain|
        ensures BlockStoredAt(Grow(chain).value, chain[h].block, chain[h].txs, h, TxCount(chain[..h]))
      {
        assert chain[..h] == before[..h];
        assert before[..|before|] == before;
        if h < |before| {
          BlockKept(Grow(before).value, Grow(chain).value, chain[h].block, chain[h].txs, h, TxCount(chain[..h]));
        }
      }
    }
  }
}
