/**
 What the error of a block that cannot be added says.
 */
module BlockErrors {
  import opened BlockAddable
  import opened BlockStore
  import opened OutputStacks
  import opened Wrappers

  /** What is wrong with a transaction that cannot be added. */
  ghost predicate TransactionFault(s: Store, txHash: Hash, tx: Transaction, e: DbError) {
    match e
    case KeyImageExists => !Fresh(s.spent, Images(tx.vin, |tx.vin|))
    case UnexpectedInput => exists i :: 0 <= i < |tx.vin| && tx.vin[i] == OtherIn
    case TxExists => txHash in s.txs
    case NoPublicKey => exists i :: 0 <= i < |tx.vout| && tx.vout[i].key == None
    case NoCommitment => tx.version == 1 && exists i :: 0 <= i < |tx.vout| && tx.vout[i].amount == 0
    case _ => false
  }

  lemma {:induction false} SpendFault(spent: set<KeyImage>, vin: seq<TxIn>, n: nat)
    requires n <= |vin|
    ensures var r := SpendInputs(spent, vin, n);
            r.Failure? ==>
              || (r.error == KeyImageExists && !Fresh(spent, Images(vin, n)))
              || (r.error == UnexpectedInput && exists i :: 0 <= i < n && vin[i] == OtherIn)
  {
    hide Fresh;
    if n > 0 {
      SpendFault(spent, vin, n - 1);
      SpendIff(spent, vin, n - 1);
      SpendIff(spent, vin, n);
      if SpendInputs(spent, vin, n - 1).Failure? && !Fresh(spent, Images(vin, n - 1)) {
        ImagesStale(spent, vin, n);
      }
    }
  }

  lemma ImagesStale(spent: set<KeyImage>, vin: seq<TxIn>, n: nat)
    requires 0 < n <= |vin| && !Fresh(spent, Images(vin, n - 1))
    ensures !Fresh(spent, Images(vin, n))
  {
    hide Fresh;
    var last := if vin[n - 1].ToKey? then [vin[n - 1].keyImage] else [];
    FreshConcat(spent, Images(vin, n - 1), last);
  }

  lemma {:induction false} OutputsFault(o: Outs, txHash: Hash, tx: Transaction, height: nat, n: nat)
    requires n <= |tx.vout|
    ensures var r := AddOutputs(o, txHash, tx, height, n);
            r.Failure? ==>
              || (r.error == NoPublicKey && exists i :: 0 <= i < n && tx.vout[i].key == None)
              || (r.error == NoCommitment && tx.version == 1 && exists i :: 0 <= i < n && tx.vout[i].amount == 0)
  {
    hide Stack, HasGen;
    if n > 0 {
      OutputsFault(o, txHash, tx, height, n - 1);
    }
  }

  lemma TransactionError(s: Store, txHash: Hash, tx: Transaction)
    ensures var r := AddTransaction(s, txHash, tx); r.Failure? ==> TransactionFault(s, txHash, tx, r.error)
  {
    hide SpendInputs, AddOutputs, Fresh;
    SpendFault(s.spent, tx.vin, |tx.vin|);
    OutputsFault(s.outs, txHash, tx, |s.blocks|, |tx.vout|);
  }

  /** Some transaction is at fault when it comes to it. */
  ghost predicate SomeFault(s: Store, hashes: seq<Hash>, txs: seq<Transaction>, n: nat, e: DbError)
    requires n <= |txs| == |hashes|
  {
    exists k :: 0 <= k < n && AddTransactions(s, hashes, txs, k).Success? &&
                TransactionFault(AddTransactions(s, hashes, txs, k).value, hashes[k], txs[k], e)
  }

  lemma {:induction false} TransactionsError(s: Store, hashes: seq<Hash>, txs: seq<Transaction>, n: nat)
    requires n <= |txs| == |hashes|
    ensures var r := AddTransactions(s, hashes, txs, n); r.Failure? ==> SomeFault(s, hashes, txs, n, r.error)
  {
    hide AddTransaction, TransactionFault;
    if n > 0 {
      TransactionsError(s, hashes, txs, n - 1);
      var before := AddTransactions(s, hashes, txs, n - 1);
      if before.Success? {
        TransactionError(before.value, hashes[n - 1], txs[n - 1]);
      }
    }
  }

  /** What is wrong with the place of a block. */
  ghost predicate PlaceFault(s: Store, b: Block, e: DbError) {
    match e
    case BlockExists => exists i :: 0 <= i < |s.blocks| && s.blocks[i].hash == b.hash
    case ParentUnknown => s.blocks != [] && forall i :: 0 <= i < |s.blocks| ==> s.blocks[i].hash != b.prevId
    case ParentNotTop => exists i :: 0 <= i < |s.blocks| - 1 && s.blocks[i].hash == b.prevId
    case NoBlockInfo => s.blocks == [] && b.majorVersion >= 4
    case _ => false
  }

  lemma PlaceError(s: Store, b: Block, numRct: nat)
    requires Consistent(s)
    ensures var r := AddBlockRow(s, b, numRct); r.Failure? ==> PlaceFault(s, b, r.error)
  {
    hide Numbered;
    if b.hash in s.heights {
      assert s.blocks[s.heights[b.hash]].hash == b.hash;
    } else if s.blocks != [] && b.prevId in s.heights {
      assert s.blocks[s.heights[b.prevId]].hash == b.prevId;
    }
  }

  /** The error says what is wrong: with the list of hashes, with the miner transaction, with one of the
      others after those before it, or with the place of the block after all of them. */
  ghost predicate BlockFault(s: Store, b: Block, txs: seq<Transaction>, e: DbError) {
    if |b.txHashes| != |txs| then e == WrongHashes
    else
      || TransactionFault(s, b.minerTx.hash, b.minerTx, e)
      || (AddTransaction(s, b.minerTx.hash, b.minerTx).Success? &&
          SomeFault(AddTransaction(s, b.minerTx.hash, b.minerTx).value, b.txHashes, txs, |txs|, e))
      || PlaceFault(s, b, e)
  }

  lemma BlockError(s: Store, b: Block, txs: seq<Transaction>)
    requires Consistent(s)
    ensures var r := AddBlock(s, b, txs); r.Failure? ==> BlockFault(s, b, txs, r.error)
  {
    hide Consistent, AddTransaction, AddTransactions, AddBlockRow, NumRctOuts, TransactionFault, SomeFault, PlaceFault;
    if |b.txHashes| == |txs| {
      TransactionError(s, b.minerTx.hash, b.minerTx);
      var mined := AddTransaction(s, b.minerTx.hash, b.minerTx);
      if mined.Success? {
        AddTransactionConsistent(s, b.minerTx.hash, b.minerTx);
        TransactionsError(mined.value, b.txHashes, txs, |txs|);
        var full := AddTransactions(mined.value, b.txHashes, txs, |txs|);
        if full.Success? {
          AddTransactionsConsistent(mined.value, b.txHashes, txs, |txs|);
          PlaceError(full.value, b, NumRctOuts(b, txs));
          SamePlace(full.value, s, b);
        }
      }
    }
  }

  lemma SamePlace(s: Store, t: Store, b: Block)
    requires s.blocks == t.blocks
    ensures forall e :: PlaceFault(s, b, e) <==> PlaceFault(t, b, e)
  {
  }
}
