/**
 The block store as a value: what adding and popping a block do to it.
 */
module BlockStore {
  import opened OutputStacks
  import opened Wrappers

  datatype TxRow = TxRow(id: nat, height: nat, tx: Transaction)

  datatype Block = Block(hash: Hash, prevId: Hash, majorVersion: nat, minerTx: Transaction, txHashes: seq<Hash>)

  datatype BlockRow = BlockRow(block: Block, hash: Hash, cumulativeRct: nat)

  datatype Store = Store(spent: set<KeyImage>, txs: map<Hash, TxRow>, txOutputs: map<nat, seq<nat>>, outs: Outs,
                         blocks: seq<BlockRow>, heights: map<Hash, nat>)

  const EMPTY_STORE := Store({}, map[], map[], Outs(map[], []), [], map[])

  // ----- one transaction

  /** Marks the key images of the first n inputs as spent. */
  function SpendInputs(spent: set<KeyImage>, vin: seq<TxIn>, n: nat): Result<set<KeyImage>, DbError>
    requires n <= |vin|
  {
    if n == 0 then Success(spent) else
    match SpendInputs(spent, vin, n - 1)
    case Failure(e) => Failure(e)
    case Success(before) =>
      match vin[n - 1]
      case ToKey(k) => if k in before then Failure(KeyImageExists) else Success(before + {k})
      case Gen => Success(before)
      case OtherIn => Failure(UnexpectedInput)
  }

  function KeyImages(vin: seq<TxIn>): set<KeyImage> {
    set i | 0 <= i < |vin| && vin[i].ToKey? :: vin[i].keyImage
  }

  function AddTransaction(s: Store, txHash: Hash, tx: Transaction): Result<Store, DbError> {
    match SpendInputs(s.spent, tx.vin, |tx.vin|)
    case Failure(e) => Failure(e)
    case Success(spent) =>
      if txHash in s.txs then Failure(TxExists) else
      var id := |s.txs|;
      match AddOutputs(s.outs, txHash, tx, |s.blocks|, |tx.vout|)
      case Failure(e) => Failure(e)
      case Success(added) =>
        Success(s.(spent := spent, txs := s.txs[txHash := TxRow(id, |s.blocks|, tx)], outs := added.outs,
                   txOutputs := s.txOutputs[id := added.indices]))
  }

  /** Removes the outputs and the rows of a transaction, given what it is. */
  function RemoveTransactionData(s: Store, txHash: Hash, tx: Transaction): Result<Store, DbError> {
    if txHash !in s.txs then Failure(TxMissing) else
    var id := s.txs[txHash].id;
    if id !in s.txOutputs || |s.txOutputs[id]| < |tx.vout| then Failure(NoIndices) else
    match RemoveOutputs(s.outs, tx, s.txOutputs[id], |tx.vout|)
    case Failure(e) => Failure(e)
    case Success(outs) => Success(s.(txs := s.txs - {txHash}, outs := outs, txOutputs := s.txOutputs - {id}))
  }

  function RemoveTransaction(s: Store, txHash: Hash): Result<Store, DbError> {
    if txHash !in s.txs then Failure(TxMissing) else
    var tx := s.txs[txHash].tx;
    RemoveTransactionData(s.(spent := s.spent - KeyImages(tx.vin)), txHash, tx)
  }

  /** Transactions are numbered below their count, outputs by their places, and the blocks are indexed by hash. */
  ghost predicate Consistent(s: Store) {
    && Numbered(s.outs)
    && (forall id :: id in s.txOutputs ==> id < |s.txs|)
    && (forall i :: 0 <= i < |s.blocks| ==> s.blocks[i].hash in s.heights && s.heights[s.blocks[i].hash] == i)
    && forall h :: h in s.heights ==> s.heights[h] < |s.blocks| && s.blocks[s.heights[h]].hash == h
  }

  lemma {:induction false} SpendInputsAdds(spent: set<KeyImage>, vin: seq<TxIn>, n: nat)
    requires n <= |vin|
    ensures var r := SpendInputs(spent, vin, n);
            r.Success? ==> r.value == spent + KeyImages(vin[..n]) && spent !! KeyImages(vin[..n])
  {
    if n > 0 {
      SpendInputsAdds(spent, vin, n - 1);
      assert vin[..n] == vin[..n - 1] + [vin[n - 1]];
      KeyImagesNext(vin[..n - 1], vin[n - 1]);
    }
  }

  lemma KeyImagesNext(vin: seq<TxIn>, last: TxIn)
    ensures KeyImages(vin + [last]) == KeyImages(vin) + if last.ToKey? then {last.keyImage} else {}
  {
    var longer := vin + [last];
    forall k | k in KeyImages(vin)
      ensures k in KeyImages(longer)
    {
      var i :| 0 <= i < |vin| && vin[i].ToKey? && vin[i].keyImage == k;
      assert longer[i] == vin[i];
    }
    if last.ToKey? {
      assert longer[|vin|].ToKey? && longer[|vin|].keyImage == last.keyImage;
    }
  }

  lemma SpendAll(spent: set<KeyImage>, vin: seq<TxIn>)
    ensures var r := SpendInputs(spent, vin, |vin|);
            r.Success? ==>
              r.value == spent + KeyImages(vin) && spent !! KeyImages(vin) && r.value - KeyImages(vin) == spent
  {
    SpendInputsAdds(spent, vin, |vin|);
    assert vin[..|vin|] == vin;
  }

  lemma AddTransactionConsistent(s: Store, txHash: Hash, tx: Transaction)
    requires Consistent(s)
    ensures var r := AddTransaction(s, txHash, tx);
            r.Success? ==> Consistent(r.value) && r.value.blocks == s.blocks && r.value.heights == s.heights
  {
    hide SpendInputs, AddOutputs, Numbered;
    AddOutputsNumbered(s.outs, txHash, tx, |s.blocks|, |tx.vout|);
  }

  function WithOuts(s: Store, r: Result<Outs, DbError>): Result<Store, DbError> {
    match r
    case Failure(e) => Failure(e)
    case Success(outs) => Success(s.(outs := outs))
  }

  /** Removing the transaction just added undoes all of it but for its outputs. */
  lemma RemoveOfAdded(s: Store, txHash: Hash, tx: Transaction)
    requires Consistent(s)
    ensures var r := AddTransaction(s, txHash, tx); var added := AddOutputs(s.outs, txHash, tx, |s.blocks|, |tx.vout|);
            r.Success? ==>
              && added.Success?
              && RemoveTransaction(r.value, txHash)
                 == WithOuts(s, RemoveOutputs(added.value.outs, tx, added.value.indices, |tx.vout|))
  {
    hide SpendInputs, AddOutputs, RemoveOutputs, Numbered, KeyImages;
    if AddTransaction(s, txHash, tx).Success? {
      SpendAll(s.spent, tx.vin);
      var added := AddOutputs(s.outs, txHash, tx, |s.blocks|, |tx.vout|).value;
      RemoveOfStored(s.(outs := added.outs), txHash, tx, SpendInputs(s.spent, tx.vin, |tx.vin|).value, added.indices);
    }
  }

  /** The same, where the outputs are stored already. */
  lemma RemoveOfStored(s: Store, txHash: Hash, tx: Transaction, spent: set<KeyImage>, indices: seq<nat>)
    requires txHash !in s.txs && |s.txs| !in s.txOutputs && spent - KeyImages(tx.vin) == s.spent
           && |indices| == |tx.vout|
    ensures var id := |s.txs|;
            var r := s.(spent := spent, txs := s.txs[txHash := TxRow(id, |s.blocks|, tx)],
                      txOutputs := s.txOutputs[id := indices]);
            RemoveTransaction(r, txHash) == WithOuts(s, RemoveOutputs(s.outs, tx, indices, |tx.vout|))
  {
    hide RemoveOutputs, KeyImages;
    var id := |s.txs|;
    assert s.txs[txHash := TxRow(id, |s.blocks|, tx)] - {txHash} == s.txs;
    assert s.txOutputs[id := indices] - {id} == s.txOutputs;
  }

  /** Removing the transaction just added restores the store exactly when the two rules for the
      amounts of its outputs agree. */
  lemma RemoveUndoesAddIff(s: Store, txHash: Hash, tx: Transaction)
    requires Consistent(s)
    ensures var r := AddTransaction(s, txHash, tx);
            r.Success? ==> (RemoveTransaction(r.value, txHash) == Success(s) <==> RulesAgree(tx))
  {
    hide AddTransaction, RemoveTransaction, AddOutputs, RemoveOutputs, Numbered, RulesAgree;
    if AddTransaction(s, txHash, tx).Success? {
      RemoveOfAdded(s, txHash, tx);
      OutputsRestoredIff(s.outs, txHash, tx, |s.blocks|);
    }
  }

  /** A transaction that can be added and then not removed: it has two miner inputs, so its output is
      stored under amount 0 and looked for under amount 5. */
  lemma RulesCanDisagree(tx: Transaction)
    requires tx == Transaction(1, 2, 0, [Gen, Gen], [TxOut(5, Some(7), 0)])
    ensures AddTransaction(EMPTY_STORE, 1, tx).Success?
    ensures RemoveTransaction(AddTransaction(EMPTY_STORE, 1, tx).value, 1) == Failure(OutputMissing)
  {
    assert tx.vin[0].Gen?;
  }

  // ----- one block

  function AddTransactions(s: Store, hashes: seq<Hash>, txs: seq<Transaction>, n: nat): Result<Store, DbError>
    requires n <= |txs| == |hashes|
  {
    if n == 0 then Success(s) else
    match AddTransactions(s, hashes, txs, n - 1)
    case Failure(e) => Failure(e)
    case Success(before) => AddTransaction(before, hashes[n - 1], txs[n - 1])
  }

  function ZeroAmounts(vout: seq<TxOut>): nat {
    if vout == [] then 0 else ZeroAmounts(vout[..|vout| - 1]) + if vout[|vout| - 1].amount == 0 then 1 else 0
  }

  function ZeroAmountsOfAll(txs: seq<Transaction>): nat {
    if txs == [] then 0 else ZeroAmountsOfAll(txs[..|txs| - 1]) + ZeroAmounts(txs[|txs| - 1].vout)
  }

  /** The number of RingCT outputs of a block, as it is counted when the block is added. */
  function NumRctOuts(b: Block, txs: seq<Transaction>): nat {
    (if b.minerTx.version == 2 then |b.minerTx.vout| else 0) + ZeroAmountsOfAll(txs)
  }

  function AddBlockRow(s: Store, b: Block, numRct: nat): Result<Store, DbError> {
    var height := |s.blocks|;
    if b.hash in s.heights then Failure(BlockExists)
    else if height > 0 && b.prevId !in s.heights then Failure(ParentUnknown)
    else if height > 0 && s.heights[b.prevId] != height - 1 then Failure(ParentNotTop)
    else if b.majorVersion >= 4 && height == 0 then Failure(NoBlockInfo)
    else
      var cumulative := numRct + if b.majorVersion >= 4 then s.blocks[height - 1].cumulativeRct else 0;
      Success(s.(blocks := s.blocks + [BlockRow(b, b.hash, cumulative)], heights := s.heights[b.hash := height]))
  }

  function AddBlock(s: Store, b: Block, txs: seq<Transaction>): Result<Store, DbError> {
    if |b.txHashes| != |txs| then Failure(WrongHashes) else
    match AddTransaction(s, b.minerTx.hash, b.minerTx)
    case Failure(e) => Failure(e)
    case Success(mined) =>
      match AddTransactions(mined, b.txHashes, txs, |txs|)
      case Failure(e) => Failure(e)
      case Success(full) => AddBlockRow(full, b, NumRctOuts(b, txs))
  }

  function RemoveBlockRow(s: Store): Result<Store, DbError> {
    if s.blocks == [] then Failure(NoBlock) else
    var row := s.blocks[|s.blocks| - 1];
    if row.hash !in s.heights then Failure(NoBlock)
    else Success(s.(blocks := s.blocks[..|s.blocks| - 1], heights := s.heights - {row.hash}))
  }

  datatype Removed = Removed(store: Store, txs: seq<Transaction>)

  /** Removes the first n of the transactions, the last of them first, and gives them in that order. */
  function RemoveTransactions(s: Store, hashes: seq<Hash>, n: nat): Result<Removed, DbError>
    requires n <= |hashes|
    decreases n
  {
    if n == 0 then Success(Removed(s, []))
    else if hashes[n - 1] !in s.txs then Failure(TxMissing)
    else
      var tx := s.txs[hashes[n - 1]].tx;
      match RemoveTransaction(s, hashes[n - 1])
      case Failure(e) => Failure(e)
      case Success(s') =>
        match RemoveTransactions(s', hashes, n - 1)
        case Failure(e) => Failure(e)
        case Success(rest) => Success(Removed(rest.store, [tx] + rest.txs))
  }

  datatype Popped = Popped(store: Store, block: Block, txs: seq<Transaction>)

  function PopBlock(s: Store): Result<Popped, DbError> {
    match RemoveBlockRow(s)
    case Failure(e) => Failure(e)
    case Success(s1) =>
      var b := s.blocks[|s.blocks| - 1].block;
      match RemoveTransactions(s1, b.txHashes, |b.txHashes|)
      case Failure(e) => Failure(e)
      case Success(r) =>
        match RemoveTransaction(r.store, b.minerTx.hash)
        case Failure(e) => Failure(e)
        case Success(s2) => Success(Popped(s2, b, r.txs))
  }

  // ----- pop undoes add

  function Reverse<T>(s: seq<T>): (r: seq<T>)
    ensures |r| == |s| && forall i :: 0 <= i < |s| ==> r[i] == s[|s| - 1 - i]
  {
    seq(|s|, i requires 0 <= i < |s| => s[|s| - 1 - i])
  }

  ghost predicate AllAgree(txs: seq<Transaction>) {
    forall i :: 0 <= i < |txs| ==> RulesAgree(txs[i])
  }

  lemma {:induction false} AddTransactionsConsistent(s: Store, hashes: seq<Hash>, txs: seq<Transaction>, n: nat)
    requires Consistent(s) && n <= |txs| == |hashes|
    ensures var r := AddTransactions(s, hashes, txs, n);
            r.Success? ==> Consistent(r.value) && r.value.blocks == s.blocks && r.value.heights == s.heights
  {
    hide Consistent, AddTransaction;
    if n > 0 {
      AddTransactionsConsistent(s, hashes, txs, n - 1);
      var r := AddTransactions(s, hashes, txs, n - 1);
      if r.Success? {
        AddTransactionConsistent(r.value, hashes[n - 1], txs[n - 1]);
      }
    }
  }

  lemma AddedIsStored(s: Store, txHash: Hash, tx: Transaction)
    ensures var r := AddTransaction(s, txHash, tx); r.Success? ==> txHash in r.value.txs && r.value.txs[txHash].tx == tx
  {
    hide SpendInputs, AddOutputs;
  }

  lemma {:induction false} RemoveAddedTransactions(s: Store, hashes: seq<Hash>, txs: seq<Transaction>, n: nat)
    requires Consistent(s) && n <= |txs| == |hashes| && AllAgree(txs)
    ensures var r := AddTransactions(s, hashes, txs, n);
            r.Success? ==> RemoveTransactions(r.value, hashes, n) == Success(Removed(s, Reverse(txs[..n])))
  {
    hide Consistent, AddTransaction, RemoveTransaction, RulesAgree;
    if n > 0 {
      var before := AddTransactions(s, hashes, txs, n - 1);
      if before.Success? {
        AddTransactionsConsistent(s, hashes, txs, n - 1);
        RemoveUndoesAddIff(before.value, hashes[n - 1], txs[n - 1]);
        AddedIsStored(before.value, hashes[n - 1], txs[n - 1]);
        RemoveAddedTransactions(s, hashes, txs, n - 1);
        assert Reverse(txs[..n]) == [txs[n - 1]] + Reverse(txs[..n - 1]);
      }
    }
  }

  lemma AddBlockRowConsistent(s: Store, b: Block, numRct: nat)
    requires Consistent(s)
    ensures var r := AddBlockRow(s, b, numRct); r.Success? ==> Consistent(r.value)
  {
    hide Numbered;
  }

  lemma RemoveAddedBlockRow(s: Store, b: Block, numRct: nat)
    ensures var r := AddBlockRow(s, b, numRct);
            r.Success? ==>
              && |r.value.blocks| == |s.blocks| + 1 && r.value.blocks[|s.blocks|].block == b
              && RemoveBlockRow(r.value) == Success(s)
  {
    var r := AddBlockRow(s, b, numRct);
    if r.Success? {
      assert r.value.blocks[..|s.blocks|] == s.blocks;
      assert r.value.heights - {b.hash} == s.heights;
    }
  }

  lemma AddBlockConsistent(s: Store, b: Block, txs: seq<Transaction>)
    requires Consistent(s)
    ensures var r := AddBlock(s, b, txs); r.Success? ==> Consistent(r.value) && |r.value.blocks| == |s.blocks| + 1
  {
    hide Consistent, AddTransaction, AddTransactions, NumRctOuts, AddBlockRow;
    if AddBlock(s, b, txs).Success? {
      AddTransactionConsistent(s, b.minerTx.hash, b.minerTx);
      var mined := AddTransaction(s, b.minerTx.hash, b.minerTx).value;
      AddTransactionsConsistent(mined, b.txHashes, txs, |txs|);
      var full := AddTransactions(mined, b.txHashes, txs, |txs|).value;
      AddBlockRowConsistent(full, b, NumRctOuts(b, txs));
      RemoveAddedBlockRow(full, b, NumRctOuts(b, txs));
    }
  }

  /** Popping the block just added gives it back with its transactions in reverse order, and the store
      is what it was. */
  lemma PopUndoesAdd(s: Store, b: Block, txs: seq<Transaction>)
    requires Consistent(s) && RulesAgree(b.minerTx) && AllAgree(txs)
    ensures var r := AddBlock(s, b, txs); r.Success? ==> PopBlock(r.value) == Success(Popped(s, b, Reverse(txs)))
  {
    hide Consistent, AddTransaction, AddTransactions, RemoveTransaction, RemoveTransactions, NumRctOuts, AddBlockRow,
        RemoveBlockRow, RulesAgree, AllAgree, Reverse;
    if AddBlock(s, b, txs).Success? {
      AddTransactionConsistent(s, b.minerTx.hash, b.minerTx);
      var mined := AddTransaction(s, b.minerTx.hash, b.minerTx).value;
      RemoveAddedTransactions(mined, b.txHashes, txs, |txs|);
      assert txs[..|txs|] == txs;
      var full := AddTransactions(mined, b.txHashes, txs, |txs|).value;
      RemoveAddedBlockRow(full, b, NumRctOuts(b, txs));
      RemoveUndoesAddIff(s, b.minerTx.hash, b.minerTx);
    }
  }
}
