/**
 The block store as an object, changed step by step.
 */
module BlockchainDb {
  import opened BlockRuns
  import opened BlockStore
  import opened OutputStacks
  import opened Wrappers

  // ----- the first step that fails decides

  lemma {:induction false} SpendInputsFails(spent: set<KeyImage>, vin: seq<TxIn>, i: nat, n: nat)
    requires i <= n <= |vin| && SpendInputs(spent, vin, i).Failure?
    ensures SpendInputs(spent, vin, n) == SpendInputs(spent, vin, i)
  {
    if i < n {
      SpendInputsFails(spent, vin, i, n - 1);
    }
  }

  lemma {:induction false} AddOutputsFails(o: Outs, txHash: Hash, tx: Transaction, height: nat, i: nat, n: nat)
    requires i <= n <= |tx.vout| && AddOutputs(o, txHash, tx, height, i).Failure?
    ensures AddOutputs(o, txHash, tx, height, n) == AddOutputs(o, txHash, tx, height, i)
  {
    hide AddOutput, StoreAmount, CommitmentOf;
    if i < n {
      AddOutputsFails(o, txHash, tx, height, i, n - 1);
    }
  }

  lemma {:induction false} AddTransactionsFails(s: Store, hashes: seq<Hash>, txs: seq<Transaction>, i: nat, n: nat)
    requires i <= n <= |txs| == |hashes| && AddTransactions(s, hashes, txs, i).Failure?
    ensures AddTransactions(s, hashes, txs, n) == AddTransactions(s, hashes, txs, i)
  {
    hide AddTransaction;
    if i < n {
      AddTransactionsFails(s, hashes, txs, i, n - 1);
    }
  }

  /** The method has done what the function says, or failed with the same error. */
  ghost predicate Does<T>(r: Outcome<DbError>, after: T, spec: Result<T, DbError>) {
    match spec
    case Success(s) => r == Pass && after == s
    case Failure(e) => r == Fail(e)
  }

  class Db {
    var spent: set<KeyImage>
    var txs: map<Hash, TxRow>
    var txOutputs: map<nat, seq<nat>>
    var byAmount: map<nat, seq<OutKey>>
    var outputTxs: seq<OutTx>
    var blocks: seq<BlockRow>
    var heights: map<Hash, nat>

    constructor ()
      ensures Contents() == EMPTY_STORE
    {
      spent, txs, txOutputs, byAmount, outputTxs, blocks, heights := {}, map[], map[], map[], [], [], map[];
    }

    function Tables(): Outs
      reads this
    {
      Outs(byAmount, outputTxs)
    }

    function Contents(): Store
      reads this
    {
      Store(spent, txs, txOutputs, Tables(), blocks, heights)
    }

    // ----- the primitives

    method AddSpentKey(k: KeyImage) returns (r: Outcome<DbError>)
      modifies `spent
      ensures r == if k in old(spent) then Fail(KeyImageExists) else Pass
      ensures spent == old(spent) + {k}
    {
      if k in spent {
        return Fail(KeyImageExists);
      }
      spent := spent + {k};
      r := Pass;
    }

    method RemoveSpentKey(k: KeyImage)
      modifies `spent
      ensures spent == old(spent) - {k}
    {
      if k in spent {
        spent := spent - {k};
      }
    }

    method AddTransactionData(txHash: Hash, tx: Transaction) returns (r: Result<nat, DbError>)
      modifies `txs
      ensures r == if txHash in old(txs) then Failure(TxExists) else Success(|old(txs)|)
      ensures r.Success? ==> txs == old(txs)[txHash := TxRow(|old(txs)|, |blocks|, tx)]
    {
      var id := |txs|;
      if txHash in txs {
        return Failure(TxExists);
      }
      txs := txs[txHash := TxRow(id, |blocks|, tx)];
      r := Success(id);
    }

    method AddOutputRow(txHash: Hash, amount: nat, key: Option<Key>, localIndex: nat, unlockTime: nat,
        commitment: Option<Commitment>)
        returns (r: Result<nat, DbError>)
      modifies `byAmount, `outputTxs
      ensures match AddOutput(old(Tables()), txHash, amount, key, localIndex, unlockTime, |blocks|, commitment)
              case Failure(e) => r == Failure(e)
              case Success(o) => r == Success(|Stack(old(Tables()), amount)|) && Tables() == o
    {
      var numOutputs := if outputTxs == [] then 0 else outputTxs[|outputTxs| - 1].outputId + 1;
      if key.None? {
        return Failure(NoPublicKey);
      }
      if amount == 0 && commitment.None? {
        return Failure(NoCommitment);
      }
      outputTxs := outputTxs + [OutTx(numOutputs, txHash, localIndex)];
      var index := 0;
      var stack := [];
      if amount in byAmount {
        stack := byAmount[amount];
        index := |stack|;
      }
      var c := if amount == 0 then commitment else None;
      byAmount := byAmount[amount := stack + [OutKey(index, numOutputs, key.value, unlockTime, |blocks|, c)]];
      r := Success(index);
    }

    method RemoveOutputRow(amount: nat, index: nat) returns (r: Outcome<DbError>)
      modifies `byAmount, `outputTxs
      ensures Does(r, Tables(), RemoveOutput(old(Tables()), amount, index))
    {
      var stack := Stack(Tables(), amount);
      var i := FindIndex(stack, index);
      if i.None? {
        return Fail(OutputMissing);
      }
      var j := FindId(outputTxs, stack[i.value].outputId);
      if j.None? {
        return Fail(OutputMissing);
      }
      outputTxs := Without(outputTxs, j.value);
      byAmount := WithStack(byAmount, amount, Without(stack, i.value));
      r := Pass;
    }

    method RemoveTxOutputs(id: nat, tx: Transaction) returns (r: Outcome<DbError>)
      modifies `byAmount, `outputTxs
      ensures id !in txOutputs || |txOutputs[id]| < |tx.vout| ==> r == Fail(NoIndices)
      ensures id in txOutputs && |txOutputs[id]| >= |tx.vout| ==>
                Does(r, Tables(), RemoveOutputs(old(Tables()), tx, txOutputs[id], |tx.vout|))
    {
      hide RemoveOutput;
      if id !in txOutputs || |txOutputs[id]| < |tx.vout| {
        return Fail(NoIndices);
      }
      var indices := txOutputs[id];
      var isPseudoRct := tx.version >= 2 && |tx.vin| == 1 && tx.vin[0].Gen?;
      var i := |tx.vout|;
      while i > 0
        invariant 0 <= i <= |tx.vout|
        invariant RemoveOutputs(Tables(), tx, indices, i) == RemoveOutputs(old(Tables()), tx, indices, |tx.vout|)
      {
        i := i - 1;
        var amount := if isPseudoRct then 0 else tx.vout[i].amount;
        r := RemoveOutputRow(amount, indices[i]);
        if r.Fail? {
          return;
        }
      }
      r := Pass;
    }

    method RemoveTransactionData(txHash: Hash, tx: Transaction) returns (r: Outcome<DbError>)
      modifies `txs, `txOutputs, `byAmount, `outputTxs
      ensures Does(r, Contents(), BlockStore.RemoveTransactionData(old(Contents()), txHash, tx))
    {
      hide RemoveOutputs;
      if txHash !in txs {
        return Fail(TxMissing);
      }
      var id := txs[txHash].id;
      r := RemoveTxOutputs(id, tx);
      if r.Fail? {
        return;
      }
      txOutputs := txOutputs - {id};
      txs := txs - {txHash};
    }

    // ----- transactions

    method SpendAllInputs(vin: seq<TxIn>) returns (r: Outcome<DbError>, minerTx: bool)
      modifies `spent
      ensures Does(r, spent, SpendInputs(old(spent), vin, |vin|))
      ensures r.Pass? ==> minerTx == HasGen(vin)
    {
      hide HasGen;
      minerTx := false;
      NoGenYet(vin);
      var i := 0;
      while i < |vin|
        invariant i <= |vin|
        invariant SpendInputs(old(spent), vin, i) == Success(spent)
        invariant minerTx == HasGen(vin[..i])
      {
        GenNext(vin, i);
        if vin[i].ToKey? {
          r := AddSpentKey(vin[i].keyImage);
          if r.Fail? {
            SpendInputsFails(old(spent), vin, i + 1, |vin|);
            return;
          }
        } else if vin[i].Gen? {
          minerTx := true;
        } else {
          SpendInputsFails(old(spent), vin, i + 1, |vin|);
          return Fail(UnexpectedInput), minerTx;
        }
        i := i + 1;
      }
      assert vin[..i] == vin;
      r := Pass;
    }

    method AddAllOutputs(txHash: Hash, tx: Transaction, minerTx: bool) returns (r: Outcome<DbError>, indices: seq<nat>)
      requires minerTx == HasGen(tx.vin)
      modifies `byAmount, `outputTxs
      ensures match AddOutputs(old(Tables()), txHash, tx, |blocks|, |tx.vout|)
              case Failure(e) => r == Fail(e)
              case Success(a) => r == Pass && Tables() == a.outs && indices == a.indices
    {
      hide AddOutput, HasGen, Stack;
      indices := [];
      var i := 0;
      while i < |tx.vout|
        invariant i <= |tx.vout|
        invariant AddOutputs(old(Tables()), txHash, tx, |blocks|, i) == Success(Added(Tables(), indices))
      {
        var out := tx.vout[i];
        var added: Result<nat, DbError>;
        ghost var before := Tables();
        if minerTx && tx.version == 2 {
          added := AddOutputRow(txHash, 0, out.key, i, tx.unlockTime, Some(ZeroCommit(out.amount)));
        } else {
          var commitment := if tx.version > 1 then Some(Mask(out.mask)) else None;
          added := AddOutputRow(txHash, out.amount, out.key, i, tx.unlockTime, commitment);
        }
        if added.Failure? {
          AddOutputsFails(old(Tables()), txHash, tx, |blocks|, i + 1, |tx.vout|);
          return Fail(added.error), indices;
        }
        indices := indices + [added.value];
        i := i + 1;
      }
      r := Pass;
    }

    method StoreTransaction(txHash: Hash, tx: Transaction) returns (r: Outcome<DbError>)
      modifies `spent, `txs, `txOutputs, `byAmount, `outputTxs
      ensures Does(r, Contents(), AddTransaction(old(Contents()), txHash, tx))
    {
      hide SpendInputs, AddOutputs, HasGen;
      var minerTx: bool;
      r, minerTx := SpendAllInputs(tx.vin);
      if r.Fail? {
        return;
      }
      var id := AddTransactionData(txHash, tx);
      if id.Failure? {
        return Fail(id.error);
      }
      var indices: seq<nat>;
      r, indices := AddAllOutputs(txHash, tx, minerTx);
      if r.Fail? {
        return;
      }
      txOutputs := txOutputs[id.value := indices];
    }

    method DropTransaction(txHash: Hash) returns (r: Outcome<DbError>)
      modifies `spent, `txs, `txOutputs, `byAmount, `outputTxs
      ensures Does(r, Contents(), RemoveTransaction(old(Contents()), txHash))
    {
      hide RemoveOutputs, KeyImages;
      if txHash !in txs {
        return Fail(TxMissing);
      }
      var tx := txs[txHash].tx;
      var i := 0;
      NoKeyImages(tx.vin);
      while i < |tx.vin|
        invariant i <= |tx.vin|
        invariant spent == old(spent) - KeyImages(tx.vin[..i])
        modifies `spent
      {
        KeyImagesNext(tx.vin[..i], tx.vin[i]);
        assert tx.vin[..i + 1] == tx.vin[..i] + [tx.vin[i]];
        if tx.vin[i].ToKey? {
          RemoveSpentKey(tx.vin[i].keyImage);
        }
        i := i + 1;
      }
      assert tx.vin[..i] == tx.vin;
      r := RemoveTransactionData(txHash, tx);
    }

    // ----- blocks

    method StoreBlockRow(b: Block, numRct: nat) returns (r: Outcome<DbError>)
      modifies `blocks, `heights
      ensures Does(r, Contents(), AddBlockRow(old(Contents()), b, numRct))
    {
      var height := |blocks|;
      if b.hash in heights {
        return Fail(BlockExists);
      }
      if height > 0 {
        if b.prevId !in heights {
          return Fail(ParentUnknown);
        }
        if heights[b.prevId] != height - 1 {
          return Fail(ParentNotTop);
        }
      }
      var cumulative := numRct;
      if b.majorVersion >= 4 {
        if height == 0 {
          return Fail(NoBlockInfo);
        }
        cumulative := cumulative + blocks[height - 1].cumulativeRct;
      }
      blocks := blocks + [BlockRow(b, b.hash, cumulative)];
      heights := heights[b.hash := height];
      r := Pass;
    }

    method StoreBlock(b: Block, transactions: seq<Transaction>) returns (r: Outcome<DbError>)
      modifies this
      ensures Does(r, Contents(), AddBlock(old(Contents()), b, transactions))
    {
      hide AddTransaction, AddBlockRow, ZeroAmounts;
      if |b.txHashes| != |transactions| {
        return Fail(WrongHashes);
      }
      var numRct := 0;
      r := StoreTransaction(b.minerTx.hash, b.minerTx);
      if r.Fail? {
        return;
      }
      ghost var mined := Contents();
      if b.minerTx.version == 2 {
        numRct := numRct + |b.minerTx.vout|;
      }
      ghost var minerRct := numRct;
      var i := 0;
      while i < |transactions|
        invariant i <= |transactions|
        invariant AddTransactions(mined, b.txHashes, transactions, i) == Success(Contents())
        invariant numRct == minerRct + ZeroAmountsOfAll(transactions[..i])
      {
        r := StoreTransaction(b.txHashes[i], transactions[i]);
        if r.Fail? {
          AddTransactionsFails(mined, b.txHashes, transactions, i + 1, |transactions|);
          return;
        }
        var zeros := CountZeroAmounts(transactions[i].vout);
        numRct := numRct + zeros;
        assert transactions[..i + 1][..i] == transactions[..i];
        i := i + 1;
      }
      assert transactions[..i] == transactions;
      r := StoreBlockRow(b, numRct);
    }

    method DropBlockRow() returns (r: Outcome<DbError>)
      modifies `blocks, `heights
      ensures Does(r, Contents(), RemoveBlockRow(old(Contents())))
    {
      if |blocks| == 0 {
        return Fail(NoBlock);
      }
      var row := blocks[|blocks| - 1];
      if row.hash !in heights {
        return Fail(NoBlock);
      }
      heights := heights - {row.hash};
      blocks := blocks[..|blocks| - 1];
      r := Pass;
    }

    /** The steps of removing the top block; a failure leaves the steps before it done. */
    method PopSteps() returns (r: Outcome<DbError>, b: Block, popped: seq<Transaction>)
      modifies this
      ensures Does(r, Popped(Contents(), b, popped), BlockStore.PopBlock(old(Contents())))
    {
      hide RemoveTransaction;
      b := Block(0, 0, 0, Transaction(0, 1, 0, [], []), []);
      popped := [];
      if |blocks| > 0 {
        b := blocks[|blocks| - 1].block;
      }
      r := DropBlockRow();
      if r.Fail? {
        return;
      }
      ghost var start := Contents();
      ghost var whole := RemoveTransactions(start, b.txHashes, |b.txHashes|);
      ContinuesStart(whole);
      var i := |b.txHashes|;
      while i > 0
        invariant 0 <= i <= |b.txHashes|
        invariant Continues(whole, popped, RemoveTransactions(Contents(), b.txHashes, i))
      {
        i := i - 1;
        if b.txHashes[i] !in txs {
          return Fail(TxMissing), b, popped;
        }
        var tx := txs[b.txHashes[i]].tx;
        ghost var before, given := Contents(), popped;
        popped := popped + [tx];
        r := DropTransaction(b.txHashes[i]);
        if r.Fail? {
          return;
        }
        ContinuesNext(whole, given, before, Contents(), b.txHashes, i);
      }
      assert popped + [] == popped;
      r := DropTransaction(b.minerTx.hash);
    }

    /** Removes the top block, or fails and leaves everything as it was. */
    method PopTopBlock() returns (r: Outcome<DbError>, b: Block, popped: seq<Transaction>)
      modifies this
      ensures Does(r, Popped(Contents(), b, popped), BlockStore.PopBlock(old(Contents())))
      ensures r.Fail? ==> Contents() == old(Contents())
    {
      hide BlockStore.PopBlock;
      var saved := Contents();
      r, b, popped := PopSteps();
      if r.Fail? {
        spent, txs, txOutputs, blocks, heights := saved.spent, saved.txs, saved.txOutputs, saved.blocks, saved.heights;
        byAmount, outputTxs := saved.outs.byAmount, saved.outs.all;
      }
    }

    method Fixup(readOnly: bool) returns (r: Outcome<DbError>)
      modifies this
      ensures Does(r, Contents(), Fixed(old(Contents()), readOnly))
    {
      hide BlockStore.PopBlock;
      if readOnly {
        return Pass;
      }
      if |blocks| == 0 {
        return Fail(NoBlock);
      }
      if blocks[0].hash == MAINNET_GENESIS {
        if |blocks| > FIXUP_HEIGHT {
          if FIRST_MISSING_KEY_IMAGE !in spent {
            ghost var k := |blocks| - FIXUP_HEIGHT;
            while |blocks| > FIXUP_HEIGHT
              invariant |blocks| >= FIXUP_HEIGHT
              invariant Leads(PopMany(old(Contents()), k), PopMany(Contents(), |blocks| - FIXUP_HEIGHT))
              decreases |blocks|
            {
              PopLowers(Contents());
              var b: Block, popped: seq<Transaction>;
              r, b, popped := PopTopBlock();
              if r.Fail? {
                return;
              }
            }
          }
        }
      }
      r := Pass;
    }
  }

  method CountZeroAmounts(vout: seq<TxOut>) returns (n: nat)
    ensures n == ZeroAmounts(vout)
  {
    n := 0;
    var i := 0;
    while i < |vout|
      invariant i <= |vout|
      invariant n == ZeroAmounts(vout[..i])
    {
      assert vout[..i + 1][..i] == vout[..i];
      if vout[i].amount == 0 {
        n := n + 1;
      }
      i := i + 1;
    }
    assert vout[..i] == vout;
  }

  // ----- steps of the loops

  lemma NoGenYet(vin: seq<TxIn>)
    ensures !HasGen(vin[..0])
  {
  }

  lemma GenNext(vin: seq<TxIn>, i: nat)
    requires i < |vin|
    ensures HasGen(vin[..i + 1]) <==> HasGen(vin[..i]) || vin[i].Gen?
  {
    var before, after := vin[..i], vin[..i + 1];
    assert after == before + [vin[i]];
    assert after[i] == vin[i];
    assert forall j :: 0 <= j < i ==> after[j] == before[j];
  }

  lemma NoKeyImages(vin: seq<TxIn>)
    ensures KeyImages(vin[..0]) == {}
  {
  }

  /** What is left to remove completes the whole, after the transactions already given. */
  ghost predicate Continues(whole: Result<Removed, DbError>, given: seq<Transaction>, rest: Result<Removed, DbError>) {
    match rest
    case Failure(e) => whole == Failure(e)
    case Success(r) => whole == Success(Removed(r.store, given + r.txs))
  }

  lemma ContinuesStart(whole: Result<Removed, DbError>)
    ensures Continues(whole, [], whole)
  {
    if whole.Success? {
      assert [] + whole.value.txs == whole.value.txs;
    }
  }

  lemma ContinuesNext(whole: Result<Removed, DbError>, given: seq<Transaction>, s: Store, s': Store, hashes: seq<Hash>,
      i: nat)
    requires i < |hashes| && hashes[i] in s.txs && RemoveTransaction(s, hashes[i]) == Success(s')
    requires Continues(whole, given, RemoveTransactions(s, hashes, i + 1))
    ensures Continues(whole, given + [s.txs[hashes[i]].tx], RemoveTransactions(s', hashes, i))
  {
    hide RemoveTransaction;
    var rest := RemoveTransactions(s', hashes, i);
    if rest.Success? {
      var tx := s.txs[hashes[i]].tx;
      assert given + ([tx] + rest.value.txs) == given + [tx] + rest.value.txs;
    }
  }

  ghost predicate Leads(whole: Result<PoppedMany, DbError>, rest: Result<PoppedMany, DbError>) {
    match rest
    case Failure(e) => whole == Failure(e)
    case Success(r) => whole.Success? && whole.value.store == r.store
  }

  lemma {:induction false} RemoveTransactionsBlocks(s: Store, hashes: seq<Hash>, n: nat)
    requires n <= |hashes|
    ensures var r := RemoveTransactions(s, hashes, n); r.Success? ==> r.value.store.blocks == s.blocks
    decreases n
  {
    hide RemoveOutputs, KeyImages;
    if n > 0 {
      var r := RemoveTransaction(s, hashes[n - 1]);
      if r.Success? {
        RemoveTransactionsBlocks(r.value, hashes, n - 1);
      }
    }
  }

  lemma PopLowers(s: Store)
    ensures var r := BlockStore.PopBlock(s); r.Success? ==> |r.value.store.blocks| == |s.blocks| - 1
  {
    hide RemoveOutputs, KeyImages, RemoveTransactions;
    var s1 := RemoveBlockRow(s);
    if s1.Success? {
      var b := s.blocks[|s.blocks| - 1].block;
      RemoveTransactionsBlocks(s1.value, b.txHashes, |b.txHashes|);
    }
  }
}
