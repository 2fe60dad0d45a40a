/**
 Which blocks can be added.
 */
module BlockAddable {
  import opened BlockStore
  import opened OutputStacks
  import opened Wrappers

  function ToSet(s: seq<nat>): set<nat> {
    set x | x in s
  }

  /** None of them is known, and no two are equal. */
  ghost predicate Fresh(known: set<nat>, s: seq<nat>) {
    && (forall i :: 0 <= i < |s| ==> s[i] !in known)
    && forall i, j :: 0 <= i < j < |s| ==> s[i] != s[j]
  }

  lemma FreshConcat(known: set<nat>, a: seq<nat>, b: seq<nat>)
    ensures Fresh(known, a + b) <==> Fresh(known, a) && Fresh(known + ToSet(a), b)
    ensures ToSet(a + b) == ToSet(a) + ToSet(b)
  {
    var c := a + b;
    if Fresh(known, c) {
      FreshParts(known, a, b);
    }
    if Fresh(known, a) && Fresh(known + ToSet(a), b) {
      forall i, j | 0 <= i < j < |c|
        ensures c[i] != c[j]
      {
        if i < |a| <= j {
          assert c[i] in ToSet(a) && b[j - |a|] !in ToSet(a);
        }
      }
    }
  }

  lemma FreshParts(known: set<nat>, a: seq<nat>, b: seq<nat>)
    requires Fresh(known, a + b)
    ensures Fresh(known, a) && Fresh(known + ToSet(a), b)
  {
    var c := a + b;
    forall i | 0 <= i < |a|
      ensures a[i] !in known
    {
      assert c[i] == a[i];
    }
    forall i, j | 0 <= i < j < |a|
      ensures a[i] != a[j]
    {
      assert c[i] == a[i] && c[j] == a[j];
    }
    forall j | 0 <= j < |b|
      ensures b[j] !in known + ToSet(a)
    {
      assert c[|a| + j] == b[j];
      forall i | 0 <= i < |a|
        ensures a[i] != b[j]
      {
        assert c[i] == a[i];
      }
    }
    forall i, j | 0 <= i < j < |b|
      ensures b[i] != b[j]
    {
      assert c[|a| + i] == b[i] && c[|a| + j] == b[j];
    }
  }

  lemma FreshOne(known: set<nat>, x: nat)
    ensures Fresh(known, [x]) <==> x !in known
    ensures ToSet([x]) == {x}
  {
    assert [x][0] == x;
  }

  lemma FreshNone(known: set<nat>)
    ensures Fresh(known, []) && ToSet([]) == {}
  {
  }

  // ----- inputs

  /** The key images of the first n inputs, in order. */
  function Images(vin: seq<TxIn>, n: nat): seq<nat>
    requires n <= |vin|
  {
    if n == 0 then [] else Images(vin, n - 1) + if vin[n - 1].ToKey? then [vin[n - 1].keyImage] else []
  }

  lemma {:induction false} SpendIff(spent: set<KeyImage>, vin: seq<TxIn>, n: nat)
    requires n <= |vin|
    ensures SpendInputs(spent, vin, n).Success?
       <==> (forall i :: 0 <= i < n ==> !vin[i].OtherIn?) && Fresh(spent, Images(vin, n))
    ensures SpendInputs(spent, vin, n).Success? ==> SpendInputs(spent, vin, n).value == spent + ToSet(Images(vin, n))
  {
    hide Fresh, ToSet;
    if n == 0 {
      FreshNone(spent);
    } else {
      SpendIff(spent, vin, n - 1);
      if vin[n - 1].ToKey? {
        var k := vin[n - 1].keyImage;
        FreshConcat(spent, Images(vin, n - 1), [k]);
        FreshOne(spent + ToSet(Images(vin, n - 1)), k);
      } else {
        assert Images(vin, n) == Images(vin, n - 1);
      }
    }
  }

  // ----- outputs

  predicate OutputStorable(tx: Transaction, out: TxOut) {
    out.key.Some? && (out.amount == 0 ==> tx.version > 1)
  }

  lemma {:induction false} AddOutputsIff(o: Outs, txHash: Hash, tx: Transaction, height: nat, n: nat)
    requires n <= |tx.vout|
    ensures AddOutputs(o, txHash, tx, height, n).Success? <==> forall i :: 0 <= i < n ==> OutputStorable(tx, tx.vout[i])
  {
    hide HasGen, Stack;
    if n > 0 {
      AddOutputsIff(o, txHash, tx, height, n - 1);
    }
  }

  // ----- transactions

  predicate Storable(tx: Transaction) {
    && (forall i :: 0 <= i < |tx.vin| ==> !tx.vin[i].OtherIn?)
    && forall i :: 0 <= i < |tx.vout| ==> OutputStorable(tx, tx.vout[i])
  }

  lemma AddTransactionIff(s: Store, txHash: Hash, tx: Transaction)
    ensures var r := AddTransaction(s, txHash, tx); var images := Images(tx.vin, |tx.vin|);
            && (r.Success? <==> Storable(tx) && Fresh(s.spent, images) && txHash !in s.txs)
            && (r.Success? ==> r.value.spent == s.spent + ToSet(images) && r.value.txs.Keys == s.txs.Keys + {txHash})
  {
    hide AddTransaction, Storable, Fresh, ToSet, Images;
    TransactionAddable(s, txHash, tx);
    TransactionAdds(s, txHash, tx);
  }

  lemma TransactionAddable(s: Store, txHash: Hash, tx: Transaction)
    ensures AddTransaction(s, txHash, tx).Success?
       <==> Storable(tx) && Fresh(s.spent, Images(tx.vin, |tx.vin|)) && txHash !in s.txs
  {
    hide SpendInputs, AddOutputs, Fresh, Images, OutputStorable;
    SpendIff(s.spent, tx.vin, |tx.vin|);
    AddOutputsIff(s.outs, txHash, tx, |s.blocks|, |tx.vout|);
  }

  lemma TransactionAdds(s: Store, txHash: Hash, tx: Transaction)
    ensures var r := AddTransaction(s, txHash, tx);
            r.Success? ==>
              r.value.spent == s.spent + ToSet(Images(tx.vin, |tx.vin|)) && r.value.txs.Keys == s.txs.Keys + {txHash}
  {
    hide SpendInputs, AddOutputs, Fresh, ToSet, Images;
    SpendIff(s.spent, tx.vin, |tx.vin|);
    KeysUpdated(s.txs, txHash, TxRow(|s.txs|, |s.blocks|, tx));
  }

  lemma KeysUpdated<K, V>(m: map<K, V>, k: K, v: V)
    ensures m[k := v].Keys == m.Keys + {k}
  {
  }

  /** The key images of the first n transactions, in order. */
  function AllImages(txs: seq<Transaction>, n: nat): seq<nat>
    requires n <= |txs|
  {
    if n == 0 then [] else AllImages(txs, n - 1) + Images(txs[n - 1].vin, |txs[n - 1].vin|)
  }

  ghost predicate AllStorable(s: Store, hashes: seq<Hash>, txs: seq<Transaction>, n: nat)
    requires n <= |txs| == |hashes|
  {
    && (forall i :: 0 <= i < n ==> Storable(txs[i]))
    && Fresh(s.spent, AllImages(txs, n))
    && Fresh(s.txs.Keys, hashes[..n])
  }

  lemma {:induction false} AddTransactionsIff(s: Store, hashes: seq<Hash>, txs: seq<Transaction>, n: nat)
    requires n <= |txs| == |hashes|
    ensures var r := AddTransactions(s, hashes, txs, n);
            && (r.Success? <==> AllStorable(s, hashes, txs, n))
            && (r.Success? ==>
                  r.value.spent == s.spent + ToSet(AllImages(txs, n))
                  && r.value.txs.Keys == s.txs.Keys + ToSet(hashes[..n]))
  {
    hide AddTransaction, Storable, Fresh, ToSet, Images;
    if n == 0 {
      FreshNone(s.spent);
      FreshNone(s.txs.Keys);
    } else {
      AddTransactionsIff(s, hashes, txs, n - 1);
      FreshConcat(s.spent, AllImages(txs, n - 1), Images(txs[n - 1].vin, |txs[n - 1].vin|));
      assert hashes[..n] == hashes[..n - 1] + [hashes[n - 1]];
      FreshConcat(s.txs.Keys, hashes[..n - 1], [hashes[n - 1]]);
      FreshOne(s.txs.Keys + ToSet(hashes[..n - 1]), hashes[n - 1]);
      var r := AddTransactions(s, hashes, txs, n - 1);
      if r.Success? {
        AddTransactionIff(r.value, hashes[n - 1], txs[n - 1]);
      }
    }
  }

  // ----- blocks

  /** The block is new and goes on top; one of version 4 or above is not the first. */
  predicate FitsOnTop(s: Store, b: Block) {
    && (forall i :: 0 <= i < |s.blocks| ==> s.blocks[i].hash != b.hash)
    && if s.blocks == [] then b.majorVersion < 4 else b.prevId == s.blocks[|s.blocks| - 1].hash
  }

  lemma AddBlockRowIff(s: Store, b: Block, numRct: nat)
    requires Consistent(s)
    ensures AddBlockRow(s, b, numRct).Success? <==> FitsOnTop(s, b)
  {
    hide Numbered;
    if s.blocks != [] {
      assert s.heights[s.blocks[|s.blocks| - 1].hash] == |s.blocks| - 1;
    }
  }

  ghost predicate Addable(s: Store, b: Block, txs: seq<Transaction>) {
    && |b.txHashes| == |txs|
    && FitsOnTop(s, b)
    && AllStorable(s, [b.minerTx.hash] + b.txHashes, [b.minerTx] + txs, 1 + |txs|)
  }

  lemma {:induction false} ImagesCons(first: Transaction, txs: seq<Transaction>, n: nat)
    requires n <= |txs|
    ensures AllImages([first] + txs, 1 + n) == Images(first.vin, |first.vin|) + AllImages(txs, n)
  {
    hide Images;
    if n > 0 {
      ImagesCons(first, txs, n - 1);
      assert ([first] + txs)[n] == txs[n - 1];
      assert Images(first.vin, |first.vin|) + AllImages(txs, n)
          == Images(first.vin, |first.vin|) + AllImages(txs, n - 1) + Images(txs[n - 1].vin, |txs[n - 1].vin|);
    } else {
      assert AllImages([first] + txs, 0) == [];
      assert Images(first.vin, |first.vin|) + [] == Images(first.vin, |first.vin|);
    }
  }

  lemma StorableCons(first: Transaction, txs: seq<Transaction>)
    ensures (forall i :: 0 <= i < 1 + |txs| ==> Storable(([first] + txs)[i]))
       <==> Storable(first) && forall i :: 0 <= i < |txs| ==> Storable(txs[i])
  {
    hide Storable;
    var all := [first] + txs;
    assert all[0] == first;
    if forall i :: 0 <= i < 1 + |txs| ==> Storable(all[i]) {
      forall i | 0 <= i < |txs|
        ensures Storable(txs[i])
      {
        assert all[1 + i] == txs[i];
      }
    }
  }

  /** The miner transaction and then the others, or all in one go. */
  lemma AllStorableCons(s: Store, mined: Store, b: Block, txs: seq<Transaction>)
    requires |b.txHashes| == |txs|
    requires AddTransaction(s, b.minerTx.hash, b.minerTx) == Success(mined)
    ensures AllStorable(s, [b.minerTx.hash] + b.txHashes, [b.minerTx] + txs, 1 + |txs|)
       <==> AllStorable(mined, b.txHashes, txs, |txs|)
  {
    hide AddTransaction, Storable, Fresh, ToSet, Images, AllImages;
    var miner := b.minerTx;
    AddTransactionIff(s, miner.hash, miner);
    ImagesCons(miner, txs, |txs|);
    StorableCons(miner, txs);
    FreshConcat(s.spent, Images(miner.vin, |miner.vin|), AllImages(txs, |txs|));
    FreshConcat(s.txs.Keys, [miner.hash], b.txHashes);
    FreshOne(s.txs.Keys, miner.hash);
    assert ([miner.hash] + b.txHashes)[..1 + |txs|] == [miner.hash] + b.txHashes;
    assert b.txHashes[..|txs|] == b.txHashes;
  }

  lemma MinerStorable(s: Store, b: Block, txs: seq<Transaction>)
    requires |b.txHashes| == |txs|
    requires AllStorable(s, [b.minerTx.hash] + b.txHashes, [b.minerTx] + txs, 1 + |txs|)
    ensures AddTransaction(s, b.minerTx.hash, b.minerTx).Success?
  {
    hide AddTransaction, Storable, Fresh, ToSet, Images, AllImages;
    var miner := b.minerTx;
    AddTransactionIff(s, miner.hash, miner);
    ImagesCons(miner, txs, |txs|);
    StorableCons(miner, txs);
    FreshConcat(s.spent, Images(miner.vin, |miner.vin|), AllImages(txs, |txs|));
    FreshConcat(s.txs.Keys, [miner.hash], b.txHashes);
    FreshOne(s.txs.Keys, miner.hash);
    assert ([miner.hash] + b.txHashes)[..1 + |txs|] == [miner.hash] + b.txHashes;
  }

  /** A block is added exactly when it goes on top of the chain, its inputs and outputs are of the known
      kinds, and none of its transactions and key images is stored already or occurs in it twice. */
  lemma AddableIff(s: Store, b: Block, txs: seq<Transaction>)
    requires Consistent(s)
    ensures AddBlock(s, b, txs).Success? <==> Addable(s, b, txs)
  {
    hide Consistent, AddTransaction, AddTransactions, AddBlockRow, AllStorable, FitsOnTop, NumRctOuts;
    if |b.txHashes| == |txs| {
      var mined := AddTransaction(s, b.minerTx.hash, b.minerTx);
      if mined.Success? {
        AddTransactionConsistent(s, b.minerTx.hash, b.minerTx);
        AllStorableCons(s, mined.value, b, txs);
        AddTransactionsIff(mined.value, b.txHashes, txs, |txs|);
        AddTransactionsConsistent(mined.value, b.txHashes, txs, |txs|);
        var full := AddTransactions(mined.value, b.txHashes, txs, |txs|);
        if full.Success? {
          AddBlockRowIff(full.value, b, NumRctOuts(b, txs));
          SameBlocks(full.value, s, b);
        }
      } else if Addable(s, b, txs) {
        MinerStorable(s, b, txs);
      }
    }
  }

  lemma SameBlocks(s: Store, s': Store, b: Block)
    requires s.blocks == s'.blocks
    ensures FitsOnTop(s, b) == FitsOnTop(s', b)
  {
  }
}
