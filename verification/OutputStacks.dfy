/**
 The outputs of the block store: one table of outputs per amount, and one of all outputs.
 */
module OutputStacks {
  import opened Wrappers

  type Hash = nat
  type Key = nat
  type KeyImage = nat

  datatype TxIn = Gen | ToKey(keyImage: KeyImage) | OtherIn

  /** An output, with the commitment mask its transaction carries for it when the version is above 1. */
  datatype TxOut = TxOut(amount: nat, key: Option<Key>, mask: Key)

  const CURRENT_TRANSACTION_VERSION := 2

  /** The versions that a transaction can be read with. */
  type Version = v: nat | 1 <= v <= CURRENT_TRANSACTION_VERSION witness 1

  datatype Transaction = Transaction(hash: Hash, version: Version, unlockTime: nat, vin: seq<TxIn>, vout: seq<TxOut>)

  datatype Commitment = ZeroCommit(amount: nat) | Mask(mask: Key)

  datatype OutKey = OutKey(amountIndex: nat, outputId: nat, key: Key, unlockTime: nat, height: nat,
      commitment: Option<Commitment>)

  datatype OutTx = OutTx(outputId: nat, txHash: Hash, localIndex: nat)

  datatype Outs = Outs(byAmount: map<nat, seq<OutKey>>, all: seq<OutTx>)

  datatype DbError =
    | KeyImageExists | UnexpectedInput | TxExists | TxMissing | NoPublicKey | NoCommitment | NoIndices | OutputMissing
    | WrongHashes | BlockExists | ParentUnknown | ParentNotTop | NoBlockInfo | NoBlock

  /** An amount without outputs has no table. */
  function Stack(o: Outs, amount: nat): seq<OutKey> {
    if amount in o.byAmount then o.byAmount[amount] else []
  }

  function WithStack(byAmount: map<nat, seq<OutKey>>, amount: nat, s: seq<OutKey>): map<nat, seq<OutKey>> {
    if s == [] then byAmount - {amount} else byAmount[amount := s]
  }

  /** One more than the last output number. */
  function NumOutputs(o: Outs): nat {
    if o.all == [] then 0 else o.all[|o.all| - 1].outputId + 1
  }

  // ----- one output

  function AddOutput(o: Outs, txHash: Hash, amount: nat, key: Option<Key>, localIndex: nat, unlockTime: nat,
                     height: nat, commitment: Option<Commitment>): Result<Outs, DbError> {
    if key.None? then Failure(NoPublicKey)
    else if amount == 0 && commitment.None? then Failure(NoCommitment)
    else
      var entry := OutKey(|Stack(o, amount)|, NumOutputs(o), key.value, unlockTime, height,
          if amount == 0 then commitment else None);
      Success(Outs(o.byAmount[amount := Stack(o, amount) + [entry]],
                   o.all + [OutTx(NumOutputs(o), txHash, localIndex)]))
  }

  function FindIndex(s: seq<OutKey>, index: nat): (i: Option<nat>)
    ensures i.Some? ==> i.value < |s| && s[i.value].amountIndex == index
    ensures i.None? ==> forall j :: 0 <= j < |s| ==> s[j].amountIndex != index
  {
    if s == [] then None
    else if s[|s| - 1].amountIndex == index then Some(|s| - 1)
    else FindIndex(s[..|s| - 1], index)
  }

  function FindId(s: seq<OutTx>, id: nat): (i: Option<nat>)
    ensures i.Some? ==> i.value < |s| && s[i.value].outputId == id
    ensures i.None? ==> forall j :: 0 <= j < |s| ==> s[j].outputId != id
  {
    if s == [] then None
    else if s[|s| - 1].outputId == id then Some(|s| - 1)
    else FindId(s[..|s| - 1], id)
  }

  function Without<T>(s: seq<T>, i: nat): seq<T>
    requires i < |s|
  {
    s[..i] + s[i + 1..]
  }

  /** Takes out the entry with an index from the table of an amount, and its row in the other table. */
  function RemoveOutput(o: Outs, amount: nat, index: nat): Result<Outs, DbError> {
    match FindIndex(Stack(o, amount), index)
    case None => Failure(OutputMissing)
    case Some(i) =>
      match FindId(o.all, Stack(o, amount)[i].outputId)
      case None => Failure(OutputMissing)
      case Some(j) => Success(Outs(WithStack(o.byAmount, amount, Without(Stack(o, amount), i)), Without(o.all, j)))
  }

  /** Entries are numbered by their places, and there are no empty tables. */
  ghost predicate Numbered(o: Outs) {
    && (forall a :: a in o.byAmount ==> o.byAmount[a] != [])
    && (forall a, i :: a in o.byAmount && 0 <= i < |o.byAmount[a]| ==> o.byAmount[a][i].amountIndex == i)
    && forall i :: 0 <= i < |o.all| ==> o.all[i].outputId == i
  }

  lemma AddOutputNumbered(o: Outs, txHash: Hash, amount: nat, key: Option<Key>, localIndex: nat, unlockTime: nat,
                          height: nat, commitment: Option<Commitment>)
    requires Numbered(o)
    ensures var r := AddOutput(o, txHash, amount, key, localIndex, unlockTime, height, commitment);
            r.Success? ==> Numbered(r.value)
  {
  }

  lemma AddOutputStacks(o: Outs, txHash: Hash, amount: nat, key: Option<Key>, localIndex: nat, unlockTime: nat,
                        height: nat, commitment: Option<Commitment>, a: nat)
    ensures var r := AddOutput(o, txHash, amount, key, localIndex, unlockTime, height, commitment);
            r.Success? ==> |Stack(r.value, a)| == |Stack(o, a)| + if a == amount then 1 else 0
  {
  }

  /** Last in, first out: the output added last is taken out by its index, and nothing is left of it. */
  lemma RemoveAddedOutput(o: Outs, txHash: Hash, amount: nat, key: Option<Key>, localIndex: nat, unlockTime: nat,
                          height: nat, commitment: Option<Commitment>)
    requires Numbered(o)
    ensures var r := AddOutput(o, txHash, amount, key, localIndex, unlockTime, height, commitment);
            r.Success? ==> RemoveOutput(r.value, amount, |Stack(o, amount)|) == Success(o)
  {
    var r := AddOutput(o, txHash, amount, key, localIndex, unlockTime, height, commitment);
    if r.Success? {
      var s, s' := Stack(o, amount), Stack(r.value, amount);
      assert s' == s + [s'[|s|]];
      assert Without(s', |s|) == s;
      assert Without(r.value.all, |o.all|) == o.all;
      assert WithStack(r.value.byAmount, amount, s) == o.byAmount;
    }
  }

  /** A removal takes one entry from the table of its amount and leaves the others. */
  lemma RemoveOutputStacks(o: Outs, amount: nat, index: nat, a: nat)
    ensures var r := RemoveOutput(o, amount, index);
            r.Success? ==> |Stack(r.value, a)| == |Stack(o, a)| - if a == amount then 1 else 0
  {
  }

  // ----- the outputs of a transaction

  predicate HasGen(vin: seq<TxIn>) {
    exists i :: 0 <= i < |vin| && vin[i].Gen?
  }

  /** Adding a transaction stores all its outputs under amount 0. */
  predicate StoredUnderZero(tx: Transaction) {
    HasGen(tx.vin) && tx.version == 2
  }

  /** Removing a transaction looks for all its outputs under amount 0. */
  predicate RemovedUnderZero(tx: Transaction) {
    tx.version >= 2 && |tx.vin| == 1 && tx.vin[0].Gen?
  }

  /** Adding and removing use the same amounts: the two rules agree, or make no difference. */
  predicate RulesAgree(tx: Transaction) {
    (StoredUnderZero(tx) <==> RemovedUnderZero(tx)) || forall i :: 0 <= i < |tx.vout| ==> tx.vout[i].amount == 0
  }

  function StoreAmount(tx: Transaction, i: nat): nat
    requires i < |tx.vout|
  {
    if StoredUnderZero(tx) then 0 else tx.vout[i].amount
  }

  function RemoveAmount(tx: Transaction, i: nat): nat
    requires i < |tx.vout|
  {
    if RemovedUnderZero(tx) then 0 else tx.vout[i].amount
  }

  function CommitmentOf(tx: Transaction, i: nat): Option<Commitment>
    requires i < |tx.vout|
  {
    if StoredUnderZero(tx) then Some(ZeroCommit(tx.vout[i].amount))
    else if tx.version > 1 then Some(Mask(tx.vout[i].mask))
    else None
  }

  datatype Added = Added(outs: Outs, indices: seq<nat>)

  /** Adds the first n outputs of a transaction; gives the index of each under its amount. */
  function AddOutputs(o: Outs, txHash: Hash, tx: Transaction, height: nat, n: nat): (r: Result<Added, DbError>)
    requires n <= |tx.vout|
    ensures r.Success? ==> |r.value.indices| == n
  {
    if n == 0 then Success(Added(o, [])) else
    match AddOutputs(o, txHash, tx, height, n - 1)
    case Failure(e) => Failure(e)
    case Success(before) =>
      var amount := StoreAmount(tx, n - 1);
      match AddOutput(before.outs, txHash, amount, tx.vout[n - 1].key, n - 1, tx.unlockTime, height,
                      CommitmentOf(tx, n - 1))
      case Failure(e) => Failure(e)
      case Success(o') => Success(Added(o', before.indices + [|Stack(before.outs, amount)|]))
  }

  /** Removes the first n outputs of a transaction, the last of them first. */
  function RemoveOutputs(o: Outs, tx: Transaction, indices: seq<nat>, n: nat): Result<Outs, DbError>
    requires n <= |tx.vout| && n <= |indices|
    decreases n
  {
    if n == 0 then Success(o) else
    match RemoveOutput(o, RemoveAmount(tx, n - 1), indices[n - 1])
    case Failure(e) => Failure(e)
    case Success(o') => RemoveOutputs(o', tx, indices, n - 1)
  }

  lemma {:induction false} AddOutputsNumbered(o: Outs, txHash: Hash, tx: Transaction, height: nat, n: nat)
    requires Numbered(o) && n <= |tx.vout|
    ensures var r := AddOutputs(o, txHash, tx, height, n); r.Success? ==> Numbered(r.value.outs)
  {
    hide Numbered, AddOutput, CommitmentOf, StoreAmount;
    if n > 0 {
      AddOutputsNumbered(o, txHash, tx, height, n - 1);
      var r := AddOutputs(o, txHash, tx, height, n - 1);
      if r.Success? {
        AddOutputNumbered(r.value.outs, txHash, StoreAmount(tx, n - 1), tx.vout[n - 1].key, n - 1, tx.unlockTime,
            height, CommitmentOf(tx, n - 1));
      }
    }
  }

  lemma AgreedAmount(tx: Transaction, i: nat)
    requires RulesAgree(tx) && i < |tx.vout|
    ensures StoreAmount(tx, i) == RemoveAmount(tx, i)
  {
    hide StoredUnderZero, RemovedUnderZero;
  }

  lemma {:induction false} IndicesPrefix(tx: Transaction, o: Outs, indices: seq<nat>, more: seq<nat>, n: nat)
    requires n <= |tx.vout| && n <= |indices|
    ensures RemoveOutputs(o, tx, indices + more, n) == RemoveOutputs(o, tx, indices, n)
    decreases n
  {
    hide RemoveOutput;
    if n > 0 {
      var r := RemoveOutput(o, RemoveAmount(tx, n - 1), indices[n - 1]);
      if r.Success? {
        IndicesPrefix(tx, r.value, indices, more, n - 1);
      }
    }
  }

  /** Where the rules agree, the outputs of a transaction are taken out again one by one. */
  lemma {:induction false} RemoveAddedOutputs(o: Outs, txHash: Hash, tx: Transaction, height: nat, n: nat)
    requires Numbered(o) && n <= |tx.vout| && RulesAgree(tx)
    ensures var r := AddOutputs(o, txHash, tx, height, n);
            r.Success? ==> RemoveOutputs(r.value.outs, tx, r.value.indices, n) == Success(o)
  {
    hide Numbered, AddOutput, RemoveOutput, CommitmentOf, StoreAmount, RemoveAmount, RulesAgree;
    if n > 0 {
      var before := AddOutputs(o, txHash, tx, height, n - 1);
      var r := AddOutputs(o, txHash, tx, height, n);
      if r.Success? {
        var b := before.value;
        AddOutputsNumbered(o, txHash, tx, height, n - 1);
        AgreedAmount(tx, n - 1);
        RemoveAddedOutput(b.outs, txHash, StoreAmount(tx, n - 1), tx.vout[n - 1].key, n - 1, tx.unlockTime, height,
            CommitmentOf(tx, n - 1));
        IndicesPrefix(tx, b.outs, b.indices, [|Stack(b.outs, StoreAmount(tx, n - 1))|], n - 1);
        RemoveAddedOutputs(o, txHash, tx, height, n - 1);
      }
    }
  }

  // ----- where the rules do not agree

  /** How many of the first n outputs go under an amount, by the rule for adding or the one for removing. */
  function CountStored(tx: Transaction, a: nat, n: nat): nat
    requires n <= |tx.vout|
  {
    if n == 0 then 0 else CountStored(tx, a, n - 1) + if StoreAmount(tx, n - 1) == a then 1 else 0
  }

  function CountRemoved(tx: Transaction, a: nat, n: nat): nat
    requires n <= |tx.vout|
  {
    if n == 0 then 0 else CountRemoved(tx, a, n - 1) + if RemoveAmount(tx, n - 1) == a then 1 else 0
  }

  lemma {:induction false} AddOutputsCount(o: Outs, txHash: Hash, tx: Transaction, height: nat, n: nat, a: nat)
    requires n <= |tx.vout|
    ensures var r := AddOutputs(o, txHash, tx, height, n);
            r.Success? ==> |Stack(r.value.outs, a)| == |Stack(o, a)| + CountStored(tx, a, n)
  {
    hide AddOutput, Stack, StoreAmount, CommitmentOf;
    if n > 0 {
      AddOutputsCount(o, txHash, tx, height, n - 1, a);
      var r := AddOutputs(o, txHash, tx, height, n - 1);
      if r.Success? {
        AddOutputStacks(r.value.outs, txHash, StoreAmount(tx, n - 1), tx.vout[n - 1].key, n - 1, tx.unlockTime, height,
            CommitmentOf(tx, n - 1), a);
      }
    }
  }

  lemma {:induction false} RemoveOutputsCount(o: Outs, tx: Transaction, indices: seq<nat>, n: nat, a: nat)
    requires n <= |tx.vout| && n <= |indices|
    ensures var r := RemoveOutputs(o, tx, indices, n);
            r.Success? ==> |Stack(r.value, a)| + CountRemoved(tx, a, n) == |Stack(o, a)|
    decreases n
  {
    hide RemoveOutput, Stack, RemoveAmount;
    if n > 0 {
      RemoveOutputStacks(o, RemoveAmount(tx, n - 1), indices[n - 1], a);
      var r := RemoveOutput(o, RemoveAmount(tx, n - 1), indices[n - 1]);
      if r.Success? {
        RemoveOutputsCount(r.value, tx, indices, n - 1, a);
      }
    }
  }

  /** Under the two rules some amount is counted differently, unless they agree. */
  lemma {:induction false} RulesCount(tx: Transaction, n: nat, a: nat)
    requires n <= |tx.vout| && a != 0
    ensures StoredUnderZero(tx) ==> CountStored(tx, a, n) == 0
    ensures RemovedUnderZero(tx) ==> CountRemoved(tx, a, n) == 0
    ensures !StoredUnderZero(tx) && (exists i :: 0 <= i < n && tx.vout[i].amount == a) ==> CountStored(tx, a, n) > 0
    ensures !RemovedUnderZero(tx) && (exists i :: 0 <= i < n && tx.vout[i].amount == a) ==> CountRemoved(tx, a, n) > 0
  {
    hide StoredUnderZero, RemovedUnderZero;
    if n > 0 {
      RulesCount(tx, n - 1, a);
    }
  }

  /** Removing the outputs just added restores the tables exactly when the rules agree. */
  lemma OutputsRestoredIff(o: Outs, txHash: Hash, tx: Transaction, height: nat)
    requires Numbered(o)
    ensures var n := |tx.vout|; var r := AddOutputs(o, txHash, tx, height, n);
            r.Success? ==> (RemoveOutputs(r.value.outs, tx, r.value.indices, n) == Success(o) <==> RulesAgree(tx))
  {
    hide Numbered, AddOutputs, RemoveOutputs, Stack, StoredUnderZero, RemovedUnderZero, CountStored, CountRemoved;
    var n := |tx.vout|;
    var r := AddOutputs(o, txHash, tx, height, n);
    if r.Success? {
      if RulesAgree(tx) {
        RemoveAddedOutputs(o, txHash, tx, height, n);
      } else {
        var i :| 0 <= i < n && tx.vout[i].amount != 0;
        var a := tx.vout[i].amount;
        RulesCount(tx, n, a);
        AddOutputsCount(o, txHash, tx, height, n, a);
        RemoveOutputsCount(r.value.outs, tx, r.value.indices, n, a);
      }
    }
  }
}
