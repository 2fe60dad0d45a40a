/**
 Whole runs of the block store: any sequence of adding and popping blocks.
 */
module BlockRuns {
  import opened BlockPops
  import opened BlockStore
  import opened OutputStacks
  import opened Wrappers

  datatype Entry = Entry(block: Block, txs: seq<Transaction>)

  /** The store after adding these blocks to an empty one. */
  function Grow(chain: seq<Entry>): Result<Store, DbError> {
    if chain == [] then Success(EMPTY_STORE) else
    match Grow(chain[..|chain| - 1])
    case Failure(e) => Failure(e)
    case Success(s) => AddBlock(s, chain[|chain| - 1].block, chain[|chain| - 1].txs)
  }

  /** For all transactions, adding and removing use the same amounts. */
  ghost predicate Agreeing(chain: seq<Entry>) {
    forall i :: 0 <= i < |chain| ==> EntryAgrees(chain[i])
  }

  ghost predicate EntryAgrees(e: Entry) {
    RulesAgree(e.block.minerTx) && AllAgree(e.txs)
  }

  lemma EmptyConsistent()
    ensures Consistent(EMPTY_STORE)
  {
  }

  /** Every run of additions keeps the store consistent, and as high as there are blocks. */
  lemma {:induction false} GrowConsistent(chain: seq<Entry>)
    ensures Grow(chain).Success? ==> Consistent(Grow(chain).value) && |Grow(chain).value.blocks| == |chain|
  {
    hide Consistent, AddBlock;
    if chain == [] {
      EmptyConsistent();
    } else {
      var before := Grow(chain[..|chain| - 1]);
      GrowConsistent(chain[..|chain| - 1]);
      if before.Success? {
        AddBlockConsistent(before.value, chain[|chain| - 1].block, chain[|chain| - 1].txs);
      }
    }
  }

  lemma {:induction false} GrowPrefix(chain: seq<Entry>, n: nat)
    requires n <= |chain| && Grow(chain).Success?
    ensures Grow(chain[..n]).Success?
    decreases |chain|
  {
    hide AddBlock;
    if n == |chain| {
      assert chain[..n] == chain;
    } else {
      assert chain[..|chain| - 1][..n] == chain[..n];
      GrowPrefix(chain[..|chain| - 1], n);
    }
  }

  /** How many more outputs the rule for adding puts under amount 0 than the rule for removing takes. */
  function Excess(entries: seq<Entry>): int {
    if entries == [] then 0 else
    var e := entries[|entries| - 1];
    Excess(entries[..|entries| - 1]) + BlockStored(e.block, e.txs) - BlockRemoved(e.block, e.txs)
  }

  lemma {:induction false} ExcessIff(entries: seq<Entry>)
    ensures Excess(entries) >= 0
    ensures Excess(entries) == 0 <==> Agreeing(entries)
  {
    hide BlockStored, BlockRemoved, RulesAgree, AllAgree;
    if entries != [] {
      var before, e := entries[..|entries| - 1], entries[|entries| - 1];
      ExcessIff(before);
      BlockStoredAtLeastRemoved(e.block, e.txs);
      assert entries == before + [e];
    }
  }

  lemma {:induction false} ExcessConcat(a: seq<Entry>, b: seq<Entry>)
    ensures Excess(a + b) == Excess(a) + Excess(b)
    decreases |b|
  {
    hide BlockStored, BlockRemoved;
    if b == [] {
      assert a + b == a;
    } else {
      assert (a + b)[..|a + b| - 1] == a + b[..|b| - 1];
      ExcessConcat(a, b[..|b| - 1]);
    }
  }

  lemma PopLast(chain: seq<Entry>)
    requires chain != [] && Grow(chain).Success? && EntryAgrees(chain[|chain| - 1])
    ensures Grow(chain[..|chain| - 1]).Success?
    ensures var e := chain[|chain| - 1];
            PopBlock(Grow(chain).value) == Success(Popped(Grow(chain[..|chain| - 1]).value, e.block, Reverse(e.txs)))
  {
    hide Consistent, AddBlock, PopBlock, RulesAgree, AllAgree, Reverse;
    var before := chain[..|chain| - 1];
    GrowConsistent(before);
    PopUndoesAdd(Grow(before).value, chain[|chain| - 1].block, chain[|chain| - 1].txs);
  }

  /** The same for any store like that of the chain, and without agreement, but for the outputs. */
  lemma PopLastLike(chain: seq<Entry>, r: Store)
    requires chain != [] && Grow(chain).Success? && Like(r, Grow(chain).value) && PopBlock(r).Success?
    ensures Grow(chain[..|chain| - 1]).Success?
    ensures var e, p := chain[|chain| - 1], PopBlock(r).value;
            && p.block == e.block && p.txs == Reverse(e.txs) && Like(p.store, Grow(chain[..|chain| - 1]).value)
            && RctHeight(p.store) + BlockRemoved(e.block, e.txs) == RctHeight(r)
  {
    hide Consistent, AddBlock, PopBlock, Like, Reverse, RctHeight, BlockRemoved;
    var before := chain[..|chain| - 1];
    GrowConsistent(before);
    PopLike(Grow(before).value, chain[|chain| - 1].block, chain[|chain| - 1].txs, r);
  }

  lemma GrowRct(chain: seq<Entry>)
    requires chain != [] && Grow(chain).Success?
    ensures Grow(chain[..|chain| - 1]).Success?
    ensures RctHeight(Grow(chain).value)
         == RctHeight(Grow(chain[..|chain| - 1]).value) + BlockStored(chain[|chain| - 1].block, chain[|chain| - 1].txs)
  {
    hide AddBlock, RctHeight, BlockStored;
    AddBlockRct(Grow(chain[..|chain| - 1]).value, chain[|chain| - 1].block, chain[|chain| - 1].txs);
  }

  // ----- adding n blocks, then popping k

  datatype PoppedMany = PoppedMany(store: Store, popped: seq<Entry>)

  function PopMany(s: Store, k: nat): Result<PoppedMany, DbError>
    decreases k
  {
    if k == 0 then Success(PoppedMany(s, [])) else
    match PopBlock(s)
    case Failure(e) => Failure(e)
    case Success(p) =>
      match PopMany(p.store, k - 1)
      case Failure(e) => Failure(e)
      case Success(rest) => Success(PoppedMany(rest.store, [Entry(p.block, p.txs)] + rest.popped))
  }

  /** The last k blocks, last first, each with its transactions in reverse order. */
  function Backwards(chain: seq<Entry>, k: nat): seq<Entry>
    requires k <= |chain|
  {
    seq(k, i requires 0 <= i < k => Entry(chain[|chain| - 1 - i].block, Reverse(chain[|chain| - 1 - i].txs)))
  }

  /** Popping k blocks leaves the store of the blocks before them, and gives them back. */
  lemma {:induction false} PopManyUndoes(chain: seq<Entry>, k: nat)
    requires k <= |chain| && Grow(chain).Success? && Agreeing(chain[|chain| - k..])
    ensures Grow(chain[..|chain| - k]).Success?
    ensures PopMany(Grow(chain).value, k) == Success(PoppedMany(Grow(chain[..|chain| - k]).value, Backwards(chain, k)))
    decreases k
  {
    hide PopBlock, AddBlock, Grow, EntryAgrees, Reverse;
    if k == 0 {
      assert chain[..|chain|] == chain;
    } else {
      var before := chain[..|chain| - 1];
      assert chain[|chain| - k..][k - 1] == chain[|chain| - 1];
      PopLast(chain);
      assert before[|before| - (k - 1)..] == chain[|chain| - k..][..k - 1];
      PopManyUndoes(before, k - 1);
      assert before[..|before| - (k - 1)] == chain[..|chain| - k];
      assert Backwards(chain, k) == [Entry(chain[|chain| - 1].block, Reverse(chain[|chain| - 1].txs))]
          + Backwards(before, k - 1);
    }
  }

  /** Without agreement, k pops that succeed still give back the last k blocks, and leave as many outputs
      too many under amount 0 as the rules differ by. */
  lemma {:induction false} PopManyLike(chain: seq<Entry>, k: nat, r: Store)
    requires k <= |chain| && Grow(chain).Success? && Like(r, Grow(chain).value) && PopMany(r, k).Success?
    ensures Grow(chain[..|chain| - k]).Success?
    ensures RctHeight(PopMany(r, k).value.store) - RctHeight(Grow(chain[..|chain| - k]).value)
         == RctHeight(r) - RctHeight(Grow(chain).value) + Excess(chain[|chain| - k..])
    decreases k
  {
    hide PopBlock, AddBlock, Grow, Reverse, Like, RctHeight, BlockStored, BlockRemoved;
    if k == 0 {
      assert chain[..|chain|] == chain && chain[|chain|..] == [];
    } else {
      var before := chain[..|chain| - 1];
      PopLastLike(chain, r);
      GrowRct(chain);
      PopManyLike(before, k - 1, PopBlock(r).value.store);
      assert before[..|before| - (k - 1)] == chain[..|chain| - k];
      assert chain[|chain| - k..][..k - 1] == before[|before| - (k - 1)..];
    }
  }

  /** After n additions, k pops leave the store of the first n - k blocks, and give back the others,
      exactly when the rules agree for the k blocks. */
  lemma PopManyUndoesIff(chain: seq<Entry>, k: nat)
    requires k <= |chain| && Grow(chain).Success?
    ensures Grow(chain[..|chain| - k]).Success?
    ensures PopMany(Grow(chain).value, k) == Success(PoppedMany(Grow(chain[..|chain| - k]).value, Backwards(chain, k)))
       <==> Agreeing(chain[|chain| - k..])
  {
    hide PopMany, Grow, EntryAgrees, Like, RctHeight, Excess, Reverse;
    GrowPrefix(chain, |chain| - k);
    ExcessIff(chain[|chain| - k..]);
    LikeItself(Grow(chain).value);
    if Agreeing(chain[|chain| - k..]) {
      PopManyUndoes(chain, k);
    } else if PopMany(Grow(chain).value, k).Success? {
      PopManyLike(chain, k, Grow(chain).value);
    }
  }

  // ----- the repair of old chains

  const MAINNET_GENESIS: Hash := 0x418015bb9ae982a1975da7d79277c2705727a56894ba0fb246adaabb1f4632e3
  const FIRST_MISSING_KEY_IMAGE: KeyImage := 0x121bf6ae1596983b703d62fecf60ea7dd3c3909acf1e0911652e7dadb420ed12
  const FIXUP_HEIGHT := 202612

  predicate NeedsFixup(s: Store, readOnly: bool) {
    && !readOnly && s.blocks != [] && s.blocks[0].hash == MAINNET_GENESIS
    && |s.blocks| > FIXUP_HEIGHT && FIRST_MISSING_KEY_IMAGE !in s.spent
  }

  /** The store after the repair; an empty store that is not read-only has no first block to look at. */
  function Fixed(s: Store, readOnly: bool): Result<Store, DbError> {
    if !readOnly && s.blocks == [] then Failure(NoBlock)
    else if !NeedsFixup(s, readOnly) then Success(s)
    else
      match PopMany(s, |s.blocks| - FIXUP_HEIGHT)
      case Failure(e) => Failure(e)
      case Success(p) => Success(p.store)
  }

  /** A store in which some key images have not been marked as spent. */
  function Lose(s: Store, lost: set<KeyImage>): Store {
    s.(spent := s.spent - lost)
  }

  lemma RemoveTransactionLosing(s: Store, lost: set<KeyImage>, txHash: Hash)
    ensures RemoveTransaction(Lose(s, lost), txHash)
         == match RemoveTransaction(s, txHash) case Failure(e) => Failure(e) case Success(r) => Success(Lose(r, lost))
  {
    hide RemoveOutputs, KeyImages;
    if txHash in s.txs {
      var images := KeyImages(s.txs[txHash].tx.vin);
      assert s.spent - lost - images == s.spent - images - lost;
    }
  }

  lemma {:induction false} RemoveTransactionsLosing(s: Store, lost: set<KeyImage>, hashes: seq<Hash>, n: nat)
    requires n <= |hashes|
    ensures RemoveTransactions(Lose(s, lost), hashes, n)
         == match RemoveTransactions(s, hashes, n)
            case Failure(e) => Failure(e)
            case Success(r) => Success(Removed(Lose(r.store, lost), r.txs))
    decreases n
  {
    hide RemoveTransaction;
    if n > 0 {
      RemoveTransactionLosing(s, lost, hashes[n - 1]);
      if hashes[n - 1] in s.txs && RemoveTransaction(s, hashes[n - 1]).Success? {
        RemoveTransactionsLosing(RemoveTransaction(s, hashes[n - 1]).value, lost, hashes, n - 1);
      }
    }
  }

  lemma PopBlockLosing(s: Store, lost: set<KeyImage>)
    ensures PopBlock(Lose(s, lost))
         == match PopBlock(s)
            case Failure(e) => Failure(e)
            case Success(p) => Success(Popped(Lose(p.store, lost), p.block, p.txs))
  {
    hide RemoveTransaction, RemoveTransactions;
    var s1 := RemoveBlockRow(s);
    assert RemoveBlockRow(Lose(s, lost))
        == match s1 case Failure(e) => Failure(e) case Success(r) => Success(Lose(r, lost));
    if s1.Success? {
      var b := s.blocks[|s.blocks| - 1].block;
      RemoveTransactionsLosing(s1.value, lost, b.txHashes, |b.txHashes|);
      var s2 := RemoveTransactions(s1.value, b.txHashes, |b.txHashes|);
      if s2.Success? {
        RemoveTransactionLosing(s2.value.store, lost, b.minerTx.hash);
      }
    }
  }

  /** Lost key images make no difference to what pops do to the rest of the store. */
  lemma {:induction false} PopManyLosing(s: Store, lost: set<KeyImage>, k: nat)
    ensures PopMany(Lose(s, lost), k)
         == match PopMany(s, k)
            case Failure(e) => Failure(e)
            case Success(p) => Success(PoppedMany(Lose(p.store, lost), p.popped))
    decreases k
  {
    hide PopBlock, Lose;
    if k > 0 {
      PopBlockLosing(s, lost);
      if PopBlock(s).Success? {
        PopManyLosing(PopBlock(s).value.store, lost, k - 1);
      }
    }
  }

  /** The repair takes a chain that was stored without marking some key images back to height 202612,
      to the store of the blocks below it, exactly when the rules agree for the blocks popped. That store
      is complete if the lost key images all belong to the blocks popped. */
  lemma FixupLeavesPrefix(chain: seq<Entry>, lost: set<KeyImage>)
    requires Grow(chain).Success? && NeedsFixup(Lose(Grow(chain).value, lost), false)
    ensures |chain| > FIXUP_HEIGHT && Grow(chain[..FIXUP_HEIGHT]).Success?
    ensures Fixed(Lose(Grow(chain).value, lost), false) == Success(Lose(Grow(chain[..FIXUP_HEIGHT]).value, lost))
       <==> Agreeing(chain[FIXUP_HEIGHT..])
    ensures lost !! Grow(chain[..FIXUP_HEIGHT]).value.spent ==>
              Lose(Grow(chain[..FIXUP_HEIGHT]).value, lost) == Grow(chain[..FIXUP_HEIGHT]).value
    ensures |Grow(chain[..FIXUP_HEIGHT]).value.blocks| == FIXUP_HEIGHT
  {
    hide Grow, PopMany, Agreeing, Like, RctHeight, Excess, Consistent;
    GrowConsistent(chain);
    var s, k := Grow(chain).value, |chain| - FIXUP_HEIGHT;
    GrowPrefix(chain, FIXUP_HEIGHT);
    GrowConsistent(chain[..FIXUP_HEIGHT]);
    PopManyLosing(s, lost, k);
    PopManyUndoesIff(chain, k);
    ExcessIff(chain[FIXUP_HEIGHT..]);
    LikeItself(s);
    LoseKeepsHeight(Grow(chain[..FIXUP_HEIGHT]).value, lost);
    if PopMany(s, k).Success? {
      PopManyLike(chain, k, s);
      LoseKeepsHeight(PopMany(s, k).value.store, lost);
    }
  }

  lemma LoseKeepsHeight(s: Store, lost: set<KeyImage>)
    ensures RctHeight(Lose(s, lost)) == RctHeight(s)
    ensures s.spent !! lost ==> Lose(s, lost) == s
  {
  }

  lemma {:induction false} AddTransactionsMark(s: Store, hashes: seq<Hash>, txs: seq<Transaction>, n: nat)
    requires n <= |txs| == |hashes|
    ensures var r := AddTransactions(s, hashes, txs, n);
            r.Success? ==> s.spent <= r.value.spent && forall j :: 0 <= j < n ==> KeyImages(txs[j].vin) <= r.value.spent
  {
    hide AddTransaction, KeyImages;
    if n > 0 {
      AddTransactionsMark(s, hashes, txs, n - 1);
      var r := AddTransactions(s, hashes, txs, n - 1);
      if r.Success? {
        AddTransactionMarks(r.value, hashes[n - 1], txs[n - 1]);
      }
    }
  }

  lemma AddTransactionMarks(s: Store, txHash: Hash, tx: Transaction)
    ensures var r := AddTransaction(s, txHash, tx); r.Success? ==> r.value.spent == s.spent + KeyImages(tx.vin)
  {
    hide SpendInputs, AddOutputs, KeyImages;
    SpendAll(s.spent, tx.vin);
  }

  lemma {:induction false} GrowMarks(chain: seq<Entry>, i: nat, j: nat)
    requires Grow(chain).Success? && i < |chain| && j < |chain[i].txs|
    ensures KeyImages(chain[i].txs[j].vin) <= Grow(chain).value.spent
  {
    hide AddTransaction, AddTransactions, KeyImages, NumRctOuts;
    var before, e := chain[..|chain| - 1], chain[|chain| - 1];
    var s := Grow(before).value;
    AddTransactionMarks(s, e.block.minerTx.hash, e.block.minerTx);
    AddTransactionsMark(AddTransaction(s, e.block.minerTx.hash, e.block.minerTx).value,
                        e.block.txHashes, e.txs, |e.txs|);
    if i < |chain| - 1 {
      GrowMarks(before, i, j);
    }
  }

  /** A chain that holds a transaction with the key image, and was stored with it, is left alone. */
  lemma FixupLeavesCompleteChains(chain: seq<Entry>, i: nat, j: nat, readOnly: bool)
    requires Grow(chain).Success? && i < |chain| && j < |chain[i].txs|
    requires FIRST_MISSING_KEY_IMAGE in KeyImages(chain[i].txs[j].vin)
    ensures Fixed(Grow(chain).value, readOnly) == Success(Grow(chain).value)
  {
    hide Grow, PopMany, KeyImages, Consistent;
    GrowMarks(chain, i, j);
    GrowConsistent(chain);
  }

  // ----- any run

  datatype Step = Add(entry: Entry) | Pop

  function Run(steps: seq<Step>): Result<Store, DbError> {
    if steps == [] then Success(EMPTY_STORE) else
    match Run(steps[..|steps| - 1])
    case Failure(e) => Failure(e)
    case Success(s) =>
      match steps[|steps| - 1]
      case Add(e) => AddBlock(s, e.block, e.txs)
      case Pop =>
        match PopBlock(s)
        case Failure(err) => Failure(err)
        case Success(p) => Success(p.store)
  }

  /** The blocks added and not popped. */
  function Net(steps: seq<Step>): seq<Entry> {
    if steps == [] then [] else
    var before := Net(steps[..|steps| - 1]);
    match steps[|steps| - 1]
    case Add(e) => before + [e]
    case Pop => if before == [] then [] else before[..|before| - 1]
  }

  /** The blocks popped, in order. */
  function PoppedEntries(steps: seq<Step>): seq<Entry> {
    if steps == [] then [] else
    var popped, before := PoppedEntries(steps[..|steps| - 1]), Net(steps[..|steps| - 1]);
    if steps[|steps| - 1].Add? || before == [] then popped else popped + [before[|before| - 1]]
  }

  lemma PopOfNothing(r: Store)
    requires Like(r, EMPTY_STORE)
    ensures PopBlock(r).Failure?
  {
  }

  lemma GrowNone()
    ensures Grow([]) == Success(EMPTY_STORE)
  {
  }

  /** Whatever the order of additions and pops, the store is like the one that the blocks not popped
      make, with as many outputs too many under amount 0 as the rules differ by for the popped blocks. */
  lemma {:induction false} RunIsLikeNet(steps: seq<Step>)
    requires Run(steps).Success?
    ensures Grow(Net(steps)).Success? && Like(Run(steps).value, Grow(Net(steps)).value)
    ensures RctHeight(Run(steps).value) == RctHeight(Grow(Net(steps)).value) + Excess(PoppedEntries(steps))
  {
    hide AddBlock, PopBlock, Like, RctHeight, Grow, Excess;
    if steps == [] {
      GrowNone();
      LikeItself(EMPTY_STORE);
      ExcessIff([]);
    } else {
      var before := steps[..|steps| - 1];
      RunIsLikeNet(before);
      match steps[|steps| - 1]
      case Add(e) => StepAdds(Run(before).value, Net(before), e);
      case Pop => StepPops(Run(before).value, Net(before), PoppedEntries(before));
    }
  }

  lemma StepAdds(r: Store, chain: seq<Entry>, e: Entry)
    requires Grow(chain).Success? && Like(r, Grow(chain).value) && AddBlock(r, e.block, e.txs).Success?
    ensures Grow(chain + [e]).Success? && Like(AddBlock(r, e.block, e.txs).value, Grow(chain + [e]).value)
    ensures RctHeight(AddBlock(r, e.block, e.txs).value) - RctHeight(Grow(chain + [e]).value)
         == RctHeight(r) - RctHeight(Grow(chain).value)
  {
    hide AddBlock, Like, RctHeight, BlockStored;
    AddBlockLike(r, Grow(chain).value, e.block, e.txs);
    AddBlockRct(r, e.block, e.txs);
    AddBlockRct(Grow(chain).value, e.block, e.txs);
    assert (chain + [e])[..|chain|] == chain;
  }

  /** Of the last block, what was stored under amount 0 and is not looked for there stays. */
  lemma StepPopsLast(r: Store, chain: seq<Entry>)
    requires chain != [] && Grow(chain).Success? && Like(r, Grow(chain).value) && PopBlock(r).Success?
    ensures Grow(chain[..|chain| - 1]).Success?
    ensures Like(PopBlock(r).value.store, Grow(chain[..|chain| - 1]).value)
    ensures var e := chain[|chain| - 1];
            RctHeight(PopBlock(r).value.store) + RctHeight(Grow(chain).value) + BlockRemoved(e.block, e.txs) ==
            RctHeight(Grow(chain[..|chain| - 1]).value) + RctHeight(r) + BlockStored(e.block, e.txs)
  {
    hide PopBlock, Like, RctHeight, BlockStored, BlockRemoved, Grow;
    PopLastLike(chain, r);
    GrowRct(chain);
  }

  lemma ExcessNext(popped: seq<Entry>, e: Entry)
    ensures Excess(popped + [e]) == Excess(popped) + BlockStored(e.block, e.txs) - BlockRemoved(e.block, e.txs)
  {
    hide BlockStored, BlockRemoved;
    assert (popped + [e])[..|popped|] == popped;
  }

  lemma StepPops(r: Store, chain: seq<Entry>, popped: seq<Entry>)
    requires Grow(chain).Success? && Like(r, Grow(chain).value) && PopBlock(r).Success?
    requires RctHeight(r) == RctHeight(Grow(chain).value) + Excess(popped)
    ensures chain != [] && Grow(chain[..|chain| - 1]).Success?
    ensures Like(PopBlock(r).value.store, Grow(chain[..|chain| - 1]).value)
    ensures RctHeight(PopBlock(r).value.store)
         == RctHeight(Grow(chain[..|chain| - 1]).value) + Excess(popped + [chain[|chain| - 1]])
  {
    hide PopBlock, Like, RctHeight, Grow, Excess;
    if chain == [] {
      GrowNone();
      PopOfNothing(r);
    } else {
      StepPopsLast(r, chain);
      ExcessNext(popped, chain[|chain| - 1]);
    }
  }

  /** Where the rules agree for the popped blocks, the store is the one that the others make. */
  lemma {:induction false} RunIsNet(steps: seq<Step>)
    requires Run(steps).Success? && Agreeing(PoppedEntries(steps))
    ensures Grow(Net(steps)) == Run(steps)
  {
    hide AddBlock, PopBlock, EntryAgrees, Like, RctHeight, Excess;
    if steps != [] {
      var before := steps[..|steps| - 1];
      assert forall i :: 0 <= i < |PoppedEntries(before)| ==> PoppedEntries(before)[i] == PoppedEntries(steps)[i];
      RunIsNet(before);
      RunIsLikeNet(before);
      match steps[|steps| - 1]
      case Add(e) =>
        assert (Net(before) + [e])[..|Net(before)|] == Net(before);
      case Pop =>
        if Net(before) == [] {
          LikeItself(EMPTY_STORE);
          PopOfNothing(EMPTY_STORE);
        } else {
          assert PoppedEntries(steps)[|PoppedEntries(before)|] == Net(before)[|Net(before)| - 1];
          PopLast(Net(before));
        }
    }
  }

  /** Whatever the order of additions and pops, the store is the one that the blocks not popped make,
      exactly when the rules agree for all blocks popped. */
  lemma RunIsNetIff(steps: seq<Step>)
    requires Run(steps).Success?
    ensures Grow(Net(steps)) == Run(steps) <==> Agreeing(PoppedEntries(steps))
  {
    hide Run, Grow, Net, PoppedEntries, Agreeing, Like, RctHeight, Excess;
    RunIsLikeNet(steps);
    ExcessIff(PoppedEntries(steps));
    if Agreeing(PoppedEntries(steps)) {
      RunIsNet(steps);
    }
  }

  // ----- what a store holds

  /** The number of inputs that spend an output. */
  function Spends(vin: seq<TxIn>): nat {
    if vin == [] then 0 else Spends(vin[..|vin| - 1]) + if vin[|vin| - 1].ToKey? then 1 else 0
  }

  function SpendsOfAll(txs: seq<Transaction>): nat {
    if txs == [] then 0 else SpendsOfAll(txs[..|txs| - 1]) + Spends(txs[|txs| - 1].vin)
  }

  function SpendsOfChain(chain: seq<Entry>): nat {
    if chain == [] then 0 else
    var e := chain[|chain| - 1];
    SpendsOfChain(chain[..|chain| - 1]) + Spends(e.block.minerTx.vin) + SpendsOfAll(e.txs)
  }

  lemma {:induction false} SpendInputsCount(spent: set<KeyImage>, vin: seq<TxIn>, n: nat)
    requires n <= |vin|
    ensures SpendInputs(spent, vin, n).Success? ==> |SpendInputs(spent, vin, n).value| == |spent| + Spends(vin[..n])
  {
    if n > 0 {
      SpendInputsCount(spent, vin, n - 1);
      assert vin[..n][..n - 1] == vin[..n - 1];
    }
  }

  lemma AddTransactionSpends(s: Store, txHash: Hash, tx: Transaction)
    ensures var r := AddTransaction(s, txHash, tx); r.Success? ==> |r.value.spent| == |s.spent| + Spends(tx.vin)
  {
    hide SpendInputs, AddOutputs;
    SpendInputsCount(s.spent, tx.vin, |tx.vin|);
    assert tx.vin[..|tx.vin|] == tx.vin;
  }

  lemma {:induction false} AddTransactionsSpends(s: Store, hashes: seq<Hash>, txs: seq<Transaction>, n: nat)
    requires n <= |txs| == |hashes|
    ensures var r := AddTransactions(s, hashes, txs, n); r.Success? ==>
              |r.value.spent| == |s.spent| + SpendsOfAll(txs[..n])
  {
    hide AddTransaction, Spends;
    if n > 0 {
      AddTransactionsSpends(s, hashes, txs, n - 1);
      assert txs[..n][..n - 1] == txs[..n - 1];
      if AddTransactions(s, hashes, txs, n - 1).Success? {
        AddTransactionSpends(AddTransactions(s, hashes, txs, n - 1).value, hashes[n - 1], txs[n - 1]);
      }
    }
  }

  lemma AddBlockSpends(s: Store, b: Block, txs: seq<Transaction>)
    ensures var r := AddBlock(s, b, txs);
            r.Success? ==> |r.value.spent| == |s.spent| + Spends(b.minerTx.vin) + SpendsOfAll(txs)
  {
    hide AddTransaction, AddTransactions, Spends, SpendsOfAll, NumRctOuts;
    if AddBlock(s, b, txs).Success? {
      AddTransactionSpends(s, b.minerTx.hash, b.minerTx);
      AddTransactionsSpends(AddTransaction(s, b.minerTx.hash, b.minerTx).value, b.txHashes, txs, |txs|);
      assert txs[..|txs|] == txs;
    }
  }

  /** No two inputs of a stored chain have the same key image: there are as many images as inputs. */
  lemma {:induction false} NoDoubleSpends(chain: seq<Entry>)
    requires Grow(chain).Success?
    ensures |Grow(chain).value.spent| == SpendsOfChain(chain)
  {
    hide AddBlock, Spends, SpendsOfAll;
    if chain != [] {
      NoDoubleSpends(chain[..|chain| - 1]);
      AddBlockSpends(Grow(chain[..|chain| - 1]).value, chain[|chain| - 1].block, chain[|chain| - 1].txs);
    }
  }

  /** Also when blocks have been popped in between, whether the rules agree or not. */
  lemma RunHasNoDoubleSpends(steps: seq<Step>)
    requires Run(steps).Success?
    ensures |Run(steps).value.spent| == SpendsOfChain(Net(steps))
  {
    hide Run, Grow, SpendsOfChain, Net, RctHeight, Excess;
    RunIsLikeNet(steps);
    NoDoubleSpends(Net(steps));
  }
}
