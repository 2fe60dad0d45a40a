/**
 The forward pass: block by block, the ancestors of each transaction are those of its ring members'
 creators, and the ring members.
 */
module AncestryRefresh {
  import opened AncestryDb
  import opened AncestryGraph
  import opened AncestryState
  import opened Wrappers

  // ----- what the pass computes

  function BlockTxids(b: Block, coinbase: bool): seq<Hash> {
    (if coinbase then [b.minerHash] else []) + b.txHashes
  }

  /** The transactions the pass visits in the blocks below a height, in order. */
  function TxidsBelow(db: Db, coinbase: bool, height: nat): seq<Hash> {
    if height == 0 then [] else
    TxidsBelow(db, coinbase, height - 1)
    + match GetBlock(db, height - 1) { case Some(b) => BlockTxids(b, coinbase) case None => [] }
  }

  function ToSet(ids: seq<Hash>): set<Hash> {
    set t | t in ids
  }

  predicate GetsEntry(db: Db, t: Hash) {
    GetTx(db, t).Some? && (GetTx(db, t).value.coinbase || Members(db, t) != [])
  }

  /** The ancestry map with the full transitive closure for a set of visited transactions. */
  ghost function Complete(db: Db, visited: set<Hash>): Ancestry {
    map t | t in visited && GetsEntry(db, t) :: Ancestors(db, t)
  }

  predicate MinerWithoutRings(db: Db, height: nat) {
    GetBlock(db, height).Some? ==> Members(db, GetBlock(db, height).value.minerHash) == []
  }

  ghost predicate BlocksThere(db: Db) {
    forall h :: 0 <= h < db.height ==> GetBlock(db, h).Some?
  }

  /** The blocks are all there and can be read, miner transactions have no rings, and rings name outputs
      of earlier transactions. */
  ghost predicate Chain(db: Db, coinbase: bool) {
    && BlocksThere(db)
    && (forall h :: 0 <= h < db.height ==> MinerWithoutRings(db, h))
    && (forall t :: t in TxidsBelow(db, coinbase, db.height) ==> GetTx(db, t).Some?)
    && Ordered(db, TxidsBelow(db, coinbase, db.height))
  }

  /** All transactions of the blocks below a height have been visited, and no others; of the miner
      transactions it may be any. */
  ghost predicate Covers(db: Db, height: nat, visited: set<Hash>) {
    && (forall t :: t in TxidsBelow(db, false, height) ==> t in visited)
    && forall t :: t in visited ==> t in TxidsBelow(db, true, height) && GetTx(db, t).Some?
  }

  /** A state that a pass can start from: new, or left by a pass, with whatever coinbase option. */
  ghost predicate SavedWith(db: Db, height: nat, ancestry: Ancestry, visited: set<Hash>) {
    || (height == 0 && ancestry == map[] && visited == {})
    || (height < db.height && Covers(db, height + 1, visited) && ancestry == Complete(db, visited))
  }

  /** What a pass visits in the blocks from one height to below another. */
  function VisitedBetween(db: Db, coinbase: bool, start: nat, end: nat): set<Hash> {
    if end <= start then {} else
    VisitedBetween(db, coinbase, start, end - 1)
    + match GetBlock(db, end - 1) { case Some(b) => ToSet(BlockTxids(b, coinbase)) case None => {} }
  }

  /** A pass visits the transactions of its blocks, and the miner transactions when told to include them. */
  lemma {:induction false} VisitedIff(db: Db, coinbase: bool, start: nat, end: nat, t: Hash)
    ensures t in VisitedBetween(db, coinbase, start, end)
       <==> exists h :: start <= h < end && h in db.blocks &&
              (t in db.blocks[h].txHashes || (coinbase && t == db.blocks[h].minerHash))
    decreases end
  {
    if start < end {
      VisitedIff(db, coinbase, start, end - 1, t);
    }
  }

  /** Every creator met while visiting t has been visited, or needs no visit. */
  ghost predicate Ready(db: Db, visited: set<Hash>, t: Hash) {
    && Closed(db)
    && forall k :: 0 <= k < |Members(db, t)| ==> CreatorDone(db, visited, t, Creator(db, Members(db, t)[k]))
  }

  predicate CreatorDone(db: Db, visited: set<Hash>, t: Hash, c: Option<Hash>) {
    c.Some? && c.value != t && (Members(db, c.value) == [] || c.value in visited)
  }

  lemma ReadyInOrder(db: Db, ids: seq<Hash>, i: nat, visited: set<Hash>)
    requires Ordered(db, ids) && i < |ids|
    requires forall t :: t in ids[..i] ==> t in visited || Members(db, t) == []
    ensures Ready(db, visited, ids[i])
  {
    hide Members, Creator, Rank, Closed;
    var t := ids[i];
    forall k | 0 <= k < |Members(db, t)|
      ensures CreatorDone(db, visited, t, Creator(db, Members(db, t)[k]))
    {
      assert NoMembersOrIn(db, Creator(db, Members(db, ids[i])[k]), ids[..i]);
      RankDrops(db, ids, t, k);
    }
  }

  /** An entry of a complete map reads as the ancestors, also when it is missing because there are none. */
  lemma EntryOfComplete(db: Db, visited: set<Hash>, t: Hash)
    requires t in visited || Members(db, t) == []
    ensures Entry(Complete(db, visited), t) == Ancestors(db, t)
  {
    hide Ancestors, Creator;
    if Members(db, t) == [] {
      NoMembersNoAncestors(db, t);
    }
  }

  // ----- one transaction

  /** The map while t is being visited, after k ring members. */
  ghost function Partial(db: Db, visited: set<Hash>, t: Hash, k: nat): Ancestry {
    var m := Complete(db, visited);
    if k == 0 then m else m[t := Entry(m, t) + AncestorsBefore(db, t, k)]
  }

  lemma PartialNext(db: Db, visited: set<Hash>, t: Hash, k: nat, m: Ancestry, m': Ancestry)
    requires Ready(db, visited, t) && k < |Members(db, t)|
    requires m == Partial(db, visited, t, k)[t := Entry(Partial(db, visited, t, k), t) + {Members(db, t)[k]}]
    requires Creator(db, Members(db, t)[k]).Some?
    requires m' == m[t := Entry(m, t) + Entry(m, Creator(db, Members(db, t)[k]).value)]
    ensures m' == Partial(db, visited, t, k + 1)
  {
    hide Members, Creator, Ancestors, AncestorsBefore, Complete, Closed;
    assert CreatorDone(db, visited, t, Creator(db, Members(db, t)[k]));
    var c := Creator(db, Members(db, t)[k]).value;
    EntryOfComplete(db, visited, c);
    AncestorsStart(db, t);
    AncestorsNext(db, t, k);
    var before := Complete(db, visited);
    var p := Partial(db, visited, t, k);
    assert Entry(p, t) == Entry(before, t) + AncestorsBefore(db, t, k);
    assert Entry(m, c) == Entry(before, c);
    assert Entry(m, t) + Entry(m, c) == Entry(before, t) + AncestorsBefore(db, t, k + 1);
    assert m' == before[t := Entry(before, t) + AncestorsBefore(db, t, k + 1)];
  }

  /** Visiting t adds its entry, whether it was there or not. */
  lemma CompleteAdd(db: Db, visited: set<Hash>, t: Hash)
    requires GetsEntry(db, t)
    ensures Complete(db, visited)[t := Entry(Complete(db, visited), t) + Ancestors(db, t)]
         == Complete(db, visited + {t})
  {
    hide GetsEntry, Ancestors;
    var m := Complete(db, visited);
    assert Entry(m, t) + Ancestors(db, t) == Ancestors(db, t);
  }

  lemma CompleteSkip(db: Db, visited: set<Hash>, t: Hash)
    requires !GetsEntry(db, t)
    ensures Complete(db, visited) == Complete(db, visited + {t})
  {
    hide GetsEntry, Ancestors;
  }

  lemma PartialAll(db: Db, visited: set<Hash>, t: Hash)
    requires GetTx(db, t).Some? && Members(db, t) != []
    ensures Partial(db, visited, t, |Members(db, t)|) == Complete(db, visited + {t})
  {
    hide Members, Creator, Ancestors, AncestorsBefore, Complete;
    AncestorsAll(db, t);
    CompleteAdd(db, visited, t);
  }

  lemma VisitedWithoutMembers(db: Db, visited: set<Hash>, t: Hash)
    requires GetTx(db, t).Some? && Members(db, t) == []
    ensures GetTx(db, t).value.coinbase ==>
              Complete(db, visited)[t := Entry(Complete(db, visited), t) + {}] == Complete(db, visited + {t})
    ensures !GetTx(db, t).value.coinbase ==> Complete(db, visited) == Complete(db, visited + {t})
  {
    hide Members, GetTx, Creator, Ancestors, Complete;
    NoMembersNoAncestors(db, t);
    if GetTx(db, t).value.coinbase {
      CompleteAdd(db, visited, t);
    } else {
      CompleteSkip(db, visited, t);
    }
  }

  lemma CoinbaseHasNoMembers(db: Db, t: Hash)
    requires GetTx(db, t).Some? && GetTx(db, t).value.coinbase
    ensures Members(db, t) == []
  {
  }

  /** One ring member: itself, and what the map holds for the transaction that created it. */
  method VisitMember(state: State, db: Db, opt: Options, txid: Hash, o: Output, ghost visited: set<Hash>, ghost k: nat)
      returns (ok: bool)
    requires state.CachesAgree(db)
    modifies state`ancestry, state`outputCache, state`txCache, state`blockCache
    ensures state.CachesAgree(db)
    ensures Ready(db, visited, txid) && k < |Members(db, txid)| && o == Members(db, txid)[k]
            && old(state.ancestry) == Partial(db, visited, txid, k) ==>
              ok && state.ancestry == Partial(db, visited, txid, k + 1)
  {
    hide Complete, Partial, Ready, Creator, Members, GetOutputTxid;
    ghost var good := Ready(db, visited, txid) && k < |Members(db, txid)| && o == Members(db, txid)[k]
                      && state.ancestry == Partial(db, visited, txid, k);
    state.AddOneAncestor(txid, o);
    ghost var m := state.ancestry;
    var creator := state.FindOutputTxid(db, opt, o);
    if good {
      ReadyCreator(db, visited, txid, k);
    }
    if creator.None? {
      return false;
    }
    state.AddAncestry(txid, Entry(state.ancestry, creator.value));
    if good {
      PartialNext(db, visited, txid, k, m, state.ancestry);
    }
    ok := true;
  }

  method VisitRings(state: State, db: Db, opt: Options, txid: Hash, tx: TxData,
      ghost visited: set<Hash>) returns (ok: bool)
    requires state.CachesAgree(db) && GetTx(db, txid) == Some(tx)
    modifies state`ancestry, state`outputCache, state`txCache, state`blockCache
    ensures state.CachesAgree(db)
    ensures Ready(db, visited, txid) && old(state.ancestry) == Complete(db, visited) ==>
              ok && state.ancestry == Partial(db, visited, txid, |Members(db, txid)|)
  {
    hide Complete, Partial, Ready, Members, GetTx, Flatten, RingOutputs;
    ghost var good := Ready(db, visited, txid) && state.ancestry == Complete(db, visited);
    MembersFlat(db, txid);
    FlattenNone(tx.vin);
    PartialStart(db, visited, txid);
    var ring := 0;
    while ring < |tx.vin|
      invariant 0 <= ring <= |tx.vin|
      invariant state.CachesAgree(db)
      invariant good ==> state.ancestry == Partial(db, visited, txid, |Flatten(tx.vin[..ring])|)
    {
      var amount := tx.vin[ring].amount;
      var offsets := tx.vin[ring].offsets;
      var i := 0;
      while i < |offsets|
        invariant 0 <= i <= |offsets|
        invariant state.CachesAgree(db)
        invariant good ==> state.ancestry == Partial(db, visited, txid, |Flatten(tx.vin[..ring])| + i)
      {
        FlattenAt(tx.vin, ring, i);
        ok := VisitMember(state, db, opt, txid, Output(amount, offsets[i]), visited, |Flatten(tx.vin[..ring])| + i);
        if !ok {
          return;
        }
        i := i + 1;
      }
      FlattenNext(tx.vin, ring);
      ring := ring + 1;
    }
    ok := true;
  }

  lemma PartialStart(db: Db, visited: set<Hash>, t: Hash)
    ensures Partial(db, visited, t, 0) == Complete(db, visited)
  {
    hide Complete;
  }

  lemma ReadyCreator(db: Db, visited: set<Hash>, t: Hash, k: nat)
    requires Ready(db, visited, t) && k < |Members(db, t)|
    ensures Creator(db, Members(db, t)[k]) == GetOutputTxid(db, Members(db, t)[k])
    ensures Creator(db, Members(db, t)[k]).Some?
  {
    hide Members, GetOutputTxid, Closed;
    assert CreatorDone(db, visited, t, Creator(db, Members(db, t)[k]));
  }

  method Visit(state: State, db: Db, opt: Options, txid: Hash, ghost visited: set<Hash>) returns (ok: bool)
    requires state.CachesAgree(db)
    modifies state`ancestry, state`outputCache, state`txCache, state`blockCache
    ensures state.CachesAgree(db)
    ensures GetTx(db, txid).Some? && Ready(db, visited, txid) && old(state.ancestry) == Complete(db, visited) ==>
              ok && state.ancestry == Complete(db, visited + {txid})
  {
    hide Complete, Partial, Ready, Members, GetTx;
    PartialStart(db, visited, txid);
    var tx := state.GetTransaction(db, opt, txid);
    if tx.None? {
      return false;
    }
    if tx.value.coinbase {
      CoinbaseHasNoMembers(db, txid);
      VisitedWithoutMembers(db, visited, txid);
      state.AddAncestry(txid, {});
      ok := true;
    } else {
      ok := VisitRings(state, db, opt, txid, tx.value, visited);
      if Members(db, txid) == [] {
        VisitedWithoutMembers(db, visited, txid);
      } else {
        PartialAll(db, visited, txid);
      }
    }
  }

  // ----- one block

  /** The transactions of a block are where `ids` says, after `n` others that have been visited. */
  ghost predicate BlockInOrder(db: Db, ids: seq<Hash>, n: nat, txids: seq<Hash>, visited: set<Hash>) {
    && Ordered(db, ids)
    && n + |txids| <= |ids| && ids[n..n + |txids|] == txids
    && (forall t :: t in ids ==> GetTx(db, t).Some?)
    && forall t :: t in ids[..n] ==> t in visited || Members(db, t) == []
  }

  lemma NextReady(db: Db, ids: seq<Hash>, n: nat, txids: seq<Hash>, visited: set<Hash>, j: nat)
    requires BlockInOrder(db, ids, n, txids, visited) && j < |txids|
    ensures GetTx(db, txids[j]).Some? && Ready(db, visited + ToSet(txids[..j]), txids[j])
  {
    hide Ordered, GetTx, Ready, Members;
    assert ids[n + j] == ids[n..n + |txids|][j] == txids[j];
    var seen := visited + ToSet(txids[..j]);
    forall t | t in ids[..n + j]
      ensures t in seen || Members(db, t) == []
    {
      var i :| 0 <= i < n + j && ids[..n + j][i] == t;
      if i < n {
        assert ids[..n][i] == t;
      } else {
        assert ids[n..n + |txids|][i - n] == t;
        assert txids[..j][i - n] == t;
      }
    }
    ReadyInOrder(db, ids, n + j, seen);
  }

  method VisitBlock(state: State, db: Db, opt: Options, txids: seq<Hash>, ghost ids: seq<Hash>, ghost n: nat,
                    ghost visited: set<Hash>) returns (ok: bool)
    requires state.CachesAgree(db)
    modifies state`ancestry, state`outputCache, state`txCache, state`blockCache
    ensures state.CachesAgree(db)
    ensures BlockInOrder(db, ids, n, txids, visited) && old(state.ancestry) == Complete(db, visited) ==>
              ok && state.ancestry == Complete(db, visited + ToSet(txids))
  {
    hide Complete, Ready, GetTx, BlockInOrder;
    ghost var good := BlockInOrder(db, ids, n, txids, visited) && state.ancestry == Complete(db, visited);
    var j := 0;
    assert visited + ToSet(txids[..0]) == visited;
    while j < |txids|
      invariant 0 <= j <= |txids|
      invariant state.CachesAgree(db)
      invariant good ==> state.ancestry == Complete(db, visited + ToSet(txids[..j]))
    {
      ghost var seen := visited + ToSet(txids[..j]);
      if good {
        NextReady(db, ids, n, txids, visited, j);
      }
      ok := Visit(state, db, opt, txids[j], seen);
      if !ok {
        return;
      }
      assert txids[..j + 1] == txids[..j] + [txids[j]];
      assert seen + {txids[j]} == visited + ToSet(txids[..j + 1]);
      j := j + 1;
    }
    assert txids[..j] == txids;
    ok := true;
  }

  // ----- the whole pass

  lemma {:induction false} TxidsBelowPrefix(db: Db, coinbase: bool, h: nat, height: nat)
    requires h <= height
    ensures TxidsBelow(db, coinbase, h) <= TxidsBelow(db, coinbase, height)
    decreases height
  {
    hide GetBlock;
    if h < height {
      TxidsBelowPrefix(db, coinbase, h, height - 1);
    }
  }

  /** Block h is next: all transactions of the blocks below it have been visited, and at most the
      transactions of the blocks up to the higher of h and the first block of the pass. */
  ghost predicate UpTo(db: Db, start: nat, h: nat, visited: set<Hash>) {
    && (forall t :: t in TxidsBelow(db, false, h) ==> t in visited)
    && forall t :: t in visited ==> t in TxidsBelow(db, true, if h <= start then start + 1 else h) && GetTx(db, t).Some?
  }

  lemma TxidsOfBlock(db: Db, coinbase: bool, h: nat)
    requires GetBlock(db, h).Some?
    ensures TxidsBelow(db, coinbase, h + 1) == TxidsBelow(db, coinbase, h) + BlockTxids(GetBlock(db, h).value, coinbase)
  {
    hide GetBlock, BlockTxids;
  }

  /** What a pass with coinbase entries visits beside the other transactions has no rings. */
  lemma {:induction false} NoOtherRings(db: Db, coinbase: bool, height: nat, t: Hash)
    requires height <= db.height && forall h :: 0 <= h < height ==> MinerWithoutRings(db, h)
    requires t in TxidsBelow(db, coinbase, height)
    ensures t in TxidsBelow(db, false, height) || Members(db, t) == []
  {
    hide GetBlock, Members;
    assert MinerWithoutRings(db, height - 1);
    if t in TxidsBelow(db, coinbase, height - 1) {
      NoOtherRings(db, coinbase, height - 1, t);
    }
  }

  lemma BlockNext(db: Db, coinbase: bool, start: nat, h: nat, visited: set<Hash>)
    requires Chain(db, coinbase) && UpTo(db, start, h, visited) && start <= h < db.height
    ensures GetBlock(db, h).Some?
    ensures var txids := BlockTxids(GetBlock(db, h).value, coinbase);
            && BlockInOrder(db, TxidsBelow(db, coinbase, db.height), |TxidsBelow(db, coinbase, h)|, txids, visited)
            && UpTo(db, start, h + 1, visited + ToSet(txids))
  {
    hide GetBlock, Ordered, BlockTxids, GetTx, TxidsBelow, UpTo, Members, MinerWithoutRings;
    var txids := BlockTxids(GetBlock(db, h).value, coinbase);
    TxidsOfBlock(db, coinbase, h);
    TxidsBelowPrefix(db, coinbase, h + 1, db.height);
    PrefixParts(TxidsBelow(db, coinbase, h), txids, TxidsBelow(db, coinbase, db.height));
    forall t | t in TxidsBelow(db, coinbase, h)
      ensures t in visited || Members(db, t) == []
    {
      NoOtherRings(db, coinbase, h, t);
      UpToStart(db, start, h, visited);
    }
    forall t | t in txids
      ensures GetTx(db, t).Some?
    {
      assert t in TxidsBelow(db, coinbase, db.height);
    }
    UpToNext(db, coinbase, start, h, visited);
  }

  lemma PrefixParts(a: seq<Hash>, b: seq<Hash>, ids: seq<Hash>)
    requires a + b <= ids
    ensures |a| + |b| <= |ids| && ids[..|a|] == a && ids[|a|..|a| + |b|] == b
  {
    assert ids[..|a| + |b|] == a + b;
  }

  lemma UpToStart(db: Db, start: nat, h: nat, visited: set<Hash>)
    requires UpTo(db, start, h, visited)
    ensures forall t :: t in TxidsBelow(db, false, h) ==> t in visited
  {
    hide TxidsBelow;
  }

  lemma UpToNext(db: Db, coinbase: bool, start: nat, h: nat, visited: set<Hash>)
    requires UpTo(db, start, h, visited) && start <= h && GetBlock(db, h).Some?
    requires forall t :: t in BlockTxids(GetBlock(db, h).value, coinbase) ==> GetTx(db, t).Some?
    ensures UpTo(db, start, h + 1, visited + ToSet(BlockTxids(GetBlock(db, h).value, coinbase)))
  {
    hide TxidsBelow, GetBlock, GetTx;
    TxidsOfBlock(db, false, h);
    TxidsOfBlock(db, true, h);
  }

  lemma UpToCovers(db: Db, start: nat, h: nat, visited: set<Hash>)
    requires UpTo(db, start, h, visited) && start < h
    ensures Covers(db, h, visited)
  {
    hide TxidsBelow;
  }

  lemma StartUpTo(db: Db, height: nat, ancestry: Ancestry, visited: set<Hash>)
    requires SavedWith(db, height, ancestry, visited)
    ensures UpTo(db, height, height, visited) && ancestry == Complete(db, visited)
    ensures height >= db.height ==> visited == {} && height == 0
  {
    hide GetBlock, GetsEntry, Ancestors, BlockTxids, GetTx;
    if visited != {} || height > 0 {
      TxidsBelowPrefix(db, false, height, height + 1);
    }
  }

  /** The first block at which the tool sees the signal to stop, if it is told to stop at all. */
  ghost predicate StopsAt(signal: nat -> bool, start: nat, end: nat, h: nat) {
    start <= h < end && signal(h) && forall i :: start <= i < h ==> !signal(i)
  }

  /** The refresh: from the saved height, which is visited again, to the height of the database or to
      where the tool is told to stop. `signal` says when it looks and finds that it should. */
  method Refresh(state: State, db: Db, opt: Options, signal: nat -> bool, ghost visited: set<Hash>)
      returns (end: End, ghost visited': set<Hash>)
    requires state.CachesAgree(db)
    modifies state
    ensures state.CachesAgree(db)
    ensures Chain(db, opt.includeCoinbase) && old(SavedWith(db, state.height, state.ancestry, visited)) ==>
              && end != Failed
              && SavedWith(db, state.height, state.ancestry, visited')
              && (old(state.height) < db.height ==>
                    visited' == visited + VisitedBetween(db, opt.includeCoinbase, old(state.height), state.height + 1))
              && (end == Stopped ==> StopsAt(signal, old(state.height), db.height, state.height))
              && (end == Finished ==> forall h :: old(state.height) <= h < db.height ==> !signal(h))
              && (end == Finished ==>
                    state.height == if old(state.height) < db.height then db.height - 1 else old(state.height))
              && (end == Finished ==> Covers(db, db.height, visited') && state.ancestry == Complete(db, visited'))
  {
    hide Complete, Chain, GetBlock, TxidsBelow, UpTo, BlockInOrder, BlockTxids, Covers, VisitedBetween;
    var coinbase := opt.includeCoinbase;
    ghost var good := Chain(db, coinbase) && SavedWith(db, state.height, state.ancestry, visited);
    visited' := visited;
    if good {
      StartUpTo(db, state.height, state.ancestry, visited);
    }
    var start := state.height;
    var h := start;
    NothingBetween(db, coinbase, start);
    while h < db.height
      invariant start <= h && (h <= db.height || h == start)
      invariant state.CachesAgree(db)
      invariant good ==> UpTo(db, start, h, visited') && state.ancestry == Complete(db, visited')
      invariant good ==> SavedWith(db, state.height, state.ancestry, visited')
      invariant good ==> visited' == visited + VisitedBetween(db, coinbase, start, h)
      invariant forall i :: start <= i < h ==> !signal(i)
      invariant state.height == if h == start then start else h - 1
      invariant good && h == start && start >= db.height ==> visited' == {} && start == 0
    {
      var ok;
      OneMoreBetween(db, coinbase, start, h);
      ok, visited' := RefreshBlock(state, db, opt, h, start, visited');
      if !ok {
        return Failed, visited';
      }
      if good {
        UpToCovers(db, start, h + 1, visited');
      }
      if signal(h) {
        return Stopped, visited';
      }
      h := h + 1;
    }
    if good {
      AtTheTop(db, start, h, visited');
    }
    end := Finished;
  }

  /** The body of the source's block loop. */
  method RefreshBlock(state: State, db: Db, opt: Options, h: nat, ghost start: nat, ghost visited: set<Hash>)
      returns (ok: bool, ghost visited': set<Hash>)
    requires state.CachesAgree(db)
    modifies state
    ensures state.CachesAgree(db)
    ensures ok ==> state.height == h
    ensures Chain(db, opt.includeCoinbase) && UpTo(db, start, h, visited) && start <= h < db.height
            && old(state.ancestry) == Complete(db, visited) ==>
              && ok && visited' == visited + VisitedBetween(db, opt.includeCoinbase, h, h + 1)
              && UpTo(db, start, h + 1, visited') && state.ancestry == Complete(db, visited')
  {
    hide Complete, Chain, GetBlock, TxidsBelow, UpTo, BlockInOrder, BlockTxids, VisitedBetween;
    var coinbase := opt.includeCoinbase;
    visited' := visited;
    var b := ReadBlock(db, h);
    if Chain(db, coinbase) && UpTo(db, start, h, visited) && start <= h < db.height {
      BlockNext(db, coinbase, start, h, visited);
    }
    if b.None? {
      return false, visited';
    }
    NothingBetween(db, coinbase, h);
    OneMoreBetween(db, coinbase, h, h);
    state.StoreBlock(db, opt, h, b.value);
    var txids := BlockTxids(b.value, coinbase);
    ok := VisitBlock(state, db, opt, txids, TxidsBelow(db, coinbase, db.height),
                       |TxidsBelow(db, coinbase, h)|, visited);
    if !ok {
      return;
    }
    visited' := visited + ToSet(txids);
    state.height := h;
  }

  lemma NothingBetween(db: Db, coinbase: bool, start: nat)
    ensures VisitedBetween(db, coinbase, start, start) == {}
  {
  }

  lemma OneMoreBetween(db: Db, coinbase: bool, start: nat, h: nat)
    requires start <= h
    ensures VisitedBetween(db, coinbase, start, h + 1)
         == VisitedBetween(db, coinbase, start, h) + VisitedBetween(db, coinbase, h, h + 1)
    ensures GetBlock(db, h).Some? ==>
              VisitedBetween(db, coinbase, h, h + 1) == ToSet(BlockTxids(GetBlock(db, h).value, coinbase))
  {
    hide GetBlock, BlockTxids, ToSet;
    NothingBetween(db, coinbase, h);
  }

  lemma AtTheTop(db: Db, start: nat, h: nat, visited: set<Hash>)
    requires UpTo(db, start, h, visited) && start <= h && db.height <= h && (h <= db.height || h == start)
    requires h == start && start >= db.height ==> visited == {} && start == 0
    ensures Covers(db, db.height, visited)
  {
    if h > start {
      UpToCovers(db, start, h, visited);
    }
  }

  /** The block at a height as the pass reads it, past the block cache. */
  method ReadBlock(db: Db, h: nat) returns (b: Option<Block>)
    ensures b == GetBlock(db, h)
  {
    if h in db.blocks {
      b := Some(db.blocks[h]);
    } else {
      b := None;
    }
  }

  /** With the same coinbase option throughout, stopping after any block and resuming visits what one
      uninterrupted pass visits, and so leaves the same map. */
  lemma {:induction false} ResumedIsWhole(db: Db, coinbase: bool, start: nat, end: nat)
    requires start <= end
    ensures VisitedBetween(db, coinbase, 0, end) == ToSet(TxidsBelow(db, coinbase, end))
    ensures start < end ==>
              var first := ToSet(TxidsBelow(db, coinbase, start + 1));
              first + VisitedBetween(db, coinbase, start, end) == ToSet(TxidsBelow(db, coinbase, end))
    decreases end
  {
    hide GetBlock, BlockTxids;
    if end > 0 {
      ResumedIsWhole(db, coinbase, if start < end then start else end - 1, end - 1);
      if start + 1 == end {
        NothingBetween(db, coinbase, start);
      }
    }
  }

  /** After a finished pass the map reads as the transitive closure for every transaction there is,
      with or without entries for the miner transactions. */
  lemma RefreshIsClosure(db: Db, coinbase: bool, visited: set<Hash>, t: Hash)
    requires Chain(db, coinbase) && Covers(db, db.height, visited)
    ensures Entry(Complete(db, visited), t) == Ancestors(db, t)
    ensures Members(db, t) != [] ==> t in visited
  {
    hide Complete, Members, Creator, Ancestors, Closed, TxidsBelow, MinerWithoutRings;
    if Members(db, t) != [] {
      NoOtherRings(db, coinbase, db.height, t);
    }
    EntryOfComplete(db, visited, t);
  }
}
