/**
 A database that has grown since the state was saved: what was known about the old chain still holds.
 */
module AncestryGrowth {
  import opened AncestryDb
  import opened AncestryGraph
  import opened AncestryRefresh
  import opened AncestryState
  import opened Wrappers

  /** The later database has everything of the earlier one. */
  ghost predicate Extends(old': Db, db: Db) {
    && old'.height <= db.height
    && (forall h :: h in old'.blocks ==> h in db.blocks && db.blocks[h] == old'.blocks[h])
    && (forall t :: t in old'.txs ==> t in db.txs && db.txs[t] == old'.txs[t])
    && forall o :: o in old'.outputs ==> o in db.outputs && db.outputs[o] == old'.outputs[o]
  }

  // ----- lookups that succeeded go on to give the same

  lemma TxKept(old': Db, db: Db, t: Hash)
    requires Extends(old', db) && GetTx(old', t).Some?
    ensures GetTx(db, t) == GetTx(old', t) && Members(db, t) == Members(old', t)
  {
  }

  lemma {:induction false} SearchKept(old': Db, db: Db, hashes: seq<Hash>, key: Key)
    requires Extends(old', db) && SearchTxs(old', hashes, key).Some?
    ensures SearchTxs(db, hashes, key) == SearchTxs(old', hashes, key)
  {
    hide GetTx, Extends;
    TxKept(old', db, hashes[0]);
    if key !in GetTx(old', hashes[0]).value.vout {
      SearchKept(old', db, hashes[1..], key);
    }
  }

  lemma CreatorKept(old': Db, db: Db, o: Output)
    requires Extends(old', db) && Creator(old', o).Some?
    ensures Creator(db, o) == Creator(old', o)
  {
    hide SearchTxs, SearchOutputs;
    var od := old'.outputs[o];
    var b := old'.blocks[od.height];
    if SearchTxs(old', b.txHashes, od.pubkey).Some? {
      SearchKept(old', db, b.txHashes, od.pubkey);
    }
  }

  /** Whatever is cached for the earlier database is right for the later one. */
  lemma CachesKept(state: State, old': Db, db: Db)
    requires Extends(old', db) && state.CachesAgree(old')
    ensures state.CachesAgree(db)
  {
    hide GetTx, GetOutputTxid;
    forall o | o in state.outputCache
      ensures GetOutputTxid(db, o) == Some(state.outputCache[o])
    {
      CreatorOutput(old', o);
      CreatorOutput(db, o);
      CreatorKept(old', db, o);
    }
    forall t | t in state.txCache
      ensures GetTx(db, t) == Some(state.txCache[t])
    {
      TxKept(old', db, t);
    }
  }

  lemma CreatorOutput(db: Db, o: Output)
    ensures Creator(db, o) == GetOutputTxid(db, o)
  {
    hide GetOutputTxid;
  }

  // ----- ancestors stay the same

  lemma StepKept(old': Db, db: Db, t: Hash, k: nat)
    requires Extends(old', db) && Closed(old') && GetTx(old', t).Some? && k < |Members(old', t)|
    ensures Members(db, t) == Members(old', t)
    ensures var m := Members(old', t)[k];
            Creator(db, m) == Creator(old', m) && Creator(old', m).Some? && GetTx(old', Creator(old', m).value).Some?
  {
    hide Members, Creator, GetTx, Extends;
    TxKept(old', db, t);
    CreatorKept(old', db, Members(old', t)[k]);
  }

  lemma {:induction false} PathKept(old': Db, db: Db, t: Hash, p: seq<nat>, o: Output)
    requires Extends(old', db) && Closed(old') && GetTx(old', t).Some?
    ensures LeadsTo(db, t, p, o) <==> LeadsTo(old', t, p, o)
    decreases |p|
  {
    hide Members, Creator, GetTx, Extends, Closed;
    TxKept(old', db, t);
    if p != [] && p[0] < |Members(old', t)| {
      StepKept(old', db, t, p[0]);
      if |p| > 1 {
        PathKept(old', db, Creator(old', Members(old', t)[p[0]]).value, p[1..], o);
      }
    }
  }

  lemma AncestorsKept(old': Db, db: Db, t: Hash)
    requires Extends(old', db) && Closed(old') && Closed(db) && GetTx(old', t).Some?
    ensures Ancestors(db, t) == Ancestors(old', t)
  {
    hide Ancestors, LeadsTo, Closed, GetTx, Extends;
    forall o
      ensures o in Ancestors(db, t) <==> o in Ancestors(old', t)
    {
      InAncestors(old', t, o);
      InAncestors(db, t, o);
      forall p: seq<nat>
        ensures LeadsTo(db, t, p, o) <==> LeadsTo(old', t, p, o)
      {
        PathKept(old', db, t, p, o);
      }
    }
  }

  // ----- saved states stay good

  lemma {:induction false} TxidsKept(old': Db, db: Db, coinbase: bool, height: nat)
    requires Extends(old', db) && BlocksThere(old') && height <= old'.height
    ensures TxidsBelow(db, coinbase, height) == TxidsBelow(old', coinbase, height)
  {
    hide BlockTxids;
    if height > 0 {
      TxidsKept(old', db, coinbase, height - 1);
    }
  }

  lemma CompleteKept(old': Db, db: Db, visited: set<Hash>)
    requires Extends(old', db) && Closed(old') && Closed(db) && forall t :: t in visited ==> GetTx(old', t).Some?
    ensures Complete(db, visited) == Complete(old', visited)
  {
    hide Ancestors, Members, GetTx, Closed, Extends;
    forall t | t in visited
      ensures GetsEntry(db, t) == GetsEntry(old', t) && Ancestors(db, t) == Ancestors(old', t)
    {
      TxKept(old', db, t);
      AncestorsKept(old', db, t);
    }
  }

  /** A state saved for a shorter chain is one that a pass over the longer chain can start from. */
  lemma SavedKept(old': Db, db: Db, height: nat, ancestry: Ancestry, visited: set<Hash>)
    requires Extends(old', db) && Closed(old') && Closed(db) && BlocksThere(old')
    requires SavedWith(old', height, ancestry, visited)
    ensures SavedWith(db, height, ancestry, visited)
  {
    hide Complete, Closed, GetTx, TxidsBelow, BlocksThere;
    if !(height == 0 && ancestry == map[] && visited == {}) {
      TxidsKept(old', db, false, height + 1);
      TxidsKept(old', db, true, height + 1);
      CompleteKept(old', db, visited);
      forall t | t in visited
        ensures GetTx(db, t).Some?
      {
        TxKept(old', db, t);
      }
    }
  }
}
