/**
 The saved state of the ancestry tool, with three optional caches in front of the database.
 */
module AncestryState {
  import opened AncestryDb
  import opened Wrappers

  datatype Options = Options(cacheOutputs: bool, cacheTxes: bool, cacheBlocks: bool, includeCoinbase: bool)

  /** How a pass or a walk ends: at its goal, at the signal to stop, or at something it cannot find. */
  datatype End = Finished | Stopped | Failed

  type Ancestry = map<Hash, set<Output>>

  /** What the tool knows about a transaction; one without an entry counts as having no ancestors. */
  function Entry(ancestry: Ancestry, t: Hash): set<Output> {
    if t in ancestry then ancestry[t] else {}
  }

  /** The block a resized cache holds where none was stored. */
  const NO_BLOCK := Block(Transaction([], []), 0, [])

  function Resized(cache: seq<Block>, n: nat): (r: seq<Block>)
    ensures |r| == n
    ensures forall i :: 0 <= i < n ==> r[i] == if i < |cache| then cache[i] else NO_BLOCK
  {
    seq(n, i requires 0 <= i < n => if i < |cache| then cache[i] else NO_BLOCK)
  }

  class State {
    var height: nat
    var ancestry: Ancestry
    var outputCache: map<Output, Hash>
    var txCache: map<Hash, TxData>
    var blockCache: seq<Block>

    constructor ()
      ensures height == 0 && ancestry == map[] && outputCache == map[] && txCache == map[] && blockCache == []
    {
      height, ancestry, outputCache, txCache, blockCache := 0, map[], map[], map[], [];
    }

    /** Everything cached is what the database holds. A block without miner inputs is no cache entry. */
    ghost predicate CachesAgree(db: Db)
      reads this
    {
      && (forall o :: o in outputCache ==> GetOutputTxid(db, o) == Some(outputCache[o]))
      && (forall t :: t in txCache ==> GetTx(db, t) == Some(txCache[t]))
      && forall h :: 0 <= h < |blockCache| && blockCache[h].minerTx.vin != [] ==> GetBlock(db, h) == Some(blockCache[h])
    }

    /** The block cache has an entry for the height. */
    predicate CachedBlock(h: nat)
      reads `blockCache
    {
      h < |blockCache| && blockCache[h].minerTx.vin != []
    }

    method StoreBlock(db: Db, opt: Options, h: nat, b: Block)
      requires CachesAgree(db) && GetBlock(db, h) == Some(b)
      modifies `blockCache
      ensures CachesAgree(db)
      ensures blockCache == if opt.cacheBlocks then Resized(old(blockCache), h + 1)[h := b] else old(blockCache)
    {
      if opt.cacheBlocks {
        blockCache := Resized(blockCache, h + 1);
        blockCache := blockCache[h := b];
      }
    }

    method GetBlockFromHeight(db: Db, opt: Options, h: nat) returns (r: Option<Block>)
      requires CachesAgree(db)
      modifies `blockCache
      ensures CachesAgree(db)
      ensures r == GetBlock(db, h)
      ensures blockCache == if r.Some? && opt.cacheBlocks && !old(CachedBlock(h))
                            then Resized(old(blockCache), h + 1)[h := r.value]
                            else old(blockCache)
    {
      if |blockCache| > h && blockCache[h].minerTx.vin != [] {
        return Some(blockCache[h]);
      }
      if h !in db.blocks {
        return None;
      }
      var b := db.blocks[h];
      StoreBlock(db, opt, h, b);
      return Some(b);
    }

    method GetTransaction(db: Db, opt: Options, txid: Hash) returns (r: Option<TxData>)
      requires CachesAgree(db)
      modifies `txCache
      ensures CachesAgree(db)
      ensures r == GetTx(db, txid)
      ensures txCache == if r.Some? && opt.cacheTxes then old(txCache)[txid := r.value] else old(txCache)
    {
      if txid in txCache {
        return Some(txCache[txid]);
      }
      if txid !in db.txs {
        return None;
      }
      r := TxDataOf(db.txs[txid]);
      if r.Some? && opt.cacheTxes {
        txCache := txCache[txid := r.value];
      }
    }

    method StoreOutput(db: Db, opt: Options, o: Output, txid: Hash)
      requires CachesAgree(db) && AncestryDb.GetOutputTxid(db, o) == Some(txid)
      modifies `outputCache
      ensures CachesAgree(db)
      ensures outputCache == if opt.cacheOutputs then old(outputCache)[o := txid] else old(outputCache)
    {
      if opt.cacheOutputs {
        outputCache := outputCache[o := txid];
      }
    }

    method FindOutputTxid(db: Db, opt: Options, o: Output) returns (r: Option<Hash>)
      requires CachesAgree(db)
      modifies `outputCache, `txCache, `blockCache
      ensures CachesAgree(db)
      ensures r == AncestryDb.GetOutputTxid(db, o)
      ensures outputCache == if r.Some? && opt.cacheOutputs then old(outputCache)[o := r.value] else old(outputCache)
    {
      hide GetTx;
      if o in outputCache {
        return Some(outputCache[o]);
      }
      if o !in db.outputs {
        return None;
      }
      var od := db.outputs[o];
      var found := GetBlockFromHeight(db, opt, od.height);
      if found.None? {
        return None;
      }
      var b := found.value;
      var out := 0;
      while out < |b.minerTx.vout|
        invariant 0 <= out <= |b.minerTx.vout|
        invariant SearchOutputs(b.minerTx.vout[out..], od.pubkey) == SearchOutputs(b.minerTx.vout, od.pubkey)
      {
        if b.minerTx.vout[out].OtherOut? {
          return None;
        }
        if b.minerTx.vout[out].key == od.pubkey {
          StoreOutput(db, opt, o, b.minerHash);
          return Some(b.minerHash);
        }
        assert b.minerTx.vout[out..][1..] == b.minerTx.vout[out + 1..];
        out := out + 1;
      }
      var i := 0;
      while i < |b.txHashes|
        invariant 0 <= i <= |b.txHashes|
        invariant CachesAgree(db) && outputCache == old(outputCache)
        invariant SearchTxs(db, b.txHashes[i..], od.pubkey) == SearchTxs(db, b.txHashes, od.pubkey)
        invariant AncestryDb.GetOutputTxid(db, o) == SearchTxs(db, b.txHashes, od.pubkey)
      {
        var tx := GetTransaction(db, opt, b.txHashes[i]);
        if tx.None? {
          return None;
        }
        var pays := HasKey(tx.value.vout, od.pubkey);
        if pays {
          StoreOutput(db, opt, o, b.txHashes[i]);
          return Some(b.txHashes[i]);
        }
        assert b.txHashes[i..][1..] == b.txHashes[i + 1..];
        i := i + 1;
      }
      return None;
    }

    /** Joins ancestors into the entry of txid, which is made when there is none. */
    method AddAncestry(txid: Hash, ancestors: set<Output>)
      modifies `ancestry
      ensures ancestry == old(ancestry)[txid := Entry(old(ancestry), txid) + ancestors]
    {
      if txid !in ancestry {
        ancestry := ancestry[txid := ancestors];
        assert ancestry[txid] == Entry(old(ancestry), txid) + ancestors;
      } else {
        ancestry := ancestry[txid := ancestry[txid] + ancestors];
      }
    }

    /** Adds one ancestor to the entry of txid. */
    method AddOneAncestor(txid: Hash, ancestor: Output)
      modifies `ancestry
      ensures ancestry == old(ancestry)[txid := Entry(old(ancestry), txid) + {ancestor}]
    {
      if txid !in ancestry {
        ancestry := ancestry[txid := {}];
      }
      ancestry := ancestry[txid := ancestry[txid] + {ancestor}];
    }
  }

  method HasKey(vout: seq<Key>, key: Key) returns (found: bool)
    ensures found <==> key in vout
  {
    var out := 0;
    while out < |vout|
      invariant 0 <= out <= |vout|
      invariant key !in vout[..out]
    {
      if vout[out] == key {
        return true;
      }
      out := out + 1;
    }
    return false;
  }
}
