/**
 The whole tool: refresh, choice of the transactions to check, one walk for each.
 */
module AncestryTool {
  import opened AncestryCounts
  import opened AncestryDb
  import opened AncestryGraph
  import opened AncestryGrowth
  import opened AncestryState
  import opened Wrappers
  import Refresh = AncestryRefresh
  import Walk = AncestryWalk

  // ----- what to check

  datatype Query = ByTxid(txid: Hash) | ByOutput(output: Output) | ByHeight(height: nat)

  function Starts(db: Db, q: Query): Option<seq<Hash>> {
    match q
    case ByTxid(t) => Some([t])
    case ByOutput(o) => (match GetOutputTxid(db, o) case Some(t) => Some([t]) case None => None)
    case ByHeight(h) => match GetBlock(db, h) case Some(b) => Some(b.txHashes) case None => None
  }

  /** Asked for an output, the tool starts at one transaction, which pays to the output's key in the output's
      block; asked for a height, at all transactions of the block at that height but the miner's. */
  lemma StartsAreAskedFor(db: Db, q: Query, starts: seq<Hash>)
    requires Starts(db, q) == Some(starts)
    ensures q.ByTxid? ==> |starts| == 1 && starts[0] == q.txid
    ensures q.ByOutput? ==>
              && q.output in db.outputs && db.outputs[q.output].height in db.blocks && |starts| == 1
              && PaysTo(db, db.blocks[db.outputs[q.output].height], starts[0], db.outputs[q.output].pubkey)
    ensures q.ByHeight? ==>
              && q.height in db.blocks
              && (forall t :: t in starts <==> t in db.blocks[q.height].txHashes)
              && (db.blocks[q.height].minerHash !in db.blocks[q.height].txHashes ==>
                    db.blocks[q.height].minerHash !in starts)
  {
    hide GetTx, SearchTxs, SearchOutputs;
    if q.ByOutput? {
      var od := db.outputs[q.output];
      SearchOutputsFinds(db.blocks[od.height].minerTx.vout, od.pubkey);
      SearchTxsFinds(db, db.blocks[od.height].txHashes, od.pubkey);
    }
  }

  method StartTxids(state: State, db: Db, opt: Options, q: Query) returns (r: Option<seq<Hash>>)
    requires state.CachesAgree(db)
    modifies state`outputCache, state`txCache, state`blockCache
    ensures state.CachesAgree(db)
    ensures r == Starts(db, q)
  {
    match q
    case ByTxid(t) =>
      r := Some([t]);
    case ByOutput(o) =>
      var creator := state.FindOutputTxid(db, opt, o);
      r := if creator.None? then None else Some([creator.value]);
    case ByHeight(h) =>
      var b := Refresh.ReadBlock(db, h);
      r := if b.None? then None else Some(b.value.txHashes);
  }

  // ----- forward and backward agree

  lemma CompleteIsSound(db: Db, visited: set<Hash>)
    ensures Walk.Sound(db, Refresh.Complete(db, visited))
  {
    hide Ancestors, Refresh.GetsEntry;
  }

  lemma SavedIsSound(db: Db, height: nat, ancestry: Ancestry, visited: set<Hash>)
    requires Refresh.SavedWith(db, height, ancestry, visited)
    ensures Walk.Sound(db, ancestry)
  {
    hide Refresh.Complete, Refresh.Covers;
    if ancestry != map[] {
      CompleteIsSound(db, visited);
    }
  }

  /** The walks change nothing in a map that a refresh has completed. */
  lemma WalkKeepsComplete(db: Db, coinbase: bool, visited: set<Hash>, after: Ancestry)
    requires Refresh.Chain(db, coinbase) && Refresh.Covers(db, db.height, visited)
    requires Walk.Grown(db, Refresh.Complete(db, visited), after) && Walk.Sound(db, after)
    ensures after == Refresh.Complete(db, visited)
  {
    hide Ancestors, Members, Refresh.TxidsBelow, Refresh.Chain, GetTx, Refresh.Covers;
    var before := Refresh.Complete(db, visited);
    forall t | t in after
      ensures t in before && after[t] == before[t]
    {
      if Members(db, t) != [] {
        MembersNeedTx(db, t);
        Refresh.RefreshIsClosure(db, coinbase, visited, t);
      }
    }
  }

  lemma MembersNeedTx(db: Db, t: Hash)
    requires Members(db, t) != []
    ensures GetTx(db, t).Some?
  {
  }

  /** After a refresh, the outputs counted by a walk are those in the saved map. */
  lemma ForwardIsBackward(db: Db, coinbase: bool, visited: set<Hash>, start: Hash, counters: Walk.Counters)
    requires Refresh.Chain(db, coinbase) && Refresh.Covers(db, db.height, visited)
    requires Walk.Counted(db, Refresh.TxidsBelow(db, coinbase, db.height), start, counters)
    ensures counters.Keys == Entry(Refresh.Complete(db, visited), start)
  {
    hide Refresh.Chain, Refresh.Complete, Refresh.TxidsBelow, Refresh.Covers, Ancestors, Members;
    Refresh.RefreshIsClosure(db, coinbase, visited, start);
  }

  // ----- the run

  datatype Report = Report(start: Hash, counters: Walk.Counters, deduplicated: nat, full: nat)

  ghost predicate Right(db: Db, ids: seq<Hash>, r: Report) {
    && Walk.Counted(db, ids, r.start, r.counters)
    && r.deduplicated == |Ancestors(db, r.start)|
    && r.full == SumOver(r.counters.Keys, r.counters) % Walk.SIZE_RANGE
  }

  lemma CountedKeys(db: Db, ids: seq<Hash>, start: Hash, counters: Walk.Counters)
    requires Walk.Counted(db, ids, start, counters)
    ensures counters.Keys == Ancestors(db, start)
  {
    hide Ordered, Ancestors, PathsTo;
  }

  /** When the tool can be told to stop: after a block, or before a step of one of the walks. */
  datatype Moment = AfterBlock(height: nat) | BeforeStep(walk: nat, step: nat)

  method CheckAll(state: State, db: Db, opt: Options, starts: seq<Hash>, signal: Moment -> bool, ghost ids: seq<Hash>)
      returns (end: End, reports: seq<Report>)
    requires state.CachesAgree(db) && Walk.Sound(db, state.ancestry) && Ordered(db, ids)
    modifies state`ancestry, state`outputCache, state`txCache, state`blockCache
    ensures state.CachesAgree(db) && Walk.Sound(db, state.ancestry)
    ensures Walk.Grown(db, old(state.ancestry), state.ancestry)
    ensures |reports| <= |starts| && forall i :: 0 <= i < |reports| ==>
              reports[i].start == starts[i] && Right(db, ids, reports[i])
    ensures end == Finished ==> |reports| == |starts|
    ensures end == Failed ==> |reports| < |starts| && GetTx(db, starts[|reports|]).None?
  {
    hide Walk.Sound, Walk.Grown, Walk.Visits, Walk.CreatorsOf, Walk.Counted, Ordered, GetTx, SumOver, Ancestors, Paths;
    reports := [];
    Walk.GrownSelf(db, state.ancestry);
    while |reports| < |starts|
      invariant |reports| <= |starts|
      invariant state.CachesAgree(db) && Walk.Sound(db, state.ancestry)
      invariant Walk.Grown(db, old(state.ancestry), state.ancestry)
      invariant forall i :: 0 <= i < |reports| ==> reports[i].start == starts[i] && Right(db, ids, reports[i])
      decreases |starts| - |reports|
    {
      ghost var before := state.ancestry;
      var n := |reports|;
      var stop := (step: nat) => signal(BeforeStep(n, step));
      var counters: Walk.Counters, steps: nat;
      ghost var visited;
      end, counters, steps, visited := Walk.Walk(state, db, opt, starts[n], stop, ids);
      Walk.GrownTwice(db, old(state.ancestry), before, state.ancestry);
      if end != Finished {
        return;
      }
      var full := Walk.GetFullAncestry(counters);
      assert |counters| == |counters.Keys|;
      CountedKeys(db, ids, starts[n], counters);
      reports := reports + [Report(starts[n], counters, |counters|, full)];
    }
    end := Finished;
  }

  /** The state file was left by earlier runs: by passes over a chain of which the present one is an
      extension, with any coinbase option. */
  ghost predicate LeftBy(earlier: Db, db: Db, height: nat, ancestry: Ancestry, visited: set<Hash>) {
    && Extends(earlier, db) && Closed(earlier) && Refresh.BlocksThere(earlier)
    && Refresh.SavedWith(earlier, height, ancestry, visited)
  }

  /** One run of the tool on a chain, with or without a refresh. */
  method Run(state: State, db: Db, opt: Options, refresh: bool, q: Query, signal: Moment -> bool, ghost earlier: Db,
      ghost visited: set<Hash>) returns (end: End, refreshed: bool, reports: seq<Report>)
    requires Refresh.Chain(db, opt.includeCoinbase)
    requires state.CachesAgree(earlier) && LeftBy(earlier, db, state.height, state.ancestry, visited)
    modifies state
    ensures state.CachesAgree(db)
    ensures forall i :: 0 <= i < |reports| ==>
              Right(db, Refresh.TxidsBelow(db, opt.includeCoinbase, db.height), reports[i])
    ensures forall i :: 0 <= i < |reports| ==>
              Starts(db, q).Some? && i < |Starts(db, q).value| && reports[i].start == Starts(db, q).value[i]
    ensures end == Finished ==> reports != [] && Starts(db, q).Some? && |reports| == |Starts(db, q).value|
    ensures refreshed ==> forall t :: Entry(state.ancestry, t) == Ancestors(db, t)
    ensures refreshed ==> forall i :: 0 <= i < |reports| ==>
              reports[i].counters.Keys == Entry(state.ancestry, reports[i].start)
  {
    hide Refresh.Chain, Refresh.SavedWith, Refresh.TxidsBelow, Refresh.Complete, Refresh.Covers, Refresh.BlocksThere,
        Walk.Counted, Starts, Closed, Extends, Ancestors, Members;
    var coinbase := opt.includeCoinbase;
    ghost var ids := Refresh.TxidsBelow(db, coinbase, db.height);
    ghost var seen := visited;
    ChainIsOrdered(db, coinbase);
    OrderedIsClosed(db, ids);
    CachesKept(state, earlier, db);
    SavedKept(earlier, db, state.height, state.ancestry, visited);
    refreshed := false;
    reports := [];
    if refresh {
      var stop := (h: nat) => signal(AfterBlock(h));
      var ended;
      ended, seen := Refresh.Refresh(state, db, opt, stop, visited);
      assert ended != Failed;
      refreshed := ended == Finished;
    }
    SavedIsSound(db, state.height, state.ancestry, seen);
    if refreshed {
      ReadsAsClosure(db, coinbase, seen);
    }
    var starts := StartTxids(state, db, opt, q);
    if starts.None? || starts.value == [] {
      return Failed, refreshed, [];
    }
    end, reports := CheckAll(state, db, opt, starts.value, signal, ids);
    if refreshed {
      WalkKeepsComplete(db, coinbase, seen, state.ancestry);
      forall i | 0 <= i < |reports|
        ensures reports[i].counters.Keys == Entry(state.ancestry, reports[i].start)
      {
        assert Right(db, ids, reports[i]);
        ForwardIsBackward(db, coinbase, seen, reports[i].start, reports[i].counters);
      }
    }
  }

  lemma ReadsAsClosure(db: Db, coinbase: bool, visited: set<Hash>)
    requires Refresh.Chain(db, coinbase) && Refresh.Covers(db, db.height, visited)
    ensures forall t :: Entry(Refresh.Complete(db, visited), t) == Ancestors(db, t)
  {
    hide Refresh.Chain, Refresh.Complete, Refresh.Covers, Ancestors, Members;
    forall t
      ensures Entry(Refresh.Complete(db, visited), t) == Ancestors(db, t)
    {
      Refresh.RefreshIsClosure(db, coinbase, visited, t);
    }
  }

  lemma OrderedIsClosed(db: Db, ids: seq<Hash>)
    requires Ordered(db, ids)
    ensures Closed(db)
  {
    hide Closed;
  }

  lemma ChainIsOrdered(db: Db, coinbase: bool)
    requires Refresh.Chain(db, coinbase)
    ensures Ordered(db, Refresh.TxidsBelow(db, coinbase, db.height))
  {
    hide Ordered, Refresh.TxidsBelow;
  }
}
