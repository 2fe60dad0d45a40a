/**
 The backward walk: from one transaction to the outputs in its ancestry, counting each as often as
 there are ring-member paths to it.
 */
module AncestryWalk {
  import opened AncestryCounts
  import opened AncestryDb
  import opened AncestryGraph
  import opened AncestryState
  import opened Wrappers

  const UINT_RANGE: nat := 0x1_0000_0000
  const SIZE_RANGE: nat := 0x1_0000_0000_0000_0000

  // ----- the counters

  /** Counters are 32 bits wide and wrap around. */
  type Counters = map<Output, nat>

  method AddAncestor(counters: Counters, o: Output) returns (r: Counters)
    ensures r == counters[o := if o in counters then (counters[o] + 1) % UINT_RANGE else 1]
  {
    if o !in counters {
      r := counters[o := 1];
    } else {
      r := counters[o := (counters[o] + 1) % UINT_RANGE];
    }
  }

  ghost function At(exact: map<Output, nat>, o: Output): nat {
    if o in exact then exact[o] else 0
  }

  /** The counters show positive counts, modulo 2^32. */
  ghost predicate Shows(counters: Counters, exact: map<Output, nat>) {
    && counters.Keys == exact.Keys
    && forall o :: o in exact ==> exact[o] > 0 && counters[o] == exact[o] % UINT_RANGE
  }

  lemma ShowsNext(counters: Counters, exact: map<Output, nat>, o: Output)
    requires Shows(counters, exact)
    ensures Shows(counters[o := if o in counters then (counters[o] + 1) % UINT_RANGE else 1],
                  exact[o := At(exact, o) + 1])
  {
  }

  // ----- what is still to be done

  /** The number of paths to o from the transactions on the list. */
  ghost function Pending(db: Db, ids: seq<Hash>, list: seq<Hash>, o: Output): nat
    requires Ordered(db, ids)
  {
    if list == [] then 0 else PathsTo(db, ids, list[0], o) + Pending(db, ids, list[1..], o)
  }

  /** One for each transaction on the list, and one for each path from it. */
  ghost function Work(db: Db, ids: seq<Hash>, list: seq<Hash>): nat
    requires Ordered(db, ids)
  {
    if list == [] then 0 else 1 + Paths(db, ids, list[0]) + Work(db, ids, list[1..])
  }

  lemma {:induction false} PendingAppend(db: Db, ids: seq<Hash>, list: seq<Hash>, t: Hash, o: Output)
    requires Ordered(db, ids)
    ensures Pending(db, ids, list + [t], o) == Pending(db, ids, list, o) + PathsTo(db, ids, t, o)
  {
    hide Ordered, PathsTo;
    if list != [] {
      assert (list + [t])[1..] == list[1..] + [t];
      PendingAppend(db, ids, list[1..], t, o);
    } else {
      assert [t][1..] == [];
    }
  }

  lemma {:induction false} WorkAppend(db: Db, ids: seq<Hash>, list: seq<Hash>, t: Hash)
    requires Ordered(db, ids)
    ensures Work(db, ids, list + [t]) == Work(db, ids, list) + 1 + Paths(db, ids, t)
  {
    hide Ordered, Paths;
    if list != [] {
      assert (list + [t])[1..] == list[1..] + [t];
      WorkAppend(db, ids, list[1..], t);
    } else {
      assert [t][1..] == [];
    }
  }

  /** What has been counted and what is pending, for one output. */
  ghost function Balance(db: Db, ids: seq<Hash>, exact: map<Output, nat>, list: seq<Hash>, o: Output): nat
    requires Ordered(db, ids)
  {
    At(exact, o) + Pending(db, ids, list, o)
  }

  /** Visiting the first k ring members of t has turned (exact0, list0) into (exact, list). */
  ghost predicate Moved(db: Db, ids: seq<Hash>, exact0: map<Output, nat>, list0: seq<Hash>, exact: map<Output, nat>,
                        list: seq<Hash>, t: Hash, k: nat) {
    && Ordered(db, ids) && k <= |Members(db, t)|
    && (forall o :: Balance(db, ids, exact, list, o)
                    == Balance(db, ids, exact0, list0, o) + PathsToBefore(db, ids, t, k, o))
    && Work(db, ids, list) == Work(db, ids, list0) + PathsBefore(db, ids, t, k)
  }

  lemma MovedStart(db: Db, ids: seq<Hash>, exact: map<Output, nat>, list: seq<Hash>, t: Hash)
    requires Ordered(db, ids)
    ensures Moved(db, ids, exact, list, exact, list, t, 0)
  {
    hide Ordered, Members, Balance, Work, PathsToBefore, PathsBefore;
    forall o
      ensures PathsToBefore(db, ids, t, 0, o) == 0 && PathsBefore(db, ids, t, 0) == 0
    {
      PathsStart(db, ids, t, o);
    }
    PathsStart(db, ids, t, Output(0, 0));
  }

  lemma MovedNext(db: Db, ids: seq<Hash>, exact0: map<Output, nat>, list0: seq<Hash>, exact: map<Output, nat>,
                  list: seq<Hash>, t: Hash, k: nat)
    requires Moved(db, ids, exact0, list0, exact, list, t, k) && k < |Members(db, t)|
    requires Creator(db, Members(db, t)[k]).Some?
    ensures var m := Members(db, t)[k];
            Moved(db, ids, exact0, list0, exact[m := At(exact, m) + 1], list + [Creator(db, m).value], t, k + 1)
  {
    hide Ordered, Members, Creator, Pending, Work, PathsTo, Paths, PathsToBefore, PathsBefore;
    var m := Members(db, t)[k];
    var c := Creator(db, m).value;
    var exact' := exact[m := At(exact, m) + 1];
    forall o
      ensures Balance(db, ids, exact', list + [c], o)
           == Balance(db, ids, exact0, list0, o) + PathsToBefore(db, ids, t, k + 1, o)
    {
      PendingAppend(db, ids, list, c, o);
      PathsToNext(db, ids, t, k, o);
      assert Balance(db, ids, exact, list, o) == Balance(db, ids, exact0, list0, o) + PathsToBefore(db, ids, t, k, o);
      assert At(exact', o) == At(exact, o) + if m == o then 1 else 0;
    }
    WorkAppend(db, ids, list, c);
    PathsNext(db, ids, t, k);
  }

  // ----- the ancestry map

  /** No entry holds anything but ancestors. */
  ghost predicate Sound(db: Db, ancestry: Ancestry) {
    forall t :: t in ancestry ==> ancestry[t] <= Ancestors(db, t)
  }

  /** Entries are kept and only grow; new ones are for transactions with ring members. */
  ghost predicate Grown(db: Db, before: Ancestry, after: Ancestry) {
    && (forall t :: t in before ==> t in after && before[t] <= after[t])
    && forall t :: t in after ==> t in before || Members(db, t) != []
  }

  lemma GrownSelf(db: Db, a: Ancestry)
    ensures Grown(db, a, a)
  {
  }

  lemma GrownTwice(db: Db, a: Ancestry, b: Ancestry, c: Ancestry)
    requires Grown(db, a, b) && Grown(db, b, c)
    ensures Grown(db, a, c)
  {
    hide Members;
  }

  lemma JoinCreator(db: Db, ancestry: Ancestry, t: Hash, k: nat)
    requires Closed(db) && Sound(db, ancestry) && k < |Members(db, t)|
    ensures Creator(db, Members(db, t)[k]).Some?
    ensures var joined := ancestry[t := Entry(ancestry, t) + Entry(ancestry, Creator(db, Members(db, t)[k]).value)];
            Sound(db, joined) && Grown(db, ancestry, joined)
  {
    hide Members, Creator, Ancestors, Closed;
    CreatorAncestors(db, t, k);
  }

  // ----- what the walk visits and joins, in order

  function CreatorAt(db: Db, t: Hash, k: nat): Hash
    requires k < |Members(db, t)|
  {
    match Creator(db, Members(db, t)[k]) case Some(c) => c case None => 0
  }

  /** The creators of the first k ring members. */
  function Creators(db: Db, t: Hash, k: nat): (creators: seq<Hash>)
    requires k <= |Members(db, t)|
    ensures |creators| == k
  {
    if k == 0 then [] else Creators(db, t, k - 1) + [CreatorAt(db, t, k - 1)]
  }

  /** The map with the entries of the first k creators joined into that of t, one after the other. */
  function Joined(db: Db, ancestry: Ancestry, t: Hash, k: nat): Ancestry
    requires k <= |Members(db, t)|
  {
    if k == 0 then ancestry else
    var a := Joined(db, ancestry, t, k - 1);
    a[t := Entry(a, t) + Entry(a, CreatorAt(db, t, k - 1))]
  }

  function CreatorsOf(db: Db, visited: seq<Hash>): seq<Hash> {
    if visited == [] then [] else
    var t := visited[|visited| - 1];
    CreatorsOf(db, visited[..|visited| - 1]) + Creators(db, t, |Members(db, t)|)
  }

  function JoinedAll(db: Db, ancestry: Ancestry, visited: seq<Hash>): Ancestry {
    if visited == [] then ancestry else
    var t := visited[|visited| - 1];
    Joined(db, JoinedAll(db, ancestry, visited[..|visited| - 1]), t, |Members(db, t)|)
  }

  /** The entry of a transaction gets what those of its creators hold, and no other entry changes. */
  lemma {:induction false} JoinedIs(db: Db, ids: seq<Hash>, ancestry: Ancestry, t: Hash, k: nat, o: Output)
    requires Ordered(db, ids) && k <= |Members(db, t)|
    ensures forall u :: u != t ==> Entry(Joined(db, ancestry, t, k), u) == Entry(ancestry, u)
    ensures o in Entry(Joined(db, ancestry, t, k), t)
       <==> o in Entry(ancestry, t) || exists j :: 0 <= j < k && o in Entry(ancestry, CreatorAt(db, t, j))
  {
    hide Ordered, Members, Creator, Rank, GetTx;
    if k > 0 {
      JoinedIs(db, ids, ancestry, t, k - 1, o);
      RankDrops(db, ids, t, k - 1);
      assert CreatorAt(db, t, k - 1) != t;
    }
  }

  lemma VisitedNext(db: Db, ancestry: Ancestry, visited: seq<Hash>, t: Hash)
    ensures CreatorsOf(db, visited + [t]) == CreatorsOf(db, visited) + Creators(db, t, |Members(db, t)|)
    ensures JoinedAll(db, ancestry, visited + [t])
         == Joined(db, JoinedAll(db, ancestry, visited), t, |Members(db, t)|)
  {
    hide Members, Creators, Joined;
    assert (visited + [t])[..|visited|] == visited;
  }

  /** The transactions visited so far are the first of the start and the creators of those visited, in
      order; and the map has what they join. */
  ghost predicate Visits(db: Db, start: Hash, ancestry0: Ancestry, visited: seq<Hash>, ancestry: Ancestry) {
    visited <= [start] + CreatorsOf(db, visited) && ancestry == JoinedAll(db, ancestry0, visited)
  }

  /** The same with what is still on the list. */
  ghost predicate Track(db: Db, start: Hash, ancestry0: Ancestry, visited: seq<Hash>, list: seq<Hash>,
                        ancestry: Ancestry) {
    visited + list == [start] + CreatorsOf(db, visited) && ancestry == JoinedAll(db, ancestry0, visited)
  }

  lemma TrackStart(db: Db, start: Hash, ancestry: Ancestry)
    ensures Track(db, start, ancestry, [], [start], ancestry)
  {
    assert [] + [start] == [start] && [start] + CreatorsOf(db, []) == [start];
  }

  lemma TrackNext(db: Db, start: Hash, ancestry0: Ancestry, visited: seq<Hash>, list: seq<Hash>, before: Ancestry,
                  list': seq<Hash>, after: Ancestry)
    requires Track(db, start, ancestry0, visited, list, before) && list != []
    requires list' == list[1..] + Creators(db, list[0], |Members(db, list[0])|)
    requires after == Joined(db, before, list[0], |Members(db, list[0])|)
    ensures Track(db, start, ancestry0, visited + [list[0]], list', after)
  {
    hide Members, Creators, Joined;
    var t := list[0];
    VisitedNext(db, ancestry0, visited, t);
    assert visited + list == visited + [t] + list[1..];
    assert visited + [t] + list' == visited + list + Creators(db, t, |Members(db, t)|);
  }

  lemma TrackVisits(db: Db, start: Hash, ancestry0: Ancestry, visited: seq<Hash>, list: seq<Hash>, ancestry: Ancestry)
    requires Track(db, start, ancestry0, visited, list, ancestry)
    ensures Visits(db, start, ancestry0, visited, ancestry)
    ensures list == [] ==> visited == [start] + CreatorsOf(db, visited)
  {
    assert visited <= visited + list;
  }

  /** A complete entry stays as it is. */
  lemma CompleteEntryKept(db: Db, before: Ancestry, after: Ancestry, t: Hash)
    requires Grown(db, before, after) && Sound(db, after)
    requires t in before && before[t] == Ancestors(db, t)
    ensures t in after && after[t] == before[t]
  {
    hide Ancestors, Members;
  }

  // ----- one transaction

  ghost predicate AllReadable(db: Db, list: seq<Hash>) {
    forall i :: 0 <= i < |list| ==> GetTx(db, list[i]).Some?
  }

  method CountMember(state: State, db: Db, opt: Options, txid: Hash, o: Output, counters: Counters, list: seq<Hash>,
                     ghost ids: seq<Hash>, ghost k: nat, ghost exact: map<Output, nat>, ghost exact0: map<Output, nat>,
                     ghost list0: seq<Hash>)
      returns (counters': Counters, list': seq<Hash>, ghost exact': map<Output, nat>)
    requires state.CachesAgree(db) && Sound(db, state.ancestry)
    requires k < |Members(db, txid)| && o == Members(db, txid)[k]
    requires Moved(db, ids, exact0, list0, exact, list, txid, k) && Shows(counters, exact) && AllReadable(db, list)
    modifies state`ancestry, state`outputCache, state`txCache, state`blockCache
    ensures state.CachesAgree(db) && Sound(db, state.ancestry) && Grown(db, old(state.ancestry), state.ancestry)
    ensures Moved(db, ids, exact0, list0, exact', list', txid, k + 1) && Shows(counters', exact')
    ensures AllReadable(db, list')
    ensures list' == list + [CreatorAt(db, txid, k)]
    ensures state.ancestry
         == old(state.ancestry)[txid := Entry(old(state.ancestry), txid)
                                        + Entry(old(state.ancestry), CreatorAt(db, txid, k))]
  {
    hide Members, GetOutputTxid, GetTx, Rank, Balance, Work, PathsToBefore, PathsBefore, Ancestors;
    RankDrops(db, ids, txid, k);
    counters' := AddAncestor(counters, o);
    exact' := exact[o := At(exact, o) + 1];
    ShowsNext(counters, exact, o);
    var creator := state.FindOutputTxid(db, opt, o);
    assert creator == Creator(db, Members(db, txid)[k]);
    if creator.None? {
      assert false;
    }
    JoinCreator(db, state.ancestry, txid, k);
    state.AddAncestry(txid, Entry(state.ancestry, creator.value));
    list' := list + [creator.value];
    MovedNext(db, ids, exact0, list0, exact, list, txid, k);
  }

  /** What is done after the first k ring members of a transaction. */
  ghost predicate CountedMembers(db: Db, ids: seq<Hash>, exact0: map<Output, nat>, list0: seq<Hash>,
                                 ancestry0: Ancestry, exact: map<Output, nat>, list: seq<Hash>, ancestry: Ancestry,
                                 txid: Hash, k: nat) {
    && k <= |Members(db, txid)| && Moved(db, ids, exact0, list0, exact, list, txid, k)
    && list == list0 + Creators(db, txid, k) && ancestry == Joined(db, ancestry0, txid, k)
    && Sound(db, ancestry) && Grown(db, ancestry0, ancestry) && AllReadable(db, list)
  }

  lemma NoneCounted(db: Db, ids: seq<Hash>, exact: map<Output, nat>, list: seq<Hash>, ancestry: Ancestry, txid: Hash)
    requires Ordered(db, ids) && Sound(db, ancestry) && AllReadable(db, list)
    ensures CountedMembers(db, ids, exact, list, ancestry, exact, list, ancestry, txid, 0)
  {
    hide Ordered, Sound, Grown, Moved, AllReadable, Members;
    MovedStart(db, ids, exact, list, txid);
    GrownSelf(db, ancestry);
  }

  /** The next ring member, counted, queued and joined. */
  method CountNext(state: State, db: Db, opt: Options, txid: Hash, o: Output, counters: Counters, list: seq<Hash>,
                   ghost ids: seq<Hash>, ghost k: nat, ghost exact: map<Output, nat>, ghost exact0: map<Output, nat>,
                   ghost list0: seq<Hash>, ghost ancestry0: Ancestry)
      returns (counters': Counters, list': seq<Hash>, ghost exact': map<Output, nat>)
    requires state.CachesAgree(db) && k < |Members(db, txid)| && o == Members(db, txid)[k] && Shows(counters, exact)
    requires CountedMembers(db, ids, exact0, list0, ancestry0, exact, list, state.ancestry, txid, k)
    modifies state`ancestry, state`outputCache, state`txCache, state`blockCache
    ensures state.CachesAgree(db) && Shows(counters', exact')
    ensures CountedMembers(db, ids, exact0, list0, ancestry0, exact', list', state.ancestry, txid, k + 1)
  {
    hide Sound, Grown, Moved, Shows, AllReadable, Members, CreatorAt;
    ghost var before := state.ancestry;
    counters', list', exact' := CountMember(state, db, opt, txid, o, counters, list, ids, k, exact, exact0, list0);
    GrownTwice(db, ancestry0, before, state.ancestry);
  }

  method CountMembers(state: State, db: Db, opt: Options, txid: Hash, tx: TxData, counters: Counters, list: seq<Hash>,
                      ghost ids: seq<Hash>, ghost exact: map<Output, nat>)
      returns (counters': Counters, list': seq<Hash>, ghost exact': map<Output, nat>)
    requires state.CachesAgree(db) && Sound(db, state.ancestry)
    requires Ordered(db, ids) && GetTx(db, txid) == Some(tx) && Shows(counters, exact) && AllReadable(db, list)
    modifies state`ancestry, state`outputCache, state`txCache, state`blockCache
    ensures state.CachesAgree(db) && Shows(counters', exact')
    ensures CountedMembers(db, ids, exact, list, old(state.ancestry), exact', list', state.ancestry, txid,
                           |Members(db, txid)|)
  {
    hide RingOutputs, Ordered, Shows, AllReadable, Members, GetTx, Flatten, CountedMembers, Sound;
    MembersFlat(db, txid);
    FlattenNone(tx.vin);
    counters', list', exact' := counters, list, exact;
    NoneCounted(db, ids, exact, list, state.ancestry, txid);
    var ring := 0;
    while ring < |tx.vin|
      invariant 0 <= ring <= |tx.vin|
      invariant state.CachesAgree(db) && Shows(counters', exact')
      invariant CountedMembers(db, ids, exact, list, old(state.ancestry), exact', list', state.ancestry, txid,
                               |Flatten(tx.vin[..ring])|)
    {
      var amount := tx.vin[ring].amount;
      var offsets := tx.vin[ring].offsets;
      var i := 0;
      while i < |offsets|
        invariant 0 <= i <= |offsets|
        invariant state.CachesAgree(db) && Shows(counters', exact')
        invariant CountedMembers(db, ids, exact, list, old(state.ancestry), exact', list', state.ancestry, txid,
                                 |Flatten(tx.vin[..ring])| + i)
      {
        FlattenAt(tx.vin, ring, i);
        counters', list', exact' := CountNext(state, db, opt, txid, Output(amount, offsets[i]), counters', list', ids,
                                              |Flatten(tx.vin[..ring])| + i, exact', exact, list, old(state.ancestry));
        i := i + 1;
      }
      FlattenNext(tx.vin, ring);
      ring := ring + 1;
    }
  }

  /** One turn of the walk: nothing for a coinbase, else all ring members. */
  method CountTransaction(state: State, db: Db, opt: Options, txid: Hash, tx: TxData, counters: Counters,
                          list: seq<Hash>, ghost ids: seq<Hash>, ghost exact: map<Output, nat>)
      returns (counters': Counters, list': seq<Hash>, ghost exact': map<Output, nat>)
    requires state.CachesAgree(db) && Sound(db, state.ancestry)
    requires Ordered(db, ids) && GetTx(db, txid) == Some(tx) && Shows(counters, exact) && AllReadable(db, list)
    modifies state`ancestry, state`outputCache, state`txCache, state`blockCache
    ensures state.CachesAgree(db) && Shows(counters', exact')
    ensures CountedMembers(db, ids, exact, list, old(state.ancestry), exact', list', state.ancestry, txid,
                           |Members(db, txid)|)
  {
    hide Ordered, Shows, AllReadable, Members, CountedMembers, Sound, GetTx;
    if tx.coinbase {
      CoinbaseHasNone(db, txid);
      NoneCounted(db, ids, exact, list, state.ancestry, txid);
      counters', list', exact' := counters, list, exact;
    } else {
      counters', list', exact' := CountMembers(state, db, opt, txid, tx, counters, list, ids, exact);
    }
  }

  lemma CoinbaseHasNone(db: Db, t: Hash)
    requires GetTx(db, t).Some? && GetTx(db, t).value.coinbase
    ensures Members(db, t) == []
  {
  }

  // ----- the walk

  /** The walk from `start` is at `list`, with these counts, after some transactions. */
  ghost predicate Underway(db: Db, ids: seq<Hash>, start: Hash, exact: map<Output, nat>, list: seq<Hash>, steps: nat) {
    && Ordered(db, ids)
    && (forall o :: Balance(db, ids, exact, list, o) == PathsTo(db, ids, start, o))
    && steps + Work(db, ids, list) == 1 + Paths(db, ids, start)
    && if GetTx(db, start).Some? then AllReadable(db, list) else list == [start]
  }

  lemma UnderwayStart(db: Db, ids: seq<Hash>, start: Hash)
    requires Ordered(db, ids)
    ensures Underway(db, ids, start, map[], [start], 0)
  {
    hide Ordered, PathsTo, Paths;
    assert [start][1..] == [];
    forall o
      ensures Balance(db, ids, map[], [start], o) == PathsTo(db, ids, start, o)
    {
      assert Pending(db, ids, [start][1..], o) == 0;
    }
    assert Work(db, ids, [start][1..]) == 0;
  }

  lemma UnderwayNext(db: Db, ids: seq<Hash>, start: Hash, exact: map<Output, nat>, list: seq<Hash>, steps: nat,
                     exact': map<Output, nat>, list': seq<Hash>)
    requires Underway(db, ids, start, exact, list, steps) && list != [] && GetTx(db, list[0]).Some?
    requires AllReadable(db, list')
    requires Moved(db, ids, exact, list[1..], exact', list', list[0], |Members(db, list[0])|)
    ensures Underway(db, ids, start, exact', list', steps + 1)
    ensures Work(db, ids, list') == Work(db, ids, list) - 1
  {
    hide Ordered, Members, GetTx, PathsToBefore, PathsBefore, At;
    forall o
      ensures Balance(db, ids, exact', list', o) == PathsTo(db, ids, start, o)
    {
      assert Balance(db, ids, exact', list', o)
          == Balance(db, ids, exact, list[1..], o) + PathsToBefore(db, ids, list[0], |Members(db, list[0])|, o);
      assert Balance(db, ids, exact, list, o) == PathsTo(db, ids, start, o);
    }
  }

  /** What the counters are once nothing is left on the list. */
  ghost predicate Counted(db: Db, ids: seq<Hash>, start: Hash, counters: Counters) {
    && Ordered(db, ids)
    && counters.Keys == Ancestors(db, start)
    && forall o :: o in counters ==> counters[o] == PathsTo(db, ids, start, o) % UINT_RANGE
  }

  lemma UnderwayEnd(db: Db, ids: seq<Hash>, start: Hash, exact: map<Output, nat>, steps: nat, counters: Counters)
    requires Underway(db, ids, start, exact, [], steps) && Shows(counters, exact)
    ensures Counted(db, ids, start, counters) && steps == 1 + Paths(db, ids, start)
  {
    hide Ordered, Ancestors, PathsTo, Paths, GetTx;
    forall o
      ensures At(exact, o) == PathsTo(db, ids, start, o)
      ensures PathsTo(db, ids, start, o) > 0 <==> o in Ancestors(db, start)
    {
      assert Balance(db, ids, exact, [], o) == PathsTo(db, ids, start, o);
      ReachesIffCounted(db, ids, start, o);
    }
  }

  /** Takes transactions off the front of a list, and puts the creators of their ring members at its
      end. `signal` says when the tool looks and finds that it should stop. */
  method Walk(state: State, db: Db, opt: Options, start: Hash, signal: nat -> bool, ghost ids: seq<Hash>)
      returns (end: End, counters: Counters, steps: nat, ghost visited: seq<Hash>)
    requires state.CachesAgree(db) && Sound(db, state.ancestry) && Ordered(db, ids)
    modifies state`ancestry, state`outputCache, state`txCache, state`blockCache
    ensures state.CachesAgree(db) && Sound(db, state.ancestry) && Grown(db, old(state.ancestry), state.ancestry)
    ensures end == Finished ==> Counted(db, ids, start, counters) && steps == 1 + Paths(db, ids, start)
    ensures end == Finished ==> forall i :: 0 <= i < steps ==> !signal(i)
    ensures end == Stopped ==> steps <= Paths(db, ids, start) && signal(steps)
    ensures end == Failed ==> GetTx(db, start).None?
    ensures end == Finished ==> GetTx(db, start).Some?
    ensures |visited| == steps && Visits(db, start, old(state.ancestry), visited, state.ancestry)
    ensures end == Finished ==> visited == [start] + CreatorsOf(db, visited)
  {
    hide Ordered, Sound, Moved, Shows, Underway, Ancestors, Members, GetTx, Paths, PathsTo, Counted, Creators, Joined,
         Track, CreatorsOf, JoinedAll;
    counters := map[];
    ghost var exact: map<Output, nat> := map[];
    steps := 0;
    var list := [start];
    visited := [];
    TrackStart(db, start, state.ancestry);
    UnderwayStart(db, ids, start);
    ShowsNone();
    while list != []
      invariant state.CachesAgree(db) && Sound(db, state.ancestry) && Grown(db, old(state.ancestry), state.ancestry)
      invariant Underway(db, ids, start, exact, list, steps) && Shows(counters, exact)
      invariant forall i :: 0 <= i < steps ==> !signal(i)
      invariant GetTx(db, start).None? ==> list == [start]
      invariant |visited| == steps && Track(db, start, old(state.ancestry), visited, list, state.ancestry)
      decreases Work(db, ids, list)
    {
      var txid := list[0];
      TrackVisits(db, start, old(state.ancestry), visited, list, state.ancestry);
      WorkLeft(db, ids, start, exact, list, steps);
      if signal(steps) {
        return Stopped, counters, steps, visited;
      }
      var tx := state.GetTransaction(db, opt, txid);
      if tx.None? {
        return Failed, counters, steps, visited;
      }
      ghost var list0, exact0 := list, exact;
      list := list[1..];
      ghost var before := state.ancestry;
      counters, list, exact := CountTransaction(state, db, opt, txid, tx.value, counters, list, ids, exact);
      UnderwayNext(db, ids, start, exact0, list0, steps, exact, list);
      GrownTwice(db, old(state.ancestry), before, state.ancestry);
      TrackNext(db, start, old(state.ancestry), visited, list0, before, list, state.ancestry);
      visited := visited + [txid];
      steps := steps + 1;
    }
    UnderwayEnd(db, ids, start, exact, steps, counters);
    TrackVisits(db, start, old(state.ancestry), visited, list, state.ancestry);
    end := Finished;
  }

  lemma ShowsNone()
    ensures Shows(map[], map[])
  {
  }

  lemma WorkLeft(db: Db, ids: seq<Hash>, start: Hash, exact: map<Output, nat>, list: seq<Hash>, steps: nat)
    requires Underway(db, ids, start, exact, list, steps) && list != []
    ensures steps <= Paths(db, ids, start) && (GetTx(db, list[0]).None? ==> GetTx(db, start).None?)
    ensures GetTx(db, start).Some? ==> AllReadable(db, list) && AllReadable(db, list[1..])
    ensures GetTx(db, list[0]).Some? ==> AllReadable(db, list[1..])
  {
    hide Ordered, Balance, PathsTo, Paths, GetTx;
  }

  // ----- the two figures reported

  method GetFullAncestry(counters: Counters) returns (count: nat)
    ensures count == SumOver(counters.Keys, counters) % SIZE_RANGE
  {
    count := 0;
    var rest := counters.Keys;
    while rest != {}
      invariant rest <= counters.Keys
      invariant (count + SumOver(rest, counters)) % SIZE_RANGE == SumOver(counters.Keys, counters) % SIZE_RANGE
      invariant count < SIZE_RANGE
      decreases rest
    {
      var o :| o in rest;
      SumOverAny(rest, counters, o);
      AddModulo(count + counters[o], SumOver(rest - {o}, counters));
      count := (count + counters[o]) % SIZE_RANGE;
      rest := rest - {o};
    }
  }

  lemma AddModulo(a: nat, b: nat)
    ensures (a % SIZE_RANGE + b) % SIZE_RANGE == (a + b) % SIZE_RANGE
  {
  }

  /** The figure is the number of paths exactly when no counter and not the sum has wrapped around. */
  lemma FullAncestryIsPaths(db: Db, ids: seq<Hash>, start: Hash, counters: Counters)
    requires Counted(db, ids, start, counters)
    ensures SumOver(counters.Keys, counters) % SIZE_RANGE == Paths(db, ids, start)
       <==> (forall o :: PathsTo(db, ids, start, o) < UINT_RANGE) && Paths(db, ids, start) < SIZE_RANGE
  {
    hide Ordered, Ancestors, PathsTo, Paths, SumOver;
    forall o
      ensures PathsTo(db, ids, start, o) > 0 <==> o in Ancestors(db, start)
    {
      ReachesIffCounted(db, ids, start, o);
    }
    PathsSum(db, ids, start);
    SumOverModulo(counters.Keys, Counts(db, ids, start), counters, UINT_RANGE);
    ModuloLess(SumOver(counters.Keys, counters), SIZE_RANGE);
  }
}
