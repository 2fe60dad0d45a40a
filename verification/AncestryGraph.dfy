/**
 The graph of ring members: from a transaction to the outputs its rings name, and on to the
 transactions that created them. Paths, reachability, and counting of paths.
 */
module AncestryGraph {
  import opened AncestryDb
  import opened Wrappers

  // ----- the graph

  function Flatten(rings: seq<Ring>): seq<Output> {
    if rings == [] then [] else Flatten(rings[..|rings| - 1]) + RingOutputs(rings[|rings| - 1])
  }

  function RingOutputs(r: Ring): (s: seq<Output>)
    ensures |s| == |r.offsets|
  {
    seq(|r.offsets|, i requires 0 <= i < |r.offsets| => Output(r.amount, r.offsets[i]))
  }

  /** The ring members of a transaction, in the order the tool visits them. */
  function Members(db: Db, t: Hash): seq<Output> {
    match GetTx(db, t)
    case None => []
    case Some(tx) => Flatten(tx.vin)
  }

  lemma MembersFlat(db: Db, t: Hash)
    requires GetTx(db, t).Some?
    ensures Members(db, t) == Flatten(GetTx(db, t).value.vin)
  {
    hide GetTx, Flatten;
  }

  lemma FlattenNone(rings: seq<Ring>)
    ensures Flatten(rings[..0]) == [] && Flatten(rings[..|rings|]) == Flatten(rings)
  {
    assert rings[..|rings|] == rings;
  }

  lemma FlattenNext(rings: seq<Ring>, r: nat)
    requires r < |rings|
    ensures Flatten(rings[..r + 1]) == Flatten(rings[..r]) + RingOutputs(rings[r])
  {
    assert rings[..r + 1][..r] == rings[..r];
  }

  lemma {:induction false} FlattenPrefix(rings: seq<Ring>, r: nat)
    requires r <= |rings|
    ensures Flatten(rings[..r]) <= Flatten(rings)
    decreases |rings| - r
  {
    if r == |rings| {
      assert rings[..r] == rings;
    } else {
      FlattenNext(rings, r);
      FlattenPrefix(rings, r + 1);
    }
  }

  /** The member at one offset of one ring, in the flat order. */
  lemma FlattenAt(rings: seq<Ring>, r: nat, i: nat)
    requires r < |rings| && i < |rings[r].offsets|
    ensures |Flatten(rings[..r])| + i < |Flatten(rings)|
    ensures Flatten(rings)[|Flatten(rings[..r])| + i] == Output(rings[r].amount, rings[r].offsets[i])
  {
    FlattenNext(rings, r);
    FlattenPrefix(rings, r + 1);
  }

  /** The number of ring members of the first inputs. */
  function RingStart(vin: seq<TxIn>, n: nat): nat
    requires n <= |vin| && forall i :: 0 <= i < |vin| ==> vin[i].ToKey?
  {
    if n == 0 then 0 else RingStart(vin, n - 1) + |vin[n - 1].keyOffsets|
  }

  lemma {:induction false} FlattenLength(vin: seq<TxIn>, n: nat)
    requires n <= |vin| && forall i :: 0 <= i < |vin| ==> vin[i].ToKey?
    ensures |Flatten(Rings(vin)[..n])| == RingStart(vin, n)
  {
    hide AbsoluteOffsets;
    if n > 0 {
      FlattenLength(vin, n - 1);
      FlattenNext(Rings(vin), n - 1);
    } else {
      FlattenNone(Rings(vin));
    }
  }

  /** The ring members of a stored transaction, from its inputs: as many as there are key offsets. */
  lemma MembersOfInputs(db: Db, t: Hash)
    requires t in db.txs && Readable(db.txs[t])
    ensures IsCoinbase(db.txs[t]) ==> Members(db, t) == []
    ensures !IsCoinbase(db.txs[t]) ==> |Members(db, t)| == RingStart(db.txs[t].vin, |db.txs[t].vin|)
  {
    hide AbsoluteOffsets;
    var vin := db.txs[t].vin;
    if !IsCoinbase(db.txs[t]) {
      FlattenLength(vin, |vin|);
      FlattenNone(Rings(vin));
    }
  }

  /** Member j of ring i is the output of the ring's amount at the sum of its first j + 1 key offsets,
      modulo 2^64. */
  lemma MemberOfInput(db: Db, t: Hash, i: nat, j: nat)
    requires t in db.txs && Readable(db.txs[t]) && !IsCoinbase(db.txs[t])
    requires i < |db.txs[t].vin| && j < |db.txs[t].vin[i].keyOffsets|
    ensures MemberIs(Members(db, t), RingStart(db.txs[t].vin, i) + j, db.txs[t].vin[i], j)
  {
    hide AbsoluteOffsets, SumTo, Flatten, RingStart;
    var vin := db.txs[t].vin;
    FlattenLength(vin, i);
    FlattenAt(Rings(vin), i, j);
    OffsetIsSum(vin[i].keyOffsets, j);
  }

  ghost predicate MemberIs(members: seq<Output>, k: nat, input: TxIn, j: nat)
    requires input.ToKey? && j < |input.keyOffsets|
  {
    && k < |members| && members[k].amount == input.amount
    && members[k].offset as int == SumTo(input.keyOffsets, j + 1) % UINT64_RANGE
  }

  function Creator(db: Db, o: Output): Option<Hash> {
    GetOutputTxid(db, o)
  }

  /** A path from t: the index of a ring member at each transaction on the way. */
  predicate IsPath(db: Db, t: Hash, p: seq<nat>)
    decreases |p|
  {
    && p != [] && p[0] < |Members(db, t)|
    && (|p| > 1 ==> Creator(db, Members(db, t)[p[0]]).Some? &&
                    IsPath(db, Creator(db, Members(db, t)[p[0]]).value, p[1..]))
  }

  /** The output a path ends at. */
  function PathEnd(db: Db, t: Hash, p: seq<nat>): Output
    requires IsPath(db, t, p)
    decreases |p|
  {
    var m := Members(db, t)[p[0]];
    if |p| == 1 then m else PathEnd(db, Creator(db, m).value, p[1..])
  }

  /** The path leads to o. */
  predicate LeadsTo(db: Db, t: Hash, p: seq<nat>, o: Output) {
    IsPath(db, t, p) && PathEnd(db, t, p) == o
  }

  ghost predicate Reaches(db: Db, t: Hash, o: Output) {
    exists p :: LeadsTo(db, t, p, o)
  }

  /** Some path through one of the first k ring members leads to o. */
  ghost predicate ReachesBefore(db: Db, t: Hash, k: nat, o: Output) {
    exists p :: LeadsTo(db, t, p, o) && p != [] && p[0] < k
  }

  /** Every ring member the tool can come across has a creator that it can find. */
  ghost predicate Closed(db: Db) {
    forall t, k :: 0 <= k < |Members(db, t)| ==>
                     Creator(db, Members(db, t)[k]).Some? && GetTx(db, Creator(db, Members(db, t)[k]).value).Some?
  }

  /** The outputs reachable from t: the transitive closure. */
  ghost function Ancestors(db: Db, t: Hash): set<Output> {
    set o | o in db.outputs && Reaches(db, t, o)
  }

  ghost function AncestorsBefore(db: Db, t: Hash, k: nat): set<Output> {
    set o | o in db.outputs && ReachesBefore(db, t, k, o)
  }

  // ----- reachability, one ring member at a time

  lemma PathCons(db: Db, t: Hash, k: nat, q: seq<nat>, o: Output)
    requires k < |Members(db, t)| && Creator(db, Members(db, t)[k]).Some?
    requires LeadsTo(db, Creator(db, Members(db, t)[k]).value, q, o)
    ensures LeadsTo(db, t, [k] + q, o)
  {
    hide Members, Creator;
    assert ([k] + q)[1..] == q;
  }

  lemma PathSingle(db: Db, t: Hash, k: nat)
    requires k < |Members(db, t)|
    ensures LeadsTo(db, t, [k], Members(db, t)[k])
  {
    hide Members, Creator;
  }

  /** One more ring member adds itself and everything its creator reaches. */
  lemma ReachesNext(db: Db, t: Hash, k: nat, o: Output)
    requires k < |Members(db, t)| && Creator(db, Members(db, t)[k]).Some?
    ensures ReachesBefore(db, t, k + 1, o)
       <==> ReachesBefore(db, t, k, o) || o == Members(db, t)[k] || Reaches(db, Creator(db, Members(db, t)[k]).value, o)
  {
    hide Members, Creator, IsPath, PathEnd;
    var m := Members(db, t)[k];
    var c := Creator(db, m).value;
    if ReachesBefore(db, t, k + 1, o) {
      var p :| LeadsTo(db, t, p, o) && p != [] && p[0] < k + 1;
      if p[0] < k {
        assert ReachesBefore(db, t, k, o);
      } else {
        PathTail(db, t, p, o);
        if |p| > 1 {
          assert LeadsTo(db, c, p[1..], o);
        }
      }
    }
    if o == m {
      PathSingle(db, t, k);
    }
    if q :| LeadsTo(db, c, q, o) {
      PathCons(db, t, k, q, o);
    }
  }

  lemma PathTail(db: Db, t: Hash, p: seq<nat>, o: Output)
    requires LeadsTo(db, t, p, o)
    ensures p != [] && p[0] < |Members(db, t)|
    ensures |p| == 1 ==> o == Members(db, t)[p[0]]
    ensures |p| > 1 ==> var c := Creator(db, Members(db, t)[p[0]]); c.Some? && LeadsTo(db, c.value, p[1..], o)
  {
    hide Members, Creator;
  }

  /** What is reachable is an output of the database. */
  lemma {:induction false} ReachableOutput(db: Db, t: Hash, p: seq<nat>, o: Output)
    requires Closed(db) && LeadsTo(db, t, p, o)
    ensures o in db.outputs
    decreases |p|
  {
    hide Members;
    PathTail(db, t, p, o);
    if |p| > 1 {
      ReachableOutput(db, Creator(db, Members(db, t)[p[0]]).value, p[1..], o);
    } else {
      CreatorKnown(db, o);
    }
  }

  lemma CreatorKnown(db: Db, o: Output)
    requires Creator(db, o).Some?
    ensures o in db.outputs
  {
  }

  lemma InAncestors(db: Db, t: Hash, o: Output)
    requires Closed(db)
    ensures o in Ancestors(db, t) <==> Reaches(db, t, o)
  {
    hide LeadsTo, Closed;
    if p :| LeadsTo(db, t, p, o) {
      ReachableOutput(db, t, p, o);
    }
  }

  lemma AncestorsStart(db: Db, t: Hash)
    ensures AncestorsBefore(db, t, 0) == {}
  {
    hide LeadsTo;
    forall p: seq<nat>
      ensures !(p != [] && p[0] < 0)
    {
    }
  }

  lemma AncestorsNext(db: Db, t: Hash, k: nat)
    requires Closed(db) && k < |Members(db, t)|
    ensures Creator(db, Members(db, t)[k]).Some?
    ensures AncestorsBefore(db, t, k + 1)
         == AncestorsBefore(db, t, k) + {Members(db, t)[k]} + Ancestors(db, Creator(db, Members(db, t)[k]).value)
  {
    hide Members, Creator, ReachesBefore, Reaches;
    forall o
      ensures ReachesBefore(db, t, k + 1, o)
         <==> (ReachesBefore(db, t, k, o) || o == Members(db, t)[k]
               || Reaches(db, Creator(db, Members(db, t)[k]).value, o))
    {
      ReachesNext(db, t, k, o);
    }
    CreatorKnown(db, Members(db, t)[k]);
  }

  lemma AncestorsAll(db: Db, t: Hash)
    ensures AncestorsBefore(db, t, |Members(db, t)|) == Ancestors(db, t)
  {
    hide Members, Creator;
    forall o | Reaches(db, t, o)
      ensures ReachesBefore(db, t, |Members(db, t)|, o)
    {
      var p :| LeadsTo(db, t, p, o);
      PathTail(db, t, p, o);
    }
  }

  lemma AncestorsMonotone(db: Db, t: Hash, k: nat)
    ensures AncestorsBefore(db, t, k) <= Ancestors(db, t)
  {
    hide LeadsTo;
  }

  lemma CreatorAncestors(db: Db, t: Hash, k: nat)
    requires Closed(db) && k < |Members(db, t)|
    ensures Creator(db, Members(db, t)[k]).Some?
    ensures Ancestors(db, Creator(db, Members(db, t)[k]).value) <= Ancestors(db, t)
  {
    hide Members, Creator, Ancestors, AncestorsBefore, Closed;
    AncestorsNext(db, t, k);
    AncestorsMonotone(db, t, k + 1);
  }

  lemma NoMembersNoAncestors(db: Db, t: Hash)
    requires Members(db, t) == []
    ensures Ancestors(db, t) == {}
  {
    hide Members, Creator;
  }

  // ----- the order of the chain

  /** `ids` lists transactions in the order they were added to the chain: the creator of every ring
      member has no ring members itself or comes earlier. All transactions with ring members are
      listed. */
  ghost predicate Ordered(db: Db, ids: seq<Hash>) {
    && Closed(db)
    && (forall t :: Members(db, t) != [] ==> t in ids)
    && forall i, k :: 0 <= i < |ids| && 0 <= k < |Members(db, ids[i])| ==>
         NoMembersOrIn(db, Creator(db, Members(db, ids[i])[k]), ids[..i])
  }

  predicate NoMembersOrIn(db: Db, c: Option<Hash>, earlier: seq<Hash>) {
    c.Some? && (Members(db, c.value) == [] || c.value in earlier)
  }

  function FirstIndex(ids: seq<Hash>, t: Hash): (i: nat)
    requires t in ids
    ensures i < |ids| && ids[i] == t && t !in ids[..i]
  {
    if ids[0] == t then 0 else
    var i := FirstIndex(ids[1..], t);
    assert ids[..i + 1] == [ids[0]] + ids[1..][..i];
    i + 1
  }

  ghost function Rank(db: Db, ids: seq<Hash>, t: Hash): nat
    requires Ordered(db, ids)
  {
    if Members(db, t) == [] then 0 else FirstIndex(ids, t) + 1
  }

  /** Ranks drop along every edge of the graph, so there are no cycles. */
  lemma RankDrops(db: Db, ids: seq<Hash>, t: Hash, k: nat)
    requires Ordered(db, ids) && k < |Members(db, t)|
    ensures var c := Creator(db, Members(db, t)[k]);
            c.Some? && GetTx(db, c.value).Some? && Rank(db, ids, c.value) < Rank(db, ids, t)
  {
    hide Members, Creator, FirstIndex;
    var i := FirstIndex(ids, t);
    var c := Creator(db, Members(db, t)[k]);
    assert NoMembersOrIn(db, Creator(db, Members(db, ids[i])[k]), ids[..i]);
    if Members(db, c.value) != [] {
      FirstIndexPrefix(ids, i, c.value);
    }
  }

  lemma InPrefix(ids: seq<Hash>, f: nat, j: nat)
    requires f <= |ids| && j < |ids|
    ensures j < f ==> ids[j] in ids[..f]
  {
    if j < f {
      assert ids[..f][j] == ids[j];
    }
  }

  lemma FirstIndexPrefix(ids: seq<Hash>, i: nat, t: Hash)
    requires i <= |ids| && t in ids[..i]
    ensures t in ids && FirstIndex(ids, t) < i
  {
    var j :| 0 <= j < i && ids[..i][j] == t;
    assert ids[j] == t;
    InPrefix(ids, FirstIndex(ids, t), j);
  }

  // ----- counting paths

  /** The number of paths that start with one of the first k ring members. */
  ghost function PathsBefore(db: Db, ids: seq<Hash>, t: Hash, k: nat): nat
    requires Ordered(db, ids) && k <= |Members(db, t)|
    decreases Rank(db, ids, t), k
  {
    if k == 0 then 0 else
    RankDrops(db, ids, t, k - 1);
    var c := Creator(db, Members(db, t)[k - 1]).value;
    PathsBefore(db, ids, t, k - 1) + 1 + PathsBefore(db, ids, c, |Members(db, c)|)
  }

  /** The number of paths from t. */
  ghost function Paths(db: Db, ids: seq<Hash>, t: Hash): nat
    requires Ordered(db, ids)
  {
    PathsBefore(db, ids, t, |Members(db, t)|)
  }

  /** The number of paths to o that start with one of the first k ring members. */
  ghost function PathsToBefore(db: Db, ids: seq<Hash>, t: Hash, k: nat, o: Output): nat
    requires Ordered(db, ids) && k <= |Members(db, t)|
    decreases Rank(db, ids, t), k
  {
    if k == 0 then 0 else
    RankDrops(db, ids, t, k - 1);
    var m := Members(db, t)[k - 1];
    var c := Creator(db, m).value;
    PathsToBefore(db, ids, t, k - 1, o) + (if m == o then 1 else 0) + PathsToBefore(db, ids, c, |Members(db, c)|, o)
  }

  /** The number of paths from t to o. */
  ghost function PathsTo(db: Db, ids: seq<Hash>, t: Hash, o: Output): nat
    requires Ordered(db, ids)
  {
    PathsToBefore(db, ids, t, |Members(db, t)|, o)
  }

  lemma PathsToNext(db: Db, ids: seq<Hash>, t: Hash, k: nat, o: Output)
    requires Ordered(db, ids) && k < |Members(db, t)|
    ensures PathsToBefore(db, ids, t, 0, o) == 0
    ensures Creator(db, Members(db, t)[k]).Some?
    ensures PathsToBefore(db, ids, t, k + 1, o)
         == PathsToBefore(db, ids, t, k, o) + (if Members(db, t)[k] == o then 1 else 0)
            + PathsTo(db, ids, Creator(db, Members(db, t)[k]).value, o)
  {
    hide Members, Creator, Rank;
  }

  lemma PathsNext(db: Db, ids: seq<Hash>, t: Hash, k: nat)
    requires Ordered(db, ids) && k < |Members(db, t)|
    ensures PathsBefore(db, ids, t, 0) == 0
    ensures Creator(db, Members(db, t)[k]).Some?
    ensures PathsBefore(db, ids, t, k + 1)
         == PathsBefore(db, ids, t, k) + 1 + Paths(db, ids, Creator(db, Members(db, t)[k]).value)
  {
    hide Members, Creator, Rank;
  }

  lemma PathsStart(db: Db, ids: seq<Hash>, t: Hash, o: Output)
    requires Ordered(db, ids)
    ensures PathsBefore(db, ids, t, 0) == 0 && PathsToBefore(db, ids, t, 0, o) == 0
  {
  }

  /** The counts are numbers of paths: there is a set of exactly that many that holds them all. */
  lemma {:induction false} CountIsCardinality(db: Db, ids: seq<Hash>, t: Hash, k: nat,
      o: Output) returns (s: set<seq<nat>>)
    requires Ordered(db, ids) && k <= |Members(db, t)|
    ensures forall p :: p in s <==> LeadsTo(db, t, p, o) && p != [] && p[0] < k
    ensures |s| == PathsToBefore(db, ids, t, k, o)
    decreases Rank(db, ids, t), k
  {
    hide Members, Creator, LeadsTo, Ordered, Rank, PathsToBefore;
    if k == 0 {
      s := {};
      PathsStart(db, ids, t, o);
    } else {
      RankDrops(db, ids, t, k - 1);
      PathsToNext(db, ids, t, k - 1, o);
      var m := Members(db, t)[k - 1];
      var c := Creator(db, m).value;
      var before := CountIsCardinality(db, ids, t, k - 1, o);
      var behind := CountIsCardinality(db, ids, c, |Members(db, c)|, o);
      AllPaths(db, c, o, behind);
      s := JoinPaths(db, t, k - 1, o, before, behind);
    }
  }

  /** The paths that start with one of the first k ring members, and those through the next one. */
  lemma JoinPaths(db: Db, t: Hash, k: nat, o: Output, before: set<seq<nat>>,
      behind: set<seq<nat>>) returns (s: set<seq<nat>>)
    requires k < |Members(db, t)| && Creator(db, Members(db, t)[k]).Some?
    requires forall p :: p in before <==> LeadsTo(db, t, p, o) && p != [] && p[0] < k
    requires forall p :: p in behind <==> LeadsTo(db, Creator(db, Members(db, t)[k]).value, p, o)
    ensures forall p :: p in s <==> LeadsTo(db, t, p, o) && p != [] && p[0] < k + 1
    ensures |s| == |before| + (if Members(db, t)[k] == o then 1 else 0) + |behind|
  {
    hide Members, Creator, LeadsTo;
    var through := Prepended(k, behind);
    var direct := if Members(db, t)[k] == o then {[k]} else {};
    s := before + direct + through;
    SplitPaths(db, t, k, o, before, direct, through, behind);
  }

  lemma AllPaths(db: Db, t: Hash, o: Output, s: set<seq<nat>>)
    requires forall p :: p in s <==> LeadsTo(db, t, p, o) && p != [] && p[0] < |Members(db, t)|
    ensures forall p :: p in s <==> LeadsTo(db, t, p, o)
  {
    hide Members, Creator;
  }

  /** Putting one index in front of every path keeps them distinct. */
  lemma {:induction false} Prepended(k: nat, s: set<seq<nat>>) returns (r: set<seq<nat>>)
    ensures |r| == |s|
    ensures forall p :: p in r <==> p != [] && p[0] == k && p[1..] in s
    decreases s
  {
    if s == {} {
      r := {};
    } else {
      var q :| q in s;
      var rest := Prepended(k, s - {q});
      r := rest + {[k] + q};
      assert ([k] + q)[1..] == q;
      forall p | p != [] && p[0] == k && p[1..] == q
        ensures p == [k] + q
      {
      }
    }
  }

  lemma SplitPaths(db: Db, t: Hash, k: nat, o: Output, before: set<seq<nat>>, direct: set<seq<nat>>,
                   through: set<seq<nat>>, behind: set<seq<nat>>)
    requires k < |Members(db, t)| && Creator(db, Members(db, t)[k]).Some?
    requires forall p :: p in before <==> LeadsTo(db, t, p, o) && p != [] && p[0] < k
    requires forall p :: p in behind <==> LeadsTo(db, Creator(db, Members(db, t)[k]).value, p, o)
    requires forall p :: p in through <==> p != [] && p[0] == k && p[1..] in behind
    requires direct == if Members(db, t)[k] == o then {[k]} else {}
    ensures forall p :: p in before + direct + through <==> LeadsTo(db, t, p, o) && p != [] && p[0] < k + 1
    ensures |before + direct + through| == |before| + |direct| + |through|
  {
    hide Members, Creator, IsPath, PathEnd;
    forall p
      ensures p in before + direct + through <==> LeadsTo(db, t, p, o) && p != [] && p[0] < k + 1
    {
      if LeadsTo(db, t, p, o) {
        PathTail(db, t, p, o);
        if |p| == 1 {
          assert p == [p[0]];
        }
      }
      if p in direct {
        PathSingle(db, t, k);
      }
      if p in through {
        PathCons(db, t, k, p[1..], o);
        assert p == [k] + p[1..];
      }
    }
    forall p | p in through
      ensures |p| > 1
    {
      PathNotEmpty(db, Creator(db, Members(db, t)[k]).value, p[1..], o);
    }
    assert before !! direct && before !! through && direct !! through;
  }

  lemma PathNotEmpty(db: Db, t: Hash, p: seq<nat>, o: Output)
    requires LeadsTo(db, t, p, o)
    ensures p != []
  {
  }

  /** An output is reachable exactly when some path is counted. */
  lemma ReachesIffCounted(db: Db, ids: seq<Hash>, t: Hash, o: Output)
    requires Ordered(db, ids)
    ensures PathsTo(db, ids, t, o) > 0 <==> o in Ancestors(db, t)
  {
    hide Members, Creator, LeadsTo, Closed;
    var s := CountIsCardinality(db, ids, t, |Members(db, t)|, o);
    AllPaths(db, t, o, s);
    InAncestors(db, t, o);
    if s != {} {
      var p :| p in s;
      assert LeadsTo(db, t, p, o);
    }
  }
}
