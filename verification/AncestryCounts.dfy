/**
 How many ring-member paths there are from a transaction, by the output they end at.
 */
module AncestryCounts {
  import opened AncestryDb
  import opened AncestryGraph

  // ----- sums

  ghost function SumOver(s: set<Output>, f: map<Output, nat>): nat
    requires s <= f.Keys
    decreases s
  {
    if s == {} then 0 else
    var x :| x in s;
    f[x] + SumOver(s - {x}, f)
  }

  lemma {:induction false} SumOverAny(s: set<Output>, f: map<Output, nat>, x: Output)
    requires s <= f.Keys && x in s
    ensures SumOver(s, f) == f[x] + SumOver(s - {x}, f)
    decreases s
  {
    var y :| y in s && SumOver(s, f) == f[y] + SumOver(s - {y}, f);
    if y != x {
      SumOverAny(s - {y}, f, x);
      SumOverAny(s - {x}, f, y);
      assert s - {y} - {x} == s - {x} - {y};
    }
  }

  /** Adding two sums and one more for a single output. */
  lemma {:induction false} SumOverStep(s: set<Output>, f: map<Output, nat>, g: map<Output, nat>, h: map<Output, nat>,
      m: Output)
    requires s <= f.Keys && s <= g.Keys && s <= h.Keys
    requires forall o :: o in s ==> h[o] == f[o] + g[o] + if o == m then 1 else 0
    ensures SumOver(s, h) == SumOver(s, f) + SumOver(s, g) + if m in s then 1 else 0
    decreases s
  {
    if s != {} {
      var x :| x in s;
      SumOverAny(s, f, x);
      SumOverAny(s, g, x);
      SumOverAny(s, h, x);
      SumOverStep(s - {x}, f, g, h, m);
    }
  }

  /** Taking every value modulo something loses nothing exactly when all values are below it. */
  lemma {:induction false} SumOverModulo(s: set<Output>, f: map<Output, nat>, g: map<Output, nat>, n: nat)
    requires n > 0 && s <= f.Keys && s <= g.Keys
    requires forall o :: o in s ==> g[o] == f[o] % n
    ensures SumOver(s, g) <= SumOver(s, f)
    ensures SumOver(s, g) == SumOver(s, f) <==> forall o :: o in s ==> f[o] < n
    decreases s
  {
    if s != {} {
      var x :| x in s;
      SumOverAny(s, f, x);
      SumOverAny(s, g, x);
      SumOverModulo(s - {x}, f, g, n);
      ModuloLess(f[x], n);
    }
  }

  lemma ModuloLess(a: nat, n: nat)
    requires n > 0
    ensures a % n <= a
    ensures a % n == a <==> a < n
  {
  }

  lemma {:induction false} SumOverZero(s: set<Output>, f: map<Output, nat>)
    requires s <= f.Keys && forall o :: o in s ==> f[o] == 0
    ensures SumOver(s, f) == 0
    decreases s
  {
    if s != {} {
      var x :| x in s;
      SumOverAny(s, f, x);
      SumOverZero(s - {x}, f);
    }
  }

  // ----- all paths, by where they end

  ghost function CountsBefore(db: Db, ids: seq<Hash>, t: Hash, k: nat, s: set<Output>): (f: map<Output, nat>)
    requires Ordered(db, ids) && k <= |Members(db, t)|
    ensures f.Keys == s
  {
    map o | o in s :: PathsToBefore(db, ids, t, k, o)
  }

  lemma {:induction false} PathsByEnd(db: Db, ids: seq<Hash>, t: Hash, k: nat, s: set<Output>)
    requires Ordered(db, ids) && k <= |Members(db, t)|
    requires forall o :: PathsToBefore(db, ids, t, k, o) > 0 ==> o in s
    ensures PathsBefore(db, ids, t, k) == SumOver(s, CountsBefore(db, ids, t, k, s))
    decreases Rank(db, ids, t), k
  {
    hide Members, Creator, Ordered, Rank, PathsBefore, PathsToBefore;
    if k == 0 {
      forall o
        ensures PathsToBefore(db, ids, t, 0, o) == 0
      {
        PathsStart(db, ids, t, o);
      }
      PathsStart(db, ids, t, Output(0, 0));
      SumOverZero(s, CountsBefore(db, ids, t, 0, s));
    } else {
      RankDrops(db, ids, t, k - 1);
      var m := Members(db, t)[k - 1];
      var c := Creator(db, m).value;
      forall o
        ensures PathsToBefore(db, ids, t, k, o)
             == PathsToBefore(db, ids, t, k - 1, o) + (if m == o then 1 else 0)
             + PathsToBefore(db, ids, c, |Members(db, c)|, o)
      {
        PathsToNext(db, ids, t, k - 1, o);
      }
      PathsByEnd(db, ids, t, k - 1, s);
      PathsByEnd(db, ids, c, |Members(db, c)|, s);
      PathsNext(db, ids, t, k - 1);
      assert PathsToBefore(db, ids, t, k, m) > 0;
      SumOverStep(s, CountsBefore(db, ids, t, k - 1, s), CountsBefore(db, ids, c, |Members(db, c)|, s),
          CountsBefore(db, ids, t, k, s), m);
    }
  }

  ghost function Counts(db: Db, ids: seq<Hash>, t: Hash): (f: map<Output, nat>)
    requires Ordered(db, ids)
    ensures f.Keys == Ancestors(db, t)
  {
    map o | o in Ancestors(db, t) :: PathsTo(db, ids, t, o)
  }

  /** Every path ends at one of the ancestors. */
  lemma PathsSum(db: Db, ids: seq<Hash>, t: Hash)
    requires Ordered(db, ids)
    ensures SumOver(Ancestors(db, t), Counts(db, ids, t)) == Paths(db, ids, t)
  {
    hide Members, Creator, Ordered, Rank, PathsToBefore, PathsBefore, SumOver, Ancestors;
    forall o
      ensures PathsTo(db, ids, t, o) > 0 <==> o in Ancestors(db, t)
    {
      ReachesIffCounted(db, ids, t, o);
    }
    PathsByEnd(db, ids, t, |Members(db, t)|, Ancestors(db, t));
    assert Counts(db, ids, t) == CountsBefore(db, ids, t, |Members(db, t)|, Ancestors(db, t));
  }
}
