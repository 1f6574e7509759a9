/** Distances from a set of seeds by repeated joins, in two versions. */
module ShortestPaths {
  import opened Reduction

  datatype Edge = Edge(src: int, dst: int)

  /** A vertex and the seed it was reached from. */
  type Pair = (int, int)
  /** A pair and a distance. */
  type Row = (Pair, nat)
  type Distances = map<Pair, nat>

  // ---------------------------------------------------------------------
  // The reference: walks and their least lengths
  // ---------------------------------------------------------------------

  /** A path is a sequence of vertices joined by edges. */
  ghost predicate IsPath(edges: seq<Edge>, path: seq<int>) {
    path != [] && forall i :: 0 <= i < |path| - 1 ==> Edge(path[i], path[i + 1]) in edges
  }

  /** There is a path of d edges from s to v. */
  ghost predicate Reaches(edges: seq<Edge>, s: int, v: int, d: nat) {
    exists path :: IsPath(edges, path) && |path| == d + 1 && path[0] == s && path[d] == v
  }

  /** The same by steps. */
  ghost predicate Walk(edges: seq<Edge>, s: int, v: int, d: nat)
    decreases d
  {
    if d == 0 then s == v
    else exists u :: Walk(edges, s, u, d - 1) && Edge(u, v) in edges
  }

  lemma {:induction false} WalkIffPath(edges: seq<Edge>, s: int, v: int, d: nat)
    ensures Walk(edges, s, v, d) <==> Reaches(edges, s, v, d)
    decreases d
  {
    if d == 0 {
      assert Walk(edges, s, v, d) ==> IsPath(edges, [s]) && [s][0] == v;
    } else {
      if Walk(edges, s, v, d) {
        var u :| Walk(edges, s, u, d - 1) && Edge(u, v) in edges;
        WalkIffPath(edges, s, u, d - 1);
        var path :| IsPath(edges, path) && |path| == d && path[0] == s && path[d - 1] == u;
        assert IsPath(edges, path + [v]) && (path + [v])[d] == v;
      }
      if Reaches(edges, s, v, d) {
        var path :| IsPath(edges, path) && |path| == d + 1 && path[0] == s && path[d] == v;
        assert IsPath(edges, path[..d]) && path[..d][d - 1] == path[d - 1];
        assert Reaches(edges, s, path[d - 1], d - 1);
        WalkIffPath(edges, s, path[d - 1], d - 1);
        assert Edge(path[d - 1], path[d - 1 + 1]) in edges;
      }
    }
  }

  /** d is the true shortest distance from s to v. */
  ghost predicate Shortest(edges: seq<Edge>, s: int, v: int, d: nat) {
    Walk(edges, s, v, d) && forall e: nat :: e < d ==> !Walk(edges, s, v, e)
  }

  ghost predicate Reachable(edges: seq<Edge>, s: int, v: int) {
    exists d: nat :: Walk(edges, s, v, d)
  }

  /** There is a walk of at most k edges from s to v. */
  ghost predicate Within(edges: seq<Edge>, s: int, v: int, k: nat) {
    exists d: nat :: d <= k && Walk(edges, s, v, d)
  }

  lemma {:induction false} SomeShortest(edges: seq<Edge>, s: int, v: int, d: nat) returns (e: nat)
    requires Walk(edges, s, v, d)
    ensures Shortest(edges, s, v, e) && e <= d
  {
    if e0: nat :| e0 < d && Walk(edges, s, v, e0) {
      e := SomeShortest(edges, s, v, e0);
    } else {
      e := d;
    }
  }

  /** The distances of all pairs within k edges of a seed in [0, n). */
  ghost predicate ExactWithin(edges: seq<Edge>, n: int, k: nat, dist: Distances) {
    && (forall v, s :: (v, s) in dist ==> 0 <= s < n && dist[(v, s)] <= k && Shortest(edges, s, v, dist[(v, s)]))
    && (forall v, s {:trigger Within(edges, s, v, k)} :: 0 <= s < n && Within(edges, s, v, k) ==> (v, s) in dist)
  }

  /** The distances of all reachable pairs. */
  ghost predicate Exact(edges: seq<Edge>, n: int, dist: Distances) {
    && (forall v, s :: (v, s) in dist ==> 0 <= s < n && Shortest(edges, s, v, dist[(v, s)]))
    && (forall v, s {:trigger Reachable(edges, s, v)} :: 0 <= s < n && Reachable(edges, s, v) ==> (v, s) in dist)
  }

  lemma ExactWithinIsUnique(edges: seq<Edge>, n: int, k: nat, dist1: Distances, dist2: Distances)
    requires ExactWithin(edges, n, k, dist1) && ExactWithin(edges, n, k, dist2)
    ensures dist1 == dist2
  {
    forall v, s
      ensures (v, s) in dist1 <==> (v, s) in dist2
      ensures (v, s) in dist1 ==> dist1[(v, s)] == dist2[(v, s)]
    {
      if (v, s) in dist1 || (v, s) in dist2 {
        assert Within(edges, s, v, k);
      }
    }
    forall p | p in dist1 || p in dist2
      ensures p in dist1 && p in dist2 && dist1[p] == dist2[p]
    {
      assert p == (p.0, p.1);
    }
  }

  // ---------------------------------------------------------------------
  // One round of each program
  // ---------------------------------------------------------------------

  function Less(a: nat, b: nat): bool {
    a < b
  }

  lemma LessIsStrictTotal()
    ensures StrictTotal(Less)
  {
  }

  function RowsOf(dist: Distances): set<Row> {
    set p | p in dist :: (p, dist[p])
  }

  /** join with the edges, then one step further. */
  function NextStep(rows: set<Row>, edges: seq<Edge>): set<Row> {
    set r, e | r in rows && e in edges && e.src == r.0.0 :: ((e.dst, r.0.1), r.1 + 1)
  }

  /** Every seed in [0, n) starts at distance 0 from itself. */
  function Seeds(n: int): Distances
    decreases if n < 0 then 0 else n
  {
    if n <= 0 then map[] else Seeds(n - 1)[(n - 1, n - 1) := 0]
  }

  /** One round of lca.py extends every known distance. */
  ghost predicate FullRound(edges: seq<Edge>, dist: Distances, after: Distances) {
    LeastByKey(Less, NextStep(RowsOf(dist), edges) + RowsOf(dist), after)
  }

  /** One round of lca_improved.py extends the rows of the last step only. */
  ghost predicate LastStepRound(edges: seq<Edge>, round: nat, dist: Distances, last: set<Row>, after: Distances,
                                last': set<Row>) {
    && LeastByKey(Less, RowsOf(dist) + NextStep(last, edges), after)
    && last' == (set r | r in NextStep(last, edges) && r.1 == round)
  }

  /** The rows of the last step after k rounds: one for every walk of k edges. */
  ghost predicate LastIsExact(edges: seq<Edge>, n: int, k: nat, last: set<Row>) {
    forall r: Row :: r in last <==> 0 <= r.0.1 < n && r.1 == k && Walk(edges, r.0.1, r.0.0, k)
  }

  /** Rows that start from all distances within k. */
  lemma RowsWithin(edges: seq<Edge>, n: int, k: nat, dist: Distances, s: int, v: int, d: nat)
    requires ExactWithin(edges, n, k, dist) && 0 <= s < n && d <= k && Walk(edges, s, v, d)
    ensures (v, s) in dist && dist[(v, s)] <= d && ((v, s), dist[(v, s)]) in RowsOf(dist)
  {
    assert Within(edges, s, v, k);
  }

  lemma NextRow(edges: seq<Edge>, rows: set<Row>, u: int, s: int, d: nat, v: int)
    requires ((u, s), d) in rows && Edge(u, v) in edges
    ensures ((v, s), d + 1) in NextStep(rows, edges)
  {
    var r: Row, e := ((u, s), d), Edge(u, v);
    assert r in rows && e in edges && e.src == r.0.0;
  }

  lemma FullRoundReaches(edges: seq<Edge>, n: int, k: nat, dist: Distances, s: int, v: int, d: nat) returns (e: nat)
    requires ExactWithin(edges, n, k, dist) && 0 <= s < n && d <= k + 1 && Walk(edges, s, v, d)
    ensures e <= d && ((v, s), e) in NextStep(RowsOf(dist), edges) + RowsOf(dist)
  {
    if d <= k {
      RowsWithin(edges, n, k, dist, s, v, d);
      e := dist[(v, s)];
    } else {
      var u :| Walk(edges, s, u, d - 1) && Edge(u, v) in edges;
      RowsWithin(edges, n, k, dist, s, u, d - 1);
      NextRow(edges, RowsOf(dist), u, s, dist[(u, s)], v);
      e := dist[(u, s)] + 1;
    }
  }

  lemma FullRoundExact(edges: seq<Edge>, n: int, k: nat, dist: Distances, after: Distances)
    requires ExactWithin(edges, n, k, dist) && FullRound(edges, dist, after)
    ensures ExactWithin(edges, n, k + 1, after)
    ensures dist.Keys <= after.Keys
  {
    var rows := NextStep(RowsOf(dist), edges) + RowsOf(dist);
    forall r: Row | r in rows
      ensures IsWalkRow(edges, n, k + 1, r)
    {
      RowIsWalk(edges, n, k, dist, RowsOf(dist), r);
    }
    forall v, s, d: nat | 0 <= s < n && d <= k + 1 && Walk(edges, s, v, d)
      ensures exists e: nat :: e <= d && ((v, s), e) in rows
    {
      var e := FullRoundReaches(edges, n, k, dist, s, v, d);
    }
    LeastRowsExact(edges, n, k + 1, rows, after);
    forall p | p in dist
      ensures p in after
    {
      assert (p, dist[p]) in rows;
    }
  }

  /** A row that stands for a walk of at most k edges. */
  ghost predicate IsWalkRow(edges: seq<Edge>, n: int, k: nat, r: Row) {
    0 <= r.0.1 < n && r.1 <= k && Walk(edges, r.0.1, r.0.0, r.1)
  }

  lemma KnownRow(edges: seq<Edge>, n: int, k: nat, dist: Distances, r: Row)
    requires ExactWithin(edges, n, k, dist) && r in RowsOf(dist)
    ensures 0 <= r.0.1 < n && r.1 <= k && Shortest(edges, r.0.1, r.0.0, r.1)
  {
    var v, s := r.0.0, r.0.1;
    var p :| p in dist && r == (p, dist[p]);
    assert p == (v, s);
    assert (v, s) in dist && r.1 == dist[(v, s)];
  }

  lemma RowIsWalk(edges: seq<Edge>, n: int, k: nat, dist: Distances, from: set<Row>, r: Row)
    requires ExactWithin(edges, n, k, dist)
    requires from == RowsOf(dist) || forall f: Row :: f in from ==> IsWalkRow(edges, n, k, f)
    requires r in NextStep(from, edges) + RowsOf(dist)
    ensures IsWalkRow(edges, n, k + 1, r)
  {
    if r in RowsOf(dist) {
      KnownRow(edges, n, k, dist, r);
    } else {
      var f, e :| f in from && e in edges && e.src == f.0.0 && r == ((e.dst, f.0.1), f.1 + 1);
      assert e == Edge(f.0.0, r.0.0);
      if from == RowsOf(dist) {
        KnownRow(edges, n, k, dist, f);
      }
    }
  }

  /** Rows that are walks of at most k edges, and reach every pair as early as any
      such walk, reduce to the exact distances within k. */
  lemma LeastRowsExact(edges: seq<Edge>, n: int, k: nat, rows: set<Row>, after: Distances)
    requires LeastByKey(Less, rows, after)
    requires forall r: Row :: r in rows ==> IsWalkRow(edges, n, k, r)
    requires forall v, s, d: nat :: 0 <= s < n && d <= k && Walk(edges, s, v, d) ==>
      exists e: nat :: e <= d && ((v, s), e) in rows
    ensures ExactWithin(edges, n, k, after)
  {
    forall v, s | (v, s) in after
      ensures 0 <= s < n && after[(v, s)] <= k && Shortest(edges, s, v, after[(v, s)])
    {
      var d := after[(v, s)];
      assert d in ValuesOf(rows, (v, s));
      assert ((v, s), d) in rows;
      forall e: nat | ((v, s), e) in rows
        ensures d <= e
      {
        assert e in ValuesOf(rows, (v, s));
      }
    }
    forall v, s | 0 <= s < n && Within(edges, s, v, k)
      ensures (v, s) in after
    {
      var d: nat :| d <= k && Walk(edges, s, v, d);
      var e: nat :| e <= d && ((v, s), e) in rows;
      assert (v, s) in KeysOf(rows);
    }
  }

  /** The rows of one more step: every walk of one more edge. */
  lemma NextStepExact(edges: seq<Edge>, n: int, k: nat, last: set<Row>)
    requires LastIsExact(edges, n, k, last)
    ensures LastIsExact(edges, n, k + 1, NextStep(last, edges))
  {
    var next := NextStep(last, edges);
    forall r: Row
      ensures r in next <==> 0 <= r.0.1 < n && r.1 == k + 1 && Walk(edges, r.0.1, r.0.0, k + 1)
    {
      if 0 <= r.0.1 < n && r.1 == k + 1 && Walk(edges, r.0.1, r.0.0, k + 1) {
        var u :| Walk(edges, r.0.1, u, k) && Edge(u, r.0.0) in edges;
        assert ((u, r.0.1), k) in last;
        assert ((r.0.0, r.0.1), k + 1) in next;
      }
      if r in next {
        var f, e :| f in last && e in edges && e.src == f.0.0 && r == ((e.dst, f.0.1), f.1 + 1);
        assert e == Edge(f.0.0, r.0.0);
      }
    }
  }

  lemma LastStepRoundExact(edges: seq<Edge>, n: int, k: nat, dist: Distances, last: set<Row>, after: Distances,
                           last': set<Row>)
    requires ExactWithin(edges, n, k, dist) && LastIsExact(edges, n, k, last)
    requires LastStepRound(edges, k + 1, dist, last, after, last')
    ensures ExactWithin(edges, n, k + 1, after) && LastIsExact(edges, n, k + 1, last')
    ensures last' == NextStep(last, edges)
  {
    NextStepExact(edges, n, k, last);
    var next := NextStep(last, edges);
    assert last' == next;
    var rows := RowsOf(dist) + next;
    forall r: Row | r in rows
      ensures IsWalkRow(edges, n, k + 1, r)
    {
      if r in RowsOf(dist) {
        KnownRow(edges, n, k, dist, r);
      }
    }
    forall v, s, d: nat | 0 <= s < n && d <= k + 1 && Walk(edges, s, v, d)
      ensures exists e: nat :: e <= d && ((v, s), e) in rows
    {
      if d <= k {
        RowsWithin(edges, n, k, dist, s, v, d);
        assert ((v, s), dist[(v, s)]) in rows;
      } else {
        assert ((v, s), d) in next;
      }
    }
    LeastRowsExact(edges, n, k + 1, rows, after);
  }

  // ---------------------------------------------------------------------
  // The stop test
  // ---------------------------------------------------------------------

  ghost predicate FirstReachedAt(edges: seq<Edge>, n: int, d: nat) {
    exists v, s :: 0 <= s < n && Shortest(edges, s, v, d)
  }

  /** The number of rounds: up to the first distance at which nothing new is reached.
      Without seeds the two counters decide alone. */
  ghost predicate StopsAfter(edges: seq<Edge>, n: int, rounds: nat) {
    if n > 0 then
      && rounds >= 1 && !FirstReachedAt(edges, n, rounds)
      && forall d: nat :: 1 <= d < rounds ==> FirstReachedAt(edges, n, d)
    else
      rounds == if n == 0 then 0 else 2
  }

  lemma StopsAfterIsUnique(edges: seq<Edge>, n: int, a: nat, b: nat)
    requires StopsAfter(edges, n, a) && StopsAfter(edges, n, b)
    ensures a == b
  {
    assert n > 0 && a < b ==> FirstReachedAt(edges, n, a);
    assert n > 0 && b < a ==> FirstReachedAt(edges, n, b);
  }

  function Vertices(edges: seq<Edge>, n: int): set<int> {
    (set p | p in Seeds(n) :: p.0) + (set e | e in edges :: e.dst)
  }

  /** All pairs that can ever appear: targets of edges and seeds, with a seed. */
  function Universe(edges: seq<Edge>, n: int): set<Pair> {
    set v, p | v in Vertices(edges, n) && p in Seeds(n) :: (v, p.1)
  }

  lemma KeysBounded(edges: seq<Edge>, n: int, k: nat, dist: Distances)
    requires ExactWithin(edges, n, k, dist)
    ensures dist.Keys <= Universe(edges, n) && |dist| <= |Universe(edges, n)|
  {
    forall p | p in dist.Keys
      ensures p in Universe(edges, n)
    {
      var v, s := p.0, p.1;
      assert p == (v, s) && (v, s) in dist;
      SeedsAre(n);
      assert (s, s) in Seeds(n) && (s, s).0 == s && (s, s).1 == s;
      var d := dist[(v, s)];
      if d > 0 {
        var u :| Walk(edges, s, u, d - 1) && Edge(u, v) in edges;
        assert Edge(u, v).dst == v;
      }
      assert v in Vertices(edges, n);
      assert (v, (s, s).1) in Universe(edges, n);
    }
    SubsetIsSmaller(dist.Keys, Universe(edges, n));
  }

  lemma {:induction false} SubsetIsSmaller<T>(a: set<T>, b: set<T>)
    requires a <= b
    ensures |a| <= |b|
    ensures |a| == |b| ==> a == b
  {
    assert b == a + (b - a);
  }

  /** A round that adds no pair ends the search: every reachable pair is there, with
      its true distance. */
  lemma UnchangedCountIsComplete(edges: seq<Edge>, n: int, k: nat, dist: Distances, after: Distances)
    requires ExactWithin(edges, n, k, dist) && ExactWithin(edges, n, k + 1, after)
    requires dist.Keys <= after.Keys && |dist| == |after|
    ensures Exact(edges, n, after) && after == dist && !FirstReachedAt(edges, n, k + 1)
  {
    SubsetIsSmaller(dist.Keys, after.Keys);
    forall v, s | (v, s) in after
      ensures after[(v, s)] == dist[(v, s)]
    {
      assert (v, s) in dist;
    }
    forall p | p in after
      ensures after[p] == dist[p]
    {
      assert p == (p.0, p.1);
    }
    forall v, s | 0 <= s < n && Reachable(edges, s, v)
      ensures (v, s) in after
    {
      var d: nat :| Walk(edges, s, v, d);
      ReachedBySomeRound(edges, n, k, dist, after, s, v, d);
    }
    var next := k + 1;
    forall v, s | 0 <= s < n && Walk(edges, s, v, next)
      ensures !Shortest(edges, s, v, next)
    {
      assert Within(edges, s, v, next);
      assert dist[(v, s)] <= k && Walk(edges, s, v, dist[(v, s)]);
    }
  }

  lemma {:induction false} ReachedBySomeRound(edges: seq<Edge>, n: int, k: nat, dist: Distances, after: Distances,
                                              s: int, v: int, d: nat)
    requires ExactWithin(edges, n, k, dist) && ExactWithin(edges, n, k + 1, after) && dist.Keys == after.Keys
    requires 0 <= s < n && Walk(edges, s, v, d)
    ensures (v, s) in after
    decreases d
  {
    if d > 0 {
      var u :| Walk(edges, s, u, d - 1) && Edge(u, v) in edges;
      ReachedBySomeRound(edges, n, k, dist, after, s, u, d - 1);
      assert (u, s) in dist;
      assert Walk(edges, s, v, dist[(u, s)] + 1);
      assert Within(edges, s, v, k + 1);
    } else {
      assert Within(edges, s, v, k);
    }
  }

  /** A round that adds a pair reaches something at its own distance. */
  lemma GrownCountIsNew(edges: seq<Edge>, n: int, k: nat, dist: Distances, after: Distances)
    requires ExactWithin(edges, n, k, dist) && ExactWithin(edges, n, k + 1, after)
    requires dist.Keys <= after.Keys && |dist| != |after|
    ensures FirstReachedAt(edges, n, k + 1) && |dist| < |after|
  {
    assert |dist| == |dist.Keys| && |after| == |after.Keys|;
    SubsetIsSmaller(dist.Keys, after.Keys);
    assert dist.Keys != after.Keys;
    var p :| p in after.Keys && p !in dist.Keys;
    var v, s := p.0, p.1;
    assert p == (v, s) && (v, s) in after;
    assert after[(v, s)] <= k ==> Within(edges, s, v, k);
  }

  lemma {:induction false} SeedsAre(n: int)
    ensures |Seeds(n)| == if n < 0 then 0 else n
    ensures forall p :: p in Seeds(n) <==> 0 <= p.0 < n && p.1 == p.0
    ensures forall p :: p in Seeds(n) ==> Seeds(n)[p] == 0
    decreases if n < 0 then 0 else n
  {
    if n > 0 {
      SeedsAre(n - 1);
      var last := (n - 1, n - 1);
      assert last !in Seeds(n - 1);
      forall p
        ensures p in Seeds(n) <==> 0 <= p.0 < n && p.1 == p.0
      {
        assert p in Seeds(n) <==> p in Seeds(n - 1) || p == last;
      }
    }
  }

  lemma SeedRow(edges: seq<Edge>, n: int, r: Row)
    ensures r in RowsOf(Seeds(n)) <==> 0 <= r.0.1 < n && r.1 == 0 && Walk(edges, r.0.1, r.0.0, 0)
  {
    SeedsAre(n);
    if 0 <= r.0.1 < n && r.1 == 0 && r.0.1 == r.0.0 {
      assert r.0 in Seeds(n) && r == (r.0, Seeds(n)[r.0]);
    }
  }

  lemma SeedsWithin(edges: seq<Edge>, n: int)
    ensures ExactWithin(edges, n, 0, Seeds(n))
  {
    SeedsAre(n);
    forall v, s | (v, s) in Seeds(n)
      ensures 0 <= s < n && Seeds(n)[(v, s)] == 0 && Shortest(edges, s, v, 0)
    {
      assert (v, s).0 == (v, s).1;
    }
    forall v, s | 0 <= s < n && Within(edges, s, v, 0)
      ensures (v, s) in Seeds(n)
    {
      assert (v, s).0 == v && (v, s).1 == s;
    }
  }

  lemma SeedsExact(edges: seq<Edge>, n: int)
    ensures ExactWithin(edges, n, 0, Seeds(n))
    ensures |Seeds(n)| == if n < 0 then 0 else n
    ensures LastIsExact(edges, n, 0, RowsOf(Seeds(n)))
  {
    SeedsWithin(edges, n);
    SeedsAre(n);
    forall r: Row
      ensures r in RowsOf(Seeds(n)) <==> 0 <= r.0.1 < n && r.1 == 0 && Walk(edges, r.0.1, r.0.0, 0)
    {
      SeedRow(edges, n, r);
    }
  }

  /** What holds before every test of the loop, in both programs: after `rounds`
      rounds the distances are exact within that many edges. */
  ghost predicate LoopInv(edges: seq<Edge>, n: int, rounds: nat, dist: Distances, oldCount: int, newCount: int) {
    && ExactWithin(edges, n, rounds, dist)
    && (if rounds == 0 then oldCount == 0 && newCount == n else newCount == |dist|)
    && (n > 0 ==>
          && newCount == |dist| && n + rounds <= newCount + (if rounds > 0 && oldCount == newCount then 1 else 0)
          && (rounds > 0 && oldCount == newCount ==> Exact(edges, n, dist) && !FirstReachedAt(edges, n, rounds))
          && (forall d: nat :: 1 <= d <= rounds && (d < rounds || oldCount != newCount) ==>
              FirstReachedAt(edges, n, d)))
    && (n == 0 ==> rounds == 0)
    && (n <= 0 ==> dist == map[] && rounds <= 2 && (rounds == 1 ==> oldCount == n) && (rounds == 2 ==> oldCount == 0))
  }

  lemma LoopInvStep(edges: seq<Edge>, n: int, rounds: nat, dist: Distances, oldCount: int, newCount: int,
                    after: Distances)
    requires LoopInv(edges, n, rounds, dist, oldCount, newCount) && oldCount != newCount
    requires ExactWithin(edges, n, rounds + 1, after) && dist.Keys <= after.Keys
    ensures LoopInv(edges, n, rounds + 1, after, newCount, |after|)
  {
    if n > 0 {
      if |after| == |dist| {
        UnchangedCountIsComplete(edges, n, rounds, dist, after);
      } else {
        GrownCountIsNew(edges, n, rounds, dist, after);
      }
    } else {
      KeysBounded(edges, n, rounds + 1, after);
      assert Seeds(n) == map[];
      assert after.Keys == {};
    }
  }

  lemma LoopInvEnd(edges: seq<Edge>, n: int, rounds: nat, dist: Distances, oldCount: int, newCount: int)
    requires LoopInv(edges, n, rounds, dist, oldCount, newCount) && oldCount == newCount
    ensures Found(edges, n, dist, rounds)
  {
    KeysBounded(edges, n, rounds, dist);
  }

  /** What is left to do; it goes down in every round. */
  ghost function Remaining(edges: seq<Edge>, n: int, oldCount: int, newCount: int): int {
    |Universe(edges, n)| - newCount + (if oldCount == newCount then 0 else 1)
  }

  lemma LoopStart(edges: seq<Edge>, n: int)
    ensures LoopInv(edges, n, 0, Seeds(n), 0, n) && LastIsExact(edges, n, 0, RowsOf(Seeds(n)))
  {
    SeedsExact(edges, n);
    if n <= 0 {
      assert Seeds(n) == map[];
    }
  }

  lemma RemainingFalls(edges: seq<Edge>, n: int, rounds: nat, dist: Distances, oldCount: int, newCount: int,
                       after: Distances)
    requires LoopInv(edges, n, rounds, dist, oldCount, newCount) && oldCount != newCount
    requires ExactWithin(edges, n, rounds + 1, after) && dist.Keys <= after.Keys
    ensures 0 <= Remaining(edges, n, newCount, |after|) < Remaining(edges, n, oldCount, newCount)
  {
    KeysBounded(edges, n, rounds, dist);
    KeysBounded(edges, n, rounds + 1, after);
    SubsetIsSmaller(dist.Keys, after.Keys);
  }

  /** An iteration of lca.py. */
  lemma FullIterationKeeps(edges: seq<Edge>, n: int, rounds: nat, dist: Distances, oldCount: int, newCount: int,
                           after: Distances)
    requires LoopInv(edges, n, rounds, dist, oldCount, newCount) && oldCount != newCount
    requires FullRound(edges, dist, after)
    ensures LoopInv(edges, n, rounds + 1, after, newCount, |after|)
    ensures 0 <= Remaining(edges, n, newCount, |after|) < Remaining(edges, n, oldCount, newCount)
  {
    FullRoundExact(edges, n, rounds, dist, after);
    LoopInvStep(edges, n, rounds, dist, oldCount, newCount, after);
    RemainingFalls(edges, n, rounds, dist, oldCount, newCount, after);
  }

  /** An iteration of lca_improved.py. */
  lemma LastStepIterationKeeps(edges: seq<Edge>, n: int, rounds: nat, dist: Distances, last: set<Row>,
                          oldCount: int, newCount: int, after: Distances, last': set<Row>)
    requires LoopInv(edges, n, rounds, dist, oldCount, newCount) && oldCount != newCount
    requires LastIsExact(edges, n, rounds, last) && LastStepRound(edges, rounds + 1, dist, last, after, last')
    ensures LoopInv(edges, n, rounds + 1, after, newCount, |after|) && LastIsExact(edges, n, rounds + 1, last')
    ensures 0 <= Remaining(edges, n, newCount, |after|) < Remaining(edges, n, oldCount, newCount)
  {
    LastStepRoundExact(edges, n, rounds, dist, last, after, last');
    KeysGrow(dist, last, edges, after);
    LoopInvStep(edges, n, rounds, dist, oldCount, newCount, after);
    RemainingFalls(edges, n, rounds, dist, oldCount, newCount, after);
  }

  lemma KeysGrow(dist: Distances, last: set<Row>, edges: seq<Edge>, after: Distances)
    requires LeastByKey(Less, RowsOf(dist) + NextStep(last, edges), after)
    ensures dist.Keys <= after.Keys
  {
    forall p | p in dist
      ensures p in after
    {
      assert (p, dist[p]) in RowsOf(dist) + NextStep(last, edges);
    }
  }

  // ---------------------------------------------------------------------
  // The two programs compared
  // ---------------------------------------------------------------------

  /** The fast form refines the simple one: after every round both programs hold the
      same distances, and so the same counts, whatever the graph. */
  lemma {:induction false} RoundsAgree(edges: seq<Edge>, n: int, full: seq<Distances>,
                                       lastDist: seq<Distances>, lastRows: seq<set<Row>>, k: nat)
    requires |full| == |lastDist| == |lastRows| && k < |full|
    requires full[0] == lastDist[0] == Seeds(n) && lastRows[0] == RowsOf(Seeds(n))
    requires forall i: nat :: i + 1 < |full| ==> FullRound(edges, full[i], full[i + 1])
    requires forall i: nat :: i + 1 < |full| ==>
      LastStepRound(edges, i + 1, lastDist[i], lastRows[i], lastDist[i + 1], lastRows[i + 1])
    ensures full[k] == lastDist[k]
    ensures ExactWithin(edges, n, k, full[k]) && LastIsExact(edges, n, k, lastRows[k])
  {
    if k == 0 {
      SeedsExact(edges, n);
    } else {
      RoundsAgree(edges, n, full, lastDist, lastRows, k - 1);
      assert FullRound(edges, full[k - 1], full[k - 1 + 1]);
      assert LastStepRound(edges, k - 1 + 1, lastDist[k - 1], lastRows[k - 1], lastDist[k - 1 + 1],
                           lastRows[k - 1 + 1]);
      FullRoundExact(edges, n, k - 1, full[k - 1], full[k]);
      LastStepRoundExact(edges, n, k - 1, lastDist[k - 1], lastRows[k - 1], lastDist[k], lastRows[k]);
      ExactWithinIsUnique(edges, n, k, full[k], lastDist[k]);
    }
  }

  /** What either program has found when it stops: every distance, after as many rounds
      as there are distances to find, and one more to notice. */
  ghost predicate Found(edges: seq<Edge>, n: int, dist: Distances, rounds: nat) {
    && Exact(edges, n, dist) && StopsAfter(edges, n, rounds)
    && (n > 0 ==> rounds <= |Universe(edges, n)| - n + 1)
  }

  /** Both programs end with the same distances after the same number of rounds. */
  lemma SameOutcome(edges: seq<Edge>, n: int, dist1: Distances, rounds1: nat, dist2: Distances, rounds2: nat)
    requires Found(edges, n, dist1, rounds1) && Found(edges, n, dist2, rounds2)
    ensures dist1 == dist2 && rounds1 == rounds2
  {
    StopsAfterIsUnique(edges, n, rounds1, rounds2);
    forall v, s
      ensures (v, s) in dist1 <==> (v, s) in dist2
      ensures (v, s) in dist1 ==> dist1[(v, s)] == dist2[(v, s)]
    {
      if (v, s) in dist1 || (v, s) in dist2 {
        assert Reachable(edges, s, v);
      }
    }
    forall p | p in dist1 || p in dist2
      ensures p in dist1 && p in dist2 && dist1[p] == dist2[p]
    {
      assert p == (p.0, p.1);
    }
  }
}
