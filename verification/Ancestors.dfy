/** The lowest common ancestor of every pair of seeds, by join and reduce. */
module Ancestors {
  import opened Options
  import opened Reduction
  import opened ShortestPaths

  datatype Paper = Paper(id: int, year: int)

  /** A distance row with the year of its vertex. */
  datatype Dated = Dated(vertex: int, seed: int, dist: nat, year: int)

  datatype Candidate = Candidate(id: int, dist: nat, year: int)

  function Max(a: nat, b: nat): nat {
    if a >= b then a else b
  }

  /** The keys that rows are joined on: ids, and pairs of a vertex and a seed. A pair
      never equals an id. */
  datatype Key = IdKey(id: int) | PairKey(vertex: int, seed: int)

  /** What a distance row holds beside its key. */
  datatype Held = SeedDistance(seed: int, dist: nat) | DistanceOnly(dist: nat)

  type KeyedRow = (Key, Held)

  /** The distances as lca.py leaves them: re-keyed by the vertex in every round. */
  function ByVertex(dist: Distances): set<KeyedRow> {
    set p | p in dist :: (IdKey(p.0), SeedDistance(p.1, dist[p]))
  }

  /** The distances as lca_improved.py leaves them: keyed by vertex and seed. */
  function ByPair(dist: Distances): set<KeyedRow> {
    set p | p in dist :: (PairKey(p.0, p.1), DistanceOnly(dist[p]))
  }

  /** The join with the papers, which are keyed by their ids. */
  function JoinPapers(rows: set<KeyedRow>, papers: seq<Paper>): set<(Key, Held, int)> {
    set r, q | r in rows && q in papers && r.0 == IdKey(q.id) :: (r.0, r.1, q.year)
  }

  /** The map behind that join; None when a row does not unpack into seed and distance. */
  function Unpack(e: (Key, Held, int)): Option<Dated> {
    if e.0.IdKey? && e.1.SeedDistance? then Some(Dated(e.0.id, e.1.seed, e.1.dist, e.2)) else None
  }

  function WithYears(rows: set<KeyedRow>, papers: seq<Paper>): set<Dated> {
    set e | e in JoinPapers(rows, papers) && Unpack(e).Some? :: Unpack(e).value
  }

  /** The self-join on the vertex, filtered to ordered pairs of seeds. */
  function SelfJoin(rows: set<Dated>): set<(Dated, Dated)> {
    set a, b | a in rows && b in rows && a.vertex == b.vertex && a.seed < b.seed :: (a, b)
  }

  /** transform_accestors; None when its assertion on the years fails. */
  function TransformAncestors(e: (Dated, Dated)): Option<(Pair, Candidate)> {
    if e.0.year != e.1.year then None
    else Some(((e.0.seed, e.1.seed), Candidate(e.0.vertex, Max(e.0.dist, e.1.dist), e.0.year)))
  }

  /** compare_accestors, branch by branch. */
  function CompareAncestors(v1: Candidate, v2: Candidate): Candidate {
    if v1.dist != v2.dist then
      if v1.dist < v2.dist then v1 else v2
    else if v1.year != v2.year then
      if v1.year < v2.year then v1 else v2
    else
      if v1.id < v2.id then v1 else v2
  }

  /** Smaller distance, then earlier year, then smaller id. */
  predicate Before(a: Candidate, b: Candidate) {
    || a.dist < b.dist
    || (a.dist == b.dist && a.year < b.year)
    || (a.dist == b.dist && a.year == b.year && a.id < b.id)
  }

  lemma CompareIsPick(a: Candidate, b: Candidate)
    ensures CompareAncestors(a, b) == Pick(Before, a, b)
  {
  }

  lemma BeforeIsStrictTotal()
    ensures StrictTotal(Before)
  {
  }

  /** Any bracketing and any order of compare_accestors over the same candidates gives
      the unique least one by distance, year and id. */
  lemma {:induction false} AncestorReduceIsIndependent(t1: Tree<Candidate>, t2: Tree<Candidate>)
    requires Leaves(t1) == Leaves(t2)
    ensures Fold(t1) == Fold(t2)
    ensures IsLeast(Before, Leaves(t1), Fold(t1))
  {
    BeforeIsStrictTotal();
    FoldIsReduce(t1);
    FoldIsReduce(t2);
    ReductionsAgree(Before, t1, t2);
    ReduceIsLeast(Before, t1);
  }

  /** compare_accestors folded along a tree. */
  function Fold(t: Tree<Candidate>): Candidate {
    match t
    case Leaf(c) => c
    case Node(l, r) => CompareAncestors(Fold(l), Fold(r))
  }

  lemma {:induction false} FoldIsReduce(t: Tree<Candidate>)
    ensures Fold(t) == Reduce(Before, t)
  {
    if t.Node? {
      FoldIsReduce(t.left);
      FoldIsReduce(t.right);
      CompareIsPick(Fold(t.left), Fold(t.right));
    }
  }

  /** Every joined row unpacks, and none trips the assertion on the years. */
  predicate NothingFails(rows: set<KeyedRow>, papers: seq<Paper>) {
    && (forall e :: e in JoinPapers(rows, papers) ==> Unpack(e).Some?)
    && (forall e :: e in SelfJoin(WithYears(rows, papers)) ==> TransformAncestors(e).Some?)
  }

  function CandidateRows(rows: set<KeyedRow>, papers: seq<Paper>): set<(Pair, Candidate)>
    requires NothingFails(rows, papers)
  {
    set e | e in SelfJoin(WithYears(rows, papers)) :: TransformAncestors(e).value
  }

  /** A result a program may write for its distance rows: some reduction of all
      candidate rows. */
  ghost predicate IsOutput(rows: set<KeyedRow>, papers: seq<Paper>, out: map<Pair, Candidate>) {
    NothingFails(rows, papers) && Reduces(Before, CandidateRows(rows, papers), out)
  }

  /** There is an output exactly when nothing fails. */
  lemma OutputExistsExactlyWhen(rows: set<KeyedRow>, papers: seq<Paper>)
    ensures NothingFails(rows, papers) <==> exists out :: IsOutput(rows, papers, out)
  {
    if NothingFails(rows, papers) {
      BeforeIsStrictTotal();
      var out := LeastExists(Before, CandidateRows(rows, papers));
      ReducesIffLeast(Before, CandidateRows(rows, papers), out);
      assert IsOutput(rows, papers, out);
    }
  }

  /** The order in which rows are combined does not show: the output is determined. */
  lemma OutputIsDetermined(rows: set<KeyedRow>, papers: seq<Paper>,
                           out1: map<Pair, Candidate>, out2: map<Pair, Candidate>)
    requires IsOutput(rows, papers, out1) && IsOutput(rows, papers, out2)
    ensures out1 == out2
  {
    BeforeIsStrictTotal();
    ReducesIffLeast(Before, CandidateRows(rows, papers), out1);
    ReducesIffLeast(Before, CandidateRows(rows, papers), out2);
    LeastIsUnique(Before, CandidateRows(rows, papers), out1, out2);
  }

  /** The join with the papers and the map behind it; None when a row does not unpack. */
  method AddYears(rows: set<KeyedRow>, papers: seq<Paper>) returns (out: Option<set<Dated>>)
    ensures out.Some? <==> forall e :: e in JoinPapers(rows, papers) ==> Unpack(e).Some?
    ensures out.Some? ==> out.value == WithYears(rows, papers)
  {
    var joined := JoinPapers(rows, papers);
    var dated: set<Dated> := {};
    var rest := joined;
    while rest != {}
      invariant rest <= joined
      invariant forall e :: e in joined - rest ==> Unpack(e).Some? && Unpack(e).value in dated
      invariant forall r :: r in dated ==> exists e :: e in joined && Unpack(e) == Some(r)
      decreases |rest|
    {
      var e :| e in rest;
      rest := rest - {e};
      var row := Unpack(e);
      if row == None {
        return None;
      }
      dated := dated + {row.value};
    }
    out := Some(dated);
  }

  /** The second half of both programs, word for word the same; None when it fails. */
  method LowestCommonAncestors(rows: set<KeyedRow>, papers: seq<Paper>) returns (out: Option<map<Pair, Candidate>>)
    ensures out.Some? <==> NothingFails(rows, papers)
    ensures out.Some? ==> IsOutput(rows, papers, out.value)
  {
    var dated := AddYears(rows, papers);
    if dated == None {
      return None;
    }
    var pairs := SelfJoin(dated.value);
    var candidates: set<(Pair, Candidate)> := {};
    var rest := pairs;
    while rest != {}
      invariant rest <= pairs
      invariant forall e :: e in pairs - rest ==>
        TransformAncestors(e).Some? && TransformAncestors(e).value in candidates
      invariant forall r :: r in candidates ==> exists e :: e in pairs && TransformAncestors(e) == Some(r)
      decreases |rest|
    {
      var e :| e in rest;
      rest := rest - {e};
      var row := TransformAncestors(e);
      if row == None {
        return None;
      }
      candidates := candidates + {row.value};
    }
    BeforeIsStrictTotal();
    assert candidates == CandidateRows(rows, papers);
    var reduced := ReduceByKey(Before, candidates);
    ReducesIffLeast(Before, candidates, reduced);
    out := Some(reduced);
  }

  /** Rows keyed by pairs join with no paper, so nothing is left to reduce. */
  lemma PairsJoinNothing(dist: Distances, papers: seq<Paper>, out: map<Pair, Candidate>)
    ensures JoinPapers(ByPair(dist), papers) == {}
    ensures IsOutput(ByPair(dist), papers, out) <==> out == map[]
  {
    var rows := ByPair(dist);
    assert WithYears(rows, papers) == {};
    assert NothingFails(rows, papers);
    assert CandidateRows(rows, papers) == {};
    assert KeysOf(CandidateRows(rows, papers)) == {};
  }

  // ---------------------------------------------------------------------
  // What the output means
  // ---------------------------------------------------------------------

  predicate IsLarger(a: nat, b: nat, m: nat) {
    a <= m && b <= m && (m == a || m == b)
  }

  /** The nearer first, then the earlier, then the smaller id. */
  predicate ComesFirst(a: Candidate, b: Candidate) {
    a.dist <= b.dist && (a.dist == b.dist ==> a.year <= b.year && (a.year == b.year ==> a.id < b.id))
  }

  /** Candidate c is a paper of known year that both seeds reach, at the larger of the
      two shortest distances. */
  ghost predicate CommonAncestor(edges: seq<Edge>, papers: seq<Paper>, s1: int, s2: int, c: Candidate) {
    && Paper(c.id, c.year) in papers
    && exists d1: nat, d2: nat ::
         Shortest(edges, s1, c.id, d1) && Shortest(edges, s2, c.id, d2) && IsLarger(d1, d2, c.dist)
  }

  lemma ShortestIsUnique(edges: seq<Edge>, s: int, v: int, a: nat, b: nat)
    requires Shortest(edges, s, v, a) && Shortest(edges, s, v, b)
    ensures a == b
  {
  }

  lemma VertexRow(dist: Distances, papers: seq<Paper>, r: Dated)
    ensures forall e :: e in JoinPapers(ByVertex(dist), papers) ==> Unpack(e).Some?
    ensures r in WithYears(ByVertex(dist), papers) <==>
      (r.vertex, r.seed) in dist && dist[(r.vertex, r.seed)] == r.dist && Paper(r.vertex, r.year) in papers
  {
    var rows, p, q := ByVertex(dist), (r.vertex, r.seed), Paper(r.vertex, r.year);
    var e := (IdKey(r.vertex), SeedDistance(r.seed, r.dist), r.year);
    if r in WithYears(rows, papers) {
      assert e in JoinPapers(rows, papers);
      var q0 :| q0 in papers && e.0 == IdKey(q0.id) && e.2 == q0.year && (e.0, e.1) in rows;
      assert q0 == q;
      var p0 :| p0 in dist && (IdKey(p0.0), SeedDistance(p0.1, dist[p0])) == (e.0, e.1);
      assert p0 == p;
    }
    if p in dist && dist[p] == r.dist && q in papers {
      assert (IdKey(p.0), SeedDistance(p.1, dist[p])) in rows;
      assert e in JoinPapers(rows, papers) && Unpack(e) == Some(r);
    }
  }

  lemma DatedRow(edges: seq<Edge>, n: int, dist: Distances, papers: seq<Paper>, r: Dated)
    requires Exact(edges, n, dist)
    ensures r in WithYears(ByVertex(dist), papers) <==>
      0 <= r.seed < n && Shortest(edges, r.seed, r.vertex, r.dist) && Paper(r.vertex, r.year) in papers
  {
    VertexRow(dist, papers, r);
    if 0 <= r.seed < n && Shortest(edges, r.seed, r.vertex, r.dist) {
      assert Reachable(edges, r.seed, r.vertex);
      assert (r.vertex, r.seed) in dist;
      ShortestIsUnique(edges, r.seed, r.vertex, r.dist, dist[(r.vertex, r.seed)]);
    }
  }

  /** Two dated rows that meet in one paper. */
  predicate Meet(rows: set<Dated>, a: Dated, b: Dated) {
    a in rows && b in rows && a.vertex == b.vertex && a.seed < b.seed
  }

  lemma CandidateMeets(rows: set<KeyedRow>, papers: seq<Paper>, s1: int, s2: int, c: Candidate)
    returns (a: Dated, b: Dated)
    requires NothingFails(rows, papers) && ((s1, s2), c) in CandidateRows(rows, papers)
    ensures Meet(WithYears(rows, papers), a, b) && a.seed == s1 && b.seed == s2
    ensures a.year == b.year == c.year && a.vertex == c.id && IsLarger(a.dist, b.dist, c.dist)
  {
    var e :| e in SelfJoin(WithYears(rows, papers)) && TransformAncestors(e).value == ((s1, s2), c);
    a, b := e.0, e.1;
  }

  lemma MeetingIsCandidate(rows: set<KeyedRow>, papers: seq<Paper>, a: Dated, b: Dated, c: Candidate)
    requires NothingFails(rows, papers) && Meet(WithYears(rows, papers), a, b) && a.year == b.year
    requires c.id == a.vertex && c.year == a.year && IsLarger(a.dist, b.dist, c.dist)
    ensures ((a.seed, b.seed), c) in CandidateRows(rows, papers)
  {
    assert (a, b) in SelfJoin(WithYears(rows, papers));
    assert TransformAncestors((a, b)) == Some(((a.seed, b.seed), c));
  }

  /** The candidates of a pair of seeds are exactly their common ancestors. */
  lemma CandidatesAreCommonAncestors(edges: seq<Edge>, n: int, dist: Distances, papers: seq<Paper>, s1: int, s2: int,
                                     c: Candidate)
    requires Exact(edges, n, dist) && NothingFails(ByVertex(dist), papers)
    ensures ((s1, s2), c) in CandidateRows(ByVertex(dist), papers) <==>
      0 <= s1 < s2 < n && CommonAncestor(edges, papers, s1, s2, c)
  {
    if ((s1, s2), c) in CandidateRows(ByVertex(dist), papers) {
      var a, b := CandidateMeets(ByVertex(dist), papers, s1, s2, c);
      DatedRow(edges, n, dist, papers, a);
      DatedRow(edges, n, dist, papers, b);
    }
    if 0 <= s1 < s2 < n && CommonAncestor(edges, papers, s1, s2, c) {
      var d1: nat, d2: nat :|
        Shortest(edges, s1, c.id, d1) && Shortest(edges, s2, c.id, d2) && IsLarger(d1, d2, c.dist);
      var a, b := Dated(c.id, s1, d1, c.year), Dated(c.id, s2, d2, c.year);
      DatedRow(edges, n, dist, papers, a);
      DatedRow(edges, n, dist, papers, b);
      MeetingIsCandidate(ByVertex(dist), papers, a, b, c);
    }
  }

  /** The candidates of a pair of seeds, as the reduction sees them. */
  lemma ValuesAreCommonAncestors(edges: seq<Edge>, n: int, dist: Distances, papers: seq<Paper>, s1: int, s2: int,
                                 c: Candidate)
    requires Exact(edges, n, dist) && NothingFails(ByVertex(dist), papers)
    ensures c in ValuesOf(CandidateRows(ByVertex(dist), papers), (s1, s2)) <==>
      0 <= s1 < s2 < n && CommonAncestor(edges, papers, s1, s2, c)
    ensures c in ValuesOf(CandidateRows(ByVertex(dist), papers), (s1, s2)) ==>
      (s1, s2) in KeysOf(CandidateRows(ByVertex(dist), papers))
  {
    var rows, k := CandidateRows(ByVertex(dist), papers), (s1, s2);
    CandidatesAreCommonAncestors(edges, n, dist, papers, s1, s2, c);
    if c in ValuesOf(rows, k) {
      var r :| r in rows && r.0 == k && r.1 == c;
      assert r == (k, c);
    }
    if (k, c) in rows {
      assert (k, c).0 == k && (k, c).1 == c;
    }
  }

  lemma BeforeMeansFirst(c: Candidate, d: Candidate)
    ensures Before(c, d) <==> ComesFirst(c, d)
  {
  }

  /** End to end: for seeds s1 < s2 there is an output row exactly when some paper of
      known year is reachable from both; the row is such a paper, and precedes every
      other by distance (the larger of the two true shortest distances), year and id. */
  lemma LcaOptimality(edges: seq<Edge>, n: int, dist: Distances, papers: seq<Paper>, out: map<Pair, Candidate>,
                      s1: int, s2: int)
    requires Exact(edges, n, dist) && IsOutput(ByVertex(dist), papers, out)
    ensures (s1, s2) in out <==> 0 <= s1 < s2 < n && exists c :: CommonAncestor(edges, papers, s1, s2, c)
    ensures (s1, s2) in out ==>
      && CommonAncestor(edges, papers, s1, s2, out[(s1, s2)])
      && forall c :: CommonAncestor(edges, papers, s1, s2, c) && c != out[(s1, s2)] ==> ComesFirst(out[(s1, s2)], c)
  {
    var rows, k := CandidateRows(ByVertex(dist), papers), (s1, s2);
    BeforeIsStrictTotal();
    ReducesIffLeast(Before, rows, out);
    if k in out {
      assert IsLeast(Before, ValuesOf(rows, k), out[k]);
      ValuesAreCommonAncestors(edges, n, dist, papers, s1, s2, out[k]);
      forall c | CommonAncestor(edges, papers, s1, s2, c) && c != out[k]
        ensures ComesFirst(out[k], c)
      {
        ValuesAreCommonAncestors(edges, n, dist, papers, s1, s2, c);
        BeforeMeansFirst(out[k], c);
      }
    }
    if c :| CommonAncestor(edges, papers, s1, s2, c) && 0 <= s1 < s2 < n {
      ValuesAreCommonAncestors(edges, n, dist, papers, s1, s2, c);
    }
  }

  /** No paper that two different seeds reach is listed with two years. */
  ghost predicate OneYearWhereShared(edges: seq<Edge>, n: int, papers: seq<Paper>) {
    forall v, s1, s2, y1, y2 ::
      && 0 <= s1 < s2 < n && Reachable(edges, s1, v) && Reachable(edges, s2, v)
      && Paper(v, y1) in papers && Paper(v, y2) in papers
      ==> y1 == y2
  }

  /** The assertion y1 == y2 holds on every row if and only if no paper that two seeds
      share is listed with two years. */
  lemma AssertionHoldsExactlyWhen(edges: seq<Edge>, n: int, dist: Distances, papers: seq<Paper>)
    requires Exact(edges, n, dist)
    ensures NothingFails(ByVertex(dist), papers) <==> OneYearWhereShared(edges, n, papers)
  {
    var rows := WithYears(ByVertex(dist), papers);
    if OneYearWhereShared(edges, n, papers) {
      forall e | e in SelfJoin(rows)
        ensures TransformAncestors(e).Some?
      {
        DatedRow(edges, n, dist, papers, e.0);
        DatedRow(edges, n, dist, papers, e.1);
        assert Reachable(edges, e.0.seed, e.0.vertex) && Reachable(edges, e.1.seed, e.1.vertex);
      }
    }
    if NothingFails(ByVertex(dist), papers) {
      forall v, s1, s2, y1, y2 |
        && 0 <= s1 < s2 < n && Reachable(edges, s1, v) && Reachable(edges, s2, v)
        && Paper(v, y1) in papers && Paper(v, y2) in papers
        ensures y1 == y2
      {
        var w1: nat :| Walk(edges, s1, v, w1);
        var w2: nat :| Walk(edges, s2, v, w2);
        var d1 := SomeShortest(edges, s1, v, w1);
        var d2 := SomeShortest(edges, s2, v, w2);
        var a, b := Dated(v, s1, d1, y1), Dated(v, s2, d2, y2);
        DatedRow(edges, n, dist, papers, a);
        DatedRow(edges, n, dist, papers, b);
        assert (a, b) in SelfJoin(rows);
        assert TransformAncestors((a, b)).Some?;
      }
    }
  }

  /** With one year per paper id the assertion never fails. */
  lemma OneYearPerPaperSuffices(edges: seq<Edge>, n: int, dist: Distances, papers: seq<Paper>)
    requires Exact(edges, n, dist)
    requires forall p, q :: p in papers && q in papers && p.id == q.id ==> p == q
    ensures NothingFails(ByVertex(dist), papers)
  {
    forall v, y1, y2 | Paper(v, y1) in papers && Paper(v, y2) in papers
      ensures y1 == y2
    {
      assert Paper(v, y1) == Paper(v, y2);
    }
    AssertionHoldsExactlyWhen(edges, n, dist, papers);
  }
}
