/** Both ancestor programs from their input to their output rows. */
module Programs {
  import opened Options
  import opened ShortestPaths
  import opened Searches
  import opened Ancestors

  /** The row of a pair of seeds: there is one exactly when the seeds share a paper of
      known year, and it precedes every other such paper. */
  ghost predicate LowestRow(edges: seq<Edge>, n: int, papers: seq<Paper>, out: map<Pair, Candidate>, s1: int, s2: int) {
    && ((s1, s2) in out <==> 0 <= s1 < s2 < n && exists c :: CommonAncestor(edges, papers, s1, s2, c))
    && ((s1, s2) in out ==>
          && CommonAncestor(edges, papers, s1, s2, out[(s1, s2)])
          && forall c :: CommonAncestor(edges, papers, s1, s2, c) && c != out[(s1, s2)] ==>
               ComesFirst(out[(s1, s2)], c))
  }

  /** What a program must write for its input; None when an assertion stops it. */
  ghost predicate IsAnswer(edges: seq<Edge>, n: int, papers: seq<Paper>, out: Option<map<Pair, Candidate>>) {
    && (out.Some? <==> OneYearWhereShared(edges, n, papers))
    && (out.Some? ==> forall s1, s2 :: LowestRow(edges, n, papers, out.value, s1, s2))
  }

  lemma DistancesGiveAnswer(edges: seq<Edge>, n: int, papers: seq<Paper>, dist: Distances,
                            out: Option<map<Pair, Candidate>>)
    requires Exact(edges, n, dist)
    requires out.Some? <==> NothingFails(ByVertex(dist), papers)
    requires out.Some? ==> IsOutput(ByVertex(dist), papers, out.value)
    ensures IsAnswer(edges, n, papers, out)
  {
    AssertionHoldsExactlyWhen(edges, n, dist, papers);
    if out.Some? {
      forall s1, s2
        ensures LowestRow(edges, n, papers, out.value, s1, s2)
      {
        LcaOptimality(edges, n, dist, papers, out.value, s1, s2);
      }
    }
  }

  /** lca.py */
  method Lca(n: int, edges: seq<Edge>, papers: seq<Paper>) returns (out: Option<map<Pair, Candidate>>)
    ensures IsAnswer(edges, n, papers, out)
  {
    var distances, rounds := BellmanFord(n, edges);
    out := LowestCommonAncestors(ByVertex(distances), papers);
    DistancesGiveAnswer(edges, n, papers, distances, out);
  }

  /** lca_improved.py as it stands: its distances are still keyed by pairs when they are
      joined with the papers, so it writes no row on any input. */
  method LcaImproved(n: int, edges: seq<Edge>, papers: seq<Paper>) returns (out: Option<map<Pair, Candidate>>)
    ensures out == Some(map[])
  {
    var distances, rounds := LastStepSearch(n, edges);
    out := LowestCommonAncestors(ByPair(distances), papers);
    PairsJoinNothing(distances, papers, map[]);
    if out.Some? {
      PairsJoinNothing(distances, papers, out.value);
    }
  }

  /** lca_improved.py repaired: the map of lca.py:65 re-keys the distances once, after
      the search. */
  method LcaRekeyed(n: int, edges: seq<Edge>, papers: seq<Paper>) returns (out: Option<map<Pair, Candidate>>)
    ensures IsAnswer(edges, n, papers, out)
  {
    var distances, rounds := LastStepSearch(n, edges);
    out := LowestCommonAncestors(ByVertex(distances), papers);
    DistancesGiveAnswer(edges, n, papers, distances, out);
  }

  // ---------------------------------------------------------------------
  // The answers compared
  // ---------------------------------------------------------------------

  lemma RowsAgree(edges: seq<Edge>, n: int, papers: seq<Paper>,
                  out1: map<Pair, Candidate>, out2: map<Pair, Candidate>, s1: int, s2: int)
    requires LowestRow(edges, n, papers, out1, s1, s2) && LowestRow(edges, n, papers, out2, s1, s2)
    ensures (s1, s2) in out1 <==> (s1, s2) in out2
    ensures (s1, s2) in out1 ==> out1[(s1, s2)] == out2[(s1, s2)]
  {
  }

  /** An input has one answer, so lca.py and the repaired program write the same rows,
      or both fail. */
  lemma AnswerIsUnique(edges: seq<Edge>, n: int, papers: seq<Paper>,
                       out1: Option<map<Pair, Candidate>>, out2: Option<map<Pair, Candidate>>)
    requires IsAnswer(edges, n, papers, out1) && IsAnswer(edges, n, papers, out2)
    ensures out1 == out2
  {
    if out1.Some? {
      forall p: Pair | p in out1.value || p in out2.value
        ensures p in out1.value && p in out2.value && out1.value[p] == out2.value[p]
      {
        RowsAgree(edges, n, papers, out1.value, out2.value, p.0, p.1);
        assert p == (p.0, p.1);
      }
      assert out1.value.Keys == out2.value.Keys;
      assert out1.value == out2.value;
    }
  }

  /** No two seeds reach one paper of known year. */
  ghost predicate NothingShared(edges: seq<Edge>, n: int, papers: seq<Paper>) {
    forall s1, s2, c :: 0 <= s1 < s2 < n ==> !CommonAncestor(edges, papers, s1, s2, c)
  }

  lemma SharedPaperIsCommon(edges: seq<Edge>, papers: seq<Paper>, s1: int, s2: int, v: int, y: int)
    requires Reachable(edges, s1, v) && Reachable(edges, s2, v) && Paper(v, y) in papers
    ensures exists c :: CommonAncestor(edges, papers, s1, s2, c)
  {
    var w1: nat :| Walk(edges, s1, v, w1);
    var w2: nat :| Walk(edges, s2, v, w2);
    var d1 := SomeShortest(edges, s1, v, w1);
    var d2 := SomeShortest(edges, s2, v, w2);
    var larger := if d1 < d2 then d2 else d1;
    assert IsLarger(d1, d2, larger) && CommonAncestor(edges, papers, s1, s2, Candidate(v, larger, y));
  }

  /** Writing nothing is right exactly when no two seeds share a paper of known year. */
  lemma EmptyIsRightExactlyWhen(edges: seq<Edge>, n: int, papers: seq<Paper>)
    ensures IsAnswer(edges, n, papers, Some(map[])) <==> NothingShared(edges, n, papers)
  {
    if IsAnswer(edges, n, papers, Some(map[])) {
      forall s1, s2, c | 0 <= s1 < s2 < n
        ensures !CommonAncestor(edges, papers, s1, s2, c)
      {
        assert LowestRow(edges, n, papers, map[], s1, s2);
      }
    }
    if NothingShared(edges, n, papers) {
      forall v, s1, s2, y |
        0 <= s1 < s2 < n && Reachable(edges, s1, v) && Reachable(edges, s2, v) && Paper(v, y) in papers
        ensures false
      {
        SharedPaperIsCommon(edges, papers, s1, s2, v, y);
      }
    }
  }

  /** lca_improved.py writes what lca.py writes exactly when no two seeds share a paper
      of known year. */
  lemma ProgramsAgreeExactlyWhen(edges: seq<Edge>, n: int, papers: seq<Paper>,
                                 simple: Option<map<Pair, Candidate>>, improved: Option<map<Pair, Candidate>>)
    requires IsAnswer(edges, n, papers, simple) && improved == Some(map[])
    ensures simple == improved <==> NothingShared(edges, n, papers)
  {
    EmptyIsRightExactlyWhen(edges, n, papers);
    if NothingShared(edges, n, papers) {
      AnswerIsUnique(edges, n, papers, simple, improved);
    }
  }

  /** Seeds 0 and 1 cite paper 2 of 1990: lca.py writes a row for them, lca_improved.py
      does not. */
  lemma SharedCitationIsLost(simple: Option<map<Pair, Candidate>>)
    requires IsAnswer([Edge(0, 2), Edge(1, 2)], 2, [Paper(2, 1990)], simple)
    ensures simple.Some? && (0, 1) in simple.value && simple.value[(0, 1)] == Candidate(2, 1, 1990)
    ensures simple != Some(map[])
  {
    var edges, papers := [Edge(0, 2), Edge(1, 2)], [Paper(2, 1990)];
    assert edges[0] in edges && edges[1] in edges && papers[0] in papers;
    forall s | s == 0 || s == 1
      ensures Shortest(edges, s, 2, 1)
    {
      assert Walk(edges, s, s, 0) && Edge(s, 2) in edges;
      assert Walk(edges, s, 2, 1);
    }
    var c, one: nat := Candidate(2, 1, 1990), 1;
    assert Shortest(edges, 0, c.id, one) && Shortest(edges, 1, c.id, one) && IsLarger(one, one, c.dist);
    assert CommonAncestor(edges, papers, 0, 1, c);
    assert OneYearWhereShared(edges, 2, papers);
    assert LowestRow(edges, 2, papers, simple.value, 0, 1);
    var row := simple.value[(0, 1)];
    assert row.id == 2 && row.year == 1990;
    var d1: nat, d2: nat :| Shortest(edges, 0, 2, d1) && Shortest(edges, 1, 2, d2) && IsLarger(d1, d2, row.dist);
    ShortestIsUnique(edges, 0, 2, d1, 1);
    ShortestIsUnique(edges, 1, 2, d2, 1);
  }
}
