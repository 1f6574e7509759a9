/** The two search loops. */
module Searches {
  import opened Reduction
  import opened ShortestPaths

  /** The body of the loop of lca.py: one join, one union, one reduction. */
  method ExtendAll(dist: Distances, edges: seq<Edge>) returns (after: Distances)
    ensures FullRound(edges, dist, after)
  {
    LessIsStrictTotal();
    var nextStep := NextStep(RowsOf(dist), edges);
    after := ReduceByKey(Less, nextStep + RowsOf(dist));
  }

  /** The body of the loop of lca_improved.py. */
  method ExtendLast(round: nat, dist: Distances, last: set<Row>, edges: seq<Edge>)
    returns (after: Distances, last': set<Row>)
    ensures LastStepRound(edges, round, dist, last, after, last')
  {
    LessIsStrictTotal();
    var nextStep := NextStep(last, edges);
    after := ReduceByKey(Less, RowsOf(dist) + nextStep);
    last' := set r | r in nextStep && r.1 == round;
  }

  /** The start of lca.py: every seed at distance 0 from itself. */
  method StartAll(n: int, edges: seq<Edge>) returns (dist: Distances)
    ensures LoopInv(edges, n, 0, dist, 0, n)
  {
    LoopStart(edges, n);
    dist := Seeds(n);
  }

  /** The start of lca_improved.py: all these rows are new. */
  method StartLast(n: int, edges: seq<Edge>) returns (dist: Distances, last: set<Row>)
    ensures LoopInv(edges, n, 0, dist, 0, n) && LastIsExact(edges, n, 0, last)
  {
    LoopStart(edges, n);
    dist := Seeds(n);
    last := RowsOf(dist);
  }

  /** A round of lca.py keeps what holds at its loop test. */
  method FullIteration(n: int, edges: seq<Edge>, ghost rounds: nat, dist: Distances,
                       ghost oldCount: int, ghost newCount: int)
    returns (after: Distances)
    requires LoopInv(edges, n, rounds, dist, oldCount, newCount) && oldCount != newCount
    ensures LoopInv(edges, n, rounds + 1, after, newCount, |after|)
    ensures 0 <= Remaining(edges, n, newCount, |after|) < Remaining(edges, n, oldCount, newCount)
  {
    after := ExtendAll(dist, edges);
    FullIterationKeeps(edges, n, rounds, dist, oldCount, newCount, after);
  }

  /** A round of lca_improved.py keeps what holds at its loop test. */
  method LastStepIteration(n: int, edges: seq<Edge>, bfsRound: nat, ghost rounds: nat, dist: Distances, last: set<Row>,
                           ghost oldCount: int, ghost newCount: int)
    returns (after: Distances, last': set<Row>)
    requires bfsRound == rounds + 1 && oldCount != newCount
    requires LoopInv(edges, n, rounds, dist, oldCount, newCount) && LastIsExact(edges, n, rounds, last)
    ensures LoopInv(edges, n, rounds + 1, after, newCount, |after|) && LastIsExact(edges, n, rounds + 1, last')
    ensures 0 <= Remaining(edges, n, newCount, |after|) < Remaining(edges, n, oldCount, newCount)
  {
    after, last' := ExtendLast(bfsRound, dist, last, edges);
    LastStepIterationKeeps(edges, n, rounds, dist, last, oldCount, newCount, after, last');
  }

  /** lca.py: extend all known distances until the number of pairs stops growing. */
  method BellmanFord(n: int, edges: seq<Edge>) returns (distances: Distances, rounds: nat)
    ensures Found(edges, n, distances, rounds)
  {
    distances := StartAll(n, edges);
    var oldCount, newCount := 0, n;
    rounds := 0;
    while oldCount != newCount
      invariant LoopInv(edges, n, rounds, distances, oldCount, newCount)
      decreases Remaining(edges, n, oldCount, newCount)
    {
      distances := FullIteration(n, edges, rounds, distances, oldCount, newCount);
      oldCount := newCount;
      newCount := |distances|;
      rounds := rounds + 1;
    }
    LoopInvEnd(edges, n, rounds, distances, oldCount, newCount);
  }

  /** lca_improved.py: extend the rows of the last step only. */
  method LastStepSearch(n: int, edges: seq<Edge>) returns (distances: Distances, rounds: nat)
    ensures Found(edges, n, distances, rounds)
  {
    var lastStep;
    distances, lastStep := StartLast(n, edges);
    var oldCount, newCount := 0, n;
    var bfsRound: nat := 1;
    rounds := 0;
    while oldCount != newCount
      invariant bfsRound == rounds + 1
      invariant LoopInv(edges, n, rounds, distances, oldCount, newCount)
      invariant LastIsExact(edges, n, rounds, lastStep)
      decreases Remaining(edges, n, oldCount, newCount)
    {
      distances, lastStep := LastStepIteration(n, edges, bfsRound, rounds, distances, lastStep, oldCount, newCount);
      oldCount := newCount;
      newCount := |distances|;
      bfsRound := bfsRound + 1;
      rounds := rounds + 1;
    }
    LoopInvEnd(edges, n, rounds, distances, oldCount, newCount);
  }
}
