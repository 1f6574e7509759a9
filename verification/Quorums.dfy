/** Majorities of a group of n servers. */
module Quorums {
  import opened Messages
  import opened Proposers

  ghost predicate Quorum(n: nat, q: set<nat>) {
    && (forall a :: a in q ==> a < n)
    && Majority(n, |q|)
  }

  lemma {:induction false} BoundedSetSize(n: nat, q: set<nat>)
    requires forall a :: a in q ==> a < n
    ensures |q| <= n
  {
    if n == 0 {
      assert q == {};
    } else {
      BoundedSetSize(n - 1, q - {n - 1});
    }
  }

  /** Any two majorities share a server. */
  lemma QuorumsMeet(n: nat, q1: set<nat>, q2: set<nat>) returns (a: nat)
    requires Quorum(n, q1) && Quorum(n, q2)
    ensures a in q1 && a in q2
  {
    if q1 * q2 == {} {
      assert |q1 + q2| == |q1| + |q2|;
      BoundedSetSize(n, q1 + q2);
    }
    a :| a in q1 * q2;
  }

  lemma SubsetSize<T>(a: set<T>, b: set<T>)
    requires a <= b
    ensures |a| <= |b|
  {
    assert b == a + (b - a);
  }

  ghost function Origins(ms: set<Message>): set<nat> {
    set m | m in ms :: m.origin
  }

  /** Distinct messages from distinct servers: as many servers as messages. */
  lemma {:induction false} DistinctOrigins(ms: set<Message>)
    requires forall m1, m2 :: m1 in ms && m2 in ms && m1.origin == m2.origin ==> m1 == m2
    ensures |Origins(ms)| == |ms|
  {
    if ms != {} {
      var m :| m in ms;
      DistinctOrigins(ms - {m});
      assert Origins(ms) == Origins(ms - {m}) + {m.origin};
    }
  }
}
