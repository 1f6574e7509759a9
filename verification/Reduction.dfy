/** reduceByKey: values of one key are combined pairwise, in any order and grouping. */
module Reduction {

  /** One way of bracketing and ordering a reduction. */
  datatype Tree<T> = Leaf(value: T) | Node(left: Tree<T>, right: Tree<T>)

  function Leaves<T>(t: Tree<T>): set<T> {
    match t
    case Leaf(x) => {x}
    case Node(l, r) => Leaves(l) + Leaves(r)
  }

  /** The combining step of both programs: the first value if it is less, else the second. */
  function Pick<T>(less: (T, T) -> bool, a: T, b: T): T {
    if less(a, b) then a else b
  }

  function Reduce<T>(less: (T, T) -> bool, t: Tree<T>): T {
    match t
    case Leaf(x) => x
    case Node(l, r) => Pick(less, Reduce(less, l), Reduce(less, r))
  }

  ghost predicate StrictTotal<T(!new)>(less: (T, T) -> bool) {
    && (forall a :: !less(a, a))
    && (forall a, b :: a != b ==> less(a, b) || less(b, a))
    && (forall a, b, c :: less(a, b) && less(b, c) ==> less(a, c))
  }

  predicate IsLeast<T>(less: (T, T) -> bool, s: set<T>, m: T) {
    m in s && forall x :: x in s && x != m ==> less(m, x)
  }

  lemma OneLeast<T(!new)>(less: (T, T) -> bool, s: set<T>, a: T, b: T)
    requires StrictTotal(less) && IsLeast(less, s, a) && IsLeast(less, s, b)
    ensures a == b
  {
    assert less(a, b) && less(b, a) ==> less(a, a);
  }

  /** A reduction yields the least of its leaves ... */
  lemma {:induction false} ReduceIsLeast<T(!new)>(less: (T, T) -> bool, t: Tree<T>)
    requires StrictTotal(less)
    ensures IsLeast(less, Leaves(t), Reduce(less, t))
  {
    if t.Node? {
      ReduceIsLeast(less, t.left);
      ReduceIsLeast(less, t.right);
    }
  }

  /** ... so it does not depend on order, grouping or repetition. */
  lemma ReductionsAgree<T(!new)>(less: (T, T) -> bool, t1: Tree<T>, t2: Tree<T>)
    requires StrictTotal(less) && Leaves(t1) == Leaves(t2)
    ensures Reduce(less, t1) == Reduce(less, t2)
  {
    ReduceIsLeast(less, t1);
    ReduceIsLeast(less, t2);
    OneLeast(less, Leaves(t1), Reduce(less, t1), Reduce(less, t2));
  }

  ghost function KeysOf<K, V>(rows: set<(K, V)>): set<K> {
    set r | r in rows :: r.0
  }

  ghost function ValuesOf<K, V>(rows: set<(K, V)>, k: K): set<V> {
    set r | r in rows && r.0 == k :: r.1
  }

  /** out is a possible result of reduceByKey on the rows. */
  ghost predicate Reduces<K, V(!new)>(less: (V, V) -> bool, rows: set<(K, V)>, out: map<K, V>) {
    && out.Keys == KeysOf(rows)
    && forall k :: k in out ==>
         exists t: Tree<V> :: Leaves(t) == ValuesOf(rows, k) && Reduce(less, t) == out[k]
  }

  /** out holds the least value of every key. */
  ghost predicate LeastByKey<K, V>(less: (V, V) -> bool, rows: set<(K, V)>, out: map<K, V>) {
    && out.Keys == KeysOf(rows)
    && forall k :: k in out ==> IsLeast(less, ValuesOf(rows, k), out[k])
  }

  lemma {:induction false} SomeTree<T>(s: set<T>) returns (t: Tree<T>)
    requires s != {}
    ensures Leaves(t) == s
  {
    var x :| x in s;
    if s == {x} {
      t := Leaf(x);
    } else {
      var rest := SomeTree(s - {x});
      t := Node(Leaf(x), rest);
    }
  }

  /** The results of reduceByKey are exactly the maps of least values. */
  lemma ReducesIffLeast<K, V(!new)>(less: (V, V) -> bool, rows: set<(K, V)>, out: map<K, V>)
    requires StrictTotal(less)
    ensures Reduces(less, rows, out) <==> LeastByKey(less, rows, out)
  {
    if Reduces(less, rows, out) {
      forall k | k in out
        ensures IsLeast(less, ValuesOf(rows, k), out[k])
      {
        var t: Tree<V> :| Leaves(t) == ValuesOf(rows, k) && Reduce(less, t) == out[k];
        ReduceIsLeast(less, t);
      }
    }
    if LeastByKey(less, rows, out) {
      forall k | k in out
        ensures exists t: Tree<V> :: Leaves(t) == ValuesOf(rows, k) && Reduce(less, t) == out[k]
      {
        var t := SomeTree(ValuesOf(rows, k));
        ReduceIsLeast(less, t);
        OneLeast(less, ValuesOf(rows, k), Reduce(less, t), out[k]);
      }
    }
  }

  lemma LeastIsUnique<K, V(!new)>(less: (V, V) -> bool, rows: set<(K, V)>, out1: map<K, V>, out2: map<K, V>)
    requires StrictTotal(less) && LeastByKey(less, rows, out1) && LeastByKey(less, rows, out2)
    ensures out1 == out2
  {
    forall k | k in out1
      ensures out1[k] == out2[k]
    {
      OneLeast(less, ValuesOf(rows, k), out1[k], out2[k]);
    }
  }

  function InsertRow<K, V>(less: (V, V) -> bool, out: map<K, V>, r: (K, V)): map<K, V> {
    if r.0 in out then out[r.0 := Pick(less, out[r.0], r.1)] else out[r.0 := r.1]
  }

  lemma InsertKeepsLeast<K, V(!new)>(less: (V, V) -> bool, rows: set<(K, V)>, out: map<K, V>, r: (K, V))
    requires StrictTotal(less) && LeastByKey(less, rows, out)
    ensures LeastByKey(less, rows + {r}, InsertRow(less, out, r))
  {
    var after, all := InsertRow(less, out, r), rows + {r};
    assert KeysOf(all) == KeysOf(rows) + {r.0};
    forall k | k in after
      ensures IsLeast(less, ValuesOf(all, k), after[k])
    {
      if k == r.0 {
        assert ValuesOf(all, k) == ValuesOf(rows, k) + {r.1};
        assert k !in out ==> ValuesOf(rows, k) == {};
      } else {
        assert ValuesOf(all, k) == ValuesOf(rows, k);
      }
    }
  }

  lemma {:induction false} LeastExists<K, V(!new)>(less: (V, V) -> bool, rows: set<(K, V)>) returns (out: map<K, V>)
    requires StrictTotal(less)
    ensures LeastByKey(less, rows, out)
  {
    if rows == {} {
      out := map[];
    } else {
      var r :| r in rows;
      out := LeastExists(less, rows - {r});
      InsertKeepsLeast(less, rows - {r}, out, r);
      assert rows - {r} + {r} == rows;
      out := InsertRow(less, out, r);
    }
  }

  /** reduceByKey, taking the rows in whatever order they come. */
  method ReduceByKey<K(==), V(==, !new)>(less: (V, V) -> bool, rows: set<(K, V)>) returns (out: map<K, V>)
    requires StrictTotal(less)
    ensures LeastByKey(less, rows, out)
  {
    out := map[];
    var rest := rows;
    while rest != {}
      invariant rest <= rows
      invariant LeastByKey(less, rows - rest, out)
      decreases |rest|
    {
      var r :| r in rest;
      InsertKeepsLeast(less, rows - rest, out, r);
      assert rows - rest + {r} == rows - (rest - {r});
      out := InsertRow(less, out, r);
      rest := rest - {r};
    }
    assert rows - rest == rows;
  }
}
