// Connectedness in an undirected graph given by a set of edges: the least equivalence containing them.
module Graph {
  ghost predicate Adjacent<T(!new)>(edges: set<(T, T)>, a: T, b: T) {
    (a, b) in edges || (b, a) in edges
  }

  ghost predicate IsPath<T(!new)>(edges: set<(T, T)>, p: seq<T>, a: T, b: T) {
    && p != [] && p[0] == a && p[|p| - 1] == b
    && forall k | 0 <= k < |p| - 1 :: Adjacent(edges, p[k], p[k + 1])
  }

  ghost predicate Connected<T(!new)>(edges: set<(T, T)>, a: T, b: T) {
    exists p: seq<T> :: IsPath(edges, p, a, b)
  }

  lemma {:induction false} ConnectedReflexive<T(!new)>(edges: set<(T, T)>, a: T)
    ensures Connected(edges, a, a)
  {
    assert IsPath(edges, [a], a, a);
  }

  lemma {:induction false} ConnectedEdge<T(!new)>(edges: set<(T, T)>, a: T, b: T)
    requires Adjacent(edges, a, b)
    ensures Connected(edges, a, b)
  {
    assert IsPath(edges, [a, b], a, b);
  }

  lemma {:induction false} ConnectedSymmetric<T(!new)>(edges: set<(T, T)>, a: T, b: T)
    requires Connected(edges, a, b)
    ensures Connected(edges, b, a)
  {
    var p: seq<T> :| IsPath(edges, p, a, b);
    var n := |p|;
    var q := seq(n, i requires 0 <= i < n => p[n - 1 - i]);
    forall k | 0 <= k < |q| - 1 ensures Adjacent(edges, q[k], q[k + 1]) {
      assert Adjacent(edges, p[n - 2 - k], p[n - 2 - k + 1]);
    }
    assert IsPath(edges, q, b, a);
  }

  lemma {:induction false} ConnectedTransitive<T(!new)>(edges: set<(T, T)>, a: T, b: T, c: T)
    requires Connected(edges, a, b) && Connected(edges, b, c)
    ensures Connected(edges, a, c)
  {
    var p: seq<T> :| IsPath(edges, p, a, b);
    var q: seq<T> :| IsPath(edges, q, b, c);
    var r := p + q[1..];
    forall k | 0 <= k < |r| - 1 ensures Adjacent(edges, r[k], r[k + 1]) {
      if k < |p| - 1 {
        assert Adjacent(edges, p[k], p[k + 1]);
      } else {
        assert Adjacent(edges, q[k - |p| + 1], q[k - |p| + 1 + 1]);
      }
    }
    assert IsPath(edges, r, a, c);
  }

  ghost predicate Equivalence<T(!new)>(rel: (T, T) -> bool) {
    && (forall a :: rel(a, a))
    && (forall a, b :: rel(a, b) ==> rel(b, a))
    && (forall a, b, c :: rel(a, b) && rel(b, c) ==> rel(a, c))
  }

  // Connectedness lies inside every equivalence that contains the edges; being one itself, by the
  // lemmas above, it is the least.
  lemma {:induction false} ConnectedLeast<T(!new)>(edges: set<(T, T)>, rel: (T, T) -> bool, a: T, b: T)
    requires Equivalence(rel) && forall e | e in edges :: rel(e.0, e.1)
    requires Connected(edges, a, b)
    ensures rel(a, b)
  {
    var p: seq<T> :| IsPath(edges, p, a, b);
    PathWithin(edges, rel, p, a, b);
  }

  lemma {:induction false} PathWithin<T(!new)>(edges: set<(T, T)>, rel: (T, T) -> bool, p: seq<T>, a: T, b: T)
    requires Equivalence(rel) && forall e | e in edges :: rel(e.0, e.1)
    requires IsPath(edges, p, a, b)
    ensures rel(a, b)
    decreases |p|
  {
    if |p| > 1 {
      var q := p[..|p| - 1];
      var c := q[|q| - 1];
      PathWithin(edges, rel, q, a, c);
      assert Adjacent(edges, p[|p| - 2], p[|p| - 2 + 1]);
      assert rel(c, b);
    }
  }

  // Connectedness is carried along any map of vertices that keeps edges.
  lemma {:induction false} ConnectedMap<T(!new), U(!new)>(edges: set<(T, T)>, edges': set<(U, U)>, f: T -> U, a: T,
                                                          b: T)
    requires Connected(edges, a, b)
    requires forall e | e in edges :: Adjacent(edges', f(e.0), f(e.1))
    ensures Connected(edges', f(a), f(b))
  {
    var p: seq<T> :| IsPath(edges, p, a, b);
    var q := seq(|p|, i requires 0 <= i < |p| => f(p[i]));
    forall k | 0 <= k < |q| - 1 ensures Adjacent(edges', q[k], q[k + 1]) {
      assert Adjacent(edges, p[k], p[k + 1]);
      assert (p[k], p[k + 1]) in edges || (p[k + 1], p[k]) in edges;
    }
    assert IsPath(edges', q, f(a), f(b));
  }
}
