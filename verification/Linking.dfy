// The pair loop of CorrelateRuns in terms of its edges: what joining one pair after another establishes.
module Linking {
  import opened Graph
  import opened UnionFind

  // Pairs are tested in one order only.
  ghost predicate Proper(edges: set<(int, int)>, n: nat) {
    forall e | e in edges :: 0 <= e.0 < e.1 < n
  }

  // Every pair with one representative is connected.
  ghost predicate Sound(edges: set<(int, int)>, s: Shape) {
    forall x, y | 0 <= x < |s.root| && 0 <= y < |s.root| && s.root[x] == s.root[y] :: Connected(edges, x, y)
  }

  ghost predicate Before(a: int, b: int, i: int, j: int) {
    a < i || (a == i && b < j)
  }

  // Every related pair before (i, j) has one representative.
  ghost predicate Covered(edges: set<(int, int)>, s: Shape, i: nat, j: nat)
    requires Proper(edges, |s.root|)
  {
    forall e | e in edges && Before(e.0, e.1, i, j) :: s.root[e.0] == s.root[e.1]
  }

  ghost predicate Merges(s: Shape, t: Shape, a: nat, b: nat) {
    && |t.root| == |s.root| && a < |s.root| && b < |s.root|
    && forall x | 0 <= x < |s.root| :: t.root[x] == if s.root[x] == s.root[b] then s.root[a] else s.root[x]
  }

  lemma {:induction false} MergeSound(edges: set<(int, int)>, s: Shape, t: Shape, a: nat, b: nat)
    requires Sound(edges, s) && Merges(s, t, a, b) && (a, b) in edges
    ensures Sound(edges, t)
  {
    ConnectedEdge(edges, a, b);
    forall x, y | 0 <= x < |s.root| && 0 <= y < |s.root| && t.root[x] == t.root[y] ensures Connected(edges, x, y) {
      if s.root[x] != s.root[y] {
        var (p, q) := if s.root[x] == s.root[b] then (y, x) else (x, y);
        assert s.root[p] == s.root[a] && s.root[q] == s.root[b];
        ConnectedTransitive(edges, p, a, b);
        ConnectedTransitive(edges, p, b, q);
        ConnectedSymmetric(edges, p, q);
      }
    }
  }

  lemma {:induction false} MergeCovers(edges: set<(int, int)>, s: Shape, t: Shape, i: nat, j: nat)
    requires Proper(edges, |s.root|) && i < j < |s.root| && Covered(edges, s, i, j) && Merges(s, t, i, j)
    ensures Covered(edges, t, i, j + 1)
  {
    forall e | e in edges && Before(e.0, e.1, i, j + 1) ensures t.root[e.0] == t.root[e.1] {
      if !Before(e.0, e.1, i, j) { assert e.0 == i && e.1 == j; }
    }
  }

  // The least equivalence containing the related pairs is what representatives decide.
  lemma {:induction false} RepresentativesExact(edges: set<(int, int)>, s: Shape, x: nat, y: nat)
    requires Proper(edges, |s.root|) && Sound(edges, s) && Covered(edges, s, |s.root|, 0) && x < |s.root| && y < |s.root|
    ensures s.root[x] == s.root[y] <==> Connected(edges, x, y)
  {
    if Connected(edges, x, y) {
      var n := |s.root|;
      var same := (a: int, b: int) => a == b || (0 <= a < n && 0 <= b < n && s.root[a] == s.root[b]);
      forall e | e in edges ensures same(e.0, e.1) {
        assert Before(e.0, e.1, n, 0);
      }
      ConnectedLeast(edges, same, x, y);
    }
  }

  lemma {:induction false} NotCovered(edges: set<(int, int)>, s: Shape, i: nat, j: nat)
    requires Proper(edges, |s.root|) && Covered(edges, s, i, j) && (i, j) !in edges
    ensures Covered(edges, s, i, j + 1)
  {
    forall e | e in edges && Before(e.0, e.1, i, j + 1) ensures s.root[e.0] == s.root[e.1] {
      assert e.0 == i && e.1 == j ==> e == (i, j);
    }
  }

  lemma {:induction false} StartsSound(edges: set<(int, int)>, s: Shape)
    requires Proper(edges, |s.root|) && forall i | 0 <= i < |s.root| :: s.root[i] == i
    ensures Sound(edges, s) && Covered(edges, s, 0, 0)
  {
    forall x | 0 <= x < |s.root| ensures Connected(edges, x, x) { ConnectedReflexive(edges, x); }
  }

  lemma {:induction false} RowStarts(edges: set<(int, int)>, s: Shape, i: nat)
    requires Proper(edges, |s.root|) && Covered(edges, s, i, 0)
    ensures Covered(edges, s, i, i + 1)
  {
  }

  lemma {:induction false} RowEnds(edges: set<(int, int)>, s: Shape, i: nat)
    requires Proper(edges, |s.root|) && Covered(edges, s, i, |s.root|)
    ensures Covered(edges, s, i + 1, 0)
  {
  }
}
