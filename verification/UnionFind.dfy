// The disjoint-set forest inside CorrelateRuns: a slice of parents, a recursive findRoot that
// compresses paths as it returns, and a union that hangs the second root under the first.
module UnionFind {
  // What a parent slice means. root[i] is the representative of i. rank[i] falls along every parent
  // link. The code compares no ranks, so a smaller index can hang under a larger one; rank is what
  // shows that links never form a cycle.
  datatype Shape = Shape(root: seq<nat>, rank: seq<nat>)

  ghost predicate InRange(parent: seq<nat>, s: Shape) {
    && |s.root| == |parent| && |s.rank| == |parent|
    && (forall i | 0 <= i < |parent| :: parent[i] < |parent|)
    && (forall i | 0 <= i < |parent| :: s.root[i] < |parent|)
  }

  ghost predicate Settled(parent: seq<nat>, s: Shape, i: nat)
    requires InRange(parent, s) && i < |parent|
  {
    var p, r := parent[i], s.root[i];
    && parent[r] == r
    && s.root[p] == r
    && (p == i ==> r == i)
    && (p != i ==> s.rank[p] < s.rank[i])
    && (r != i ==> s.rank[r] < s.rank[i])
  }

  ghost predicate Forest(parent: seq<nat>, s: Shape) {
    InRange(parent, s) && forall i | 0 <= i < |parent| :: Settled(parent, s, i)
  }

  // The node reached from i by following k parent links.
  ghost function Follow(parent: seq<nat>, i: nat, k: nat): nat
    requires i < |parent| && forall j | 0 <= j < |parent| :: parent[j] < |parent|
    decreases k
  {
    if k == 0 then i else Follow(parent, parent[i], k - 1)
  }

  // The representative is where parent links lead, within rank[i] steps, and stay.
  lemma {:induction false} RootIsWhereLinksLead(parent: seq<nat>, s: Shape, i: nat, k: nat)
    requires Forest(parent, s) && i < |parent| && k >= s.rank[i]
    ensures Follow(parent, i, k) == s.root[i]
    decreases k
  {
    assert Settled(parent, s, i);
    if k > 0 {
      if parent[i] == i {
        RootStays(parent, i, k);
      } else {
        RootIsWhereLinksLead(parent, s, parent[i], k - 1);
      }
    }
  }

  lemma {:induction false} RootStays(parent: seq<nat>, i: nat, k: nat)
    requires i < |parent| && forall j | 0 <= j < |parent| :: parent[j] < |parent|
    requires parent[i] == i
    ensures Follow(parent, i, k) == i
    decreases k
  {
    if k > 0 { RootStays(parent, i, k - 1); }
  }

  // Parents determine representatives: two readings of one slice agree.
  lemma {:induction false} RootUnique(parent: seq<nat>, s: Shape, t: Shape, i: nat)
    requires Forest(parent, s) && Forest(parent, t) && i < |parent|
    ensures s.root[i] == t.root[i]
  {
    RootIsWhereLinksLead(parent, s, i, s.rank[i] + t.rank[i]);
    RootIsWhereLinksLead(parent, t, i, s.rank[i] + t.rank[i]);
  }

  // At first every node is its own parent.
  method NewForest(n: nat) returns (parent: array<nat>, ghost s: Shape)
    ensures fresh(parent) && parent.Length == n
    ensures Forest(parent[..], s) && forall i | 0 <= i < n :: s.root[i] == i
  {
    parent := new nat[n](i => 0);
    for i := 0 to n
      invariant forall k | 0 <= k < i :: parent[k] == k
    {
      parent[i] := i;
    }
    s := Shape(seq(n, i => i), seq(n, i => 0));
  }

  lemma {:induction false} CompressKeepsForest(parent: seq<nat>, s: Shape, i: nat)
    requires Forest(parent, s) && i < |parent| && s.root[i] != i
    ensures Forest(parent[i := s.root[i]], s)
  {
    var parent' := parent[i := s.root[i]];
    assert Settled(parent, s, i) && Settled(parent, s, s.root[i]);
    forall k | 0 <= k < |parent| ensures Settled(parent', s, k) {
      assert Settled(parent, s, k) && Settled(parent, s, s.root[k]);
    }
  }

  // findRoot. Every representative survives the compression.
  method FindRoot(parent: array<nat>, ghost s: Shape, i: nat) returns (r: nat)
    requires i < parent.Length && Forest(parent[..], s)
    modifies parent
    ensures Forest(parent[..], s) && r == s.root[i]
    decreases s.rank[i]
  {
    assert Settled(parent[..], s, i);
    if parent[i] == i {
      return i;
    }
    r := FindRoot(parent, s, parent[i]);
    CompressKeepsForest(parent[..], s, i);
    ghost var before := parent[..];
    parent[i] := r;
    assert parent[..] == before[i := r];
  }

  ghost function Joined(s: Shape, a: nat, b: nat): (t: Shape)
    requires |s.root| == |s.rank| && a < |s.root| && b < |s.root|
    requires s.root[a] < |s.root|
  {
    Shape(seq(|s.root|, x requires 0 <= x < |s.root| => if s.root[x] == s.root[b] then s.root[a] else s.root[x]),
          seq(|s.root|, x requires 0 <= x < |s.root| =>
            if s.root[a] != s.root[b] && s.root[x] == s.root[b] then s.rank[x] + s.rank[s.root[a]] + 1 else s.rank[x]))
  }

  lemma {:induction false} JoinedForest(parent: seq<nat>, s: Shape, a: nat, b: nat)
    requires Forest(parent, s) && a < |parent| && b < |parent| && s.root[a] != s.root[b]
    ensures Forest(parent[s.root[b] := s.root[a]], Joined(s, a, b))
  {
    var ra, rb := s.root[a], s.root[b];
    var parent', t := parent[rb := ra], Joined(s, a, b);
    assert Settled(parent, s, a) && Settled(parent, s, b);
    assert Settled(parent, s, ra) && Settled(parent, s, rb);
    forall k | 0 <= k < |parent| ensures Settled(parent', t, k) {
      assert Settled(parent, s, k) && Settled(parent, s, s.root[k]);
    }
  }

  // union
  method Union(parent: array<nat>, ghost s: Shape, a: nat, b: nat) returns (ghost t: Shape)
    requires a < parent.Length && b < parent.Length && Forest(parent[..], s)
    modifies parent
    ensures Forest(parent[..], t) && |t.root| == |s.root|
    ensures forall x | 0 <= x < parent.Length ::
      t.root[x] == if s.root[x] == s.root[b] then s.root[a] else s.root[x]
  {
    var ra := FindRoot(parent, s, a);
    var rb := FindRoot(parent, s, b);
    if ra != rb {
      ghost var before := parent[..];
      JoinedForest(before, s, a, b);
      parent[rb] := ra;
      assert parent[..] == before[rb := ra];
      t := Joined(s, a, b);
    } else {
      t := s;
    }
  }
}
