// CorrelateRuns: deduplicate each run, connect related records of all runs with a union-find, merge
// each component into one finding, and link the records of a component to each other.
module Correlate {
  import opened Sorting
  import opened Graph
  import opened UnionFind
  import opened Evidence
  import opened Related
  import D = Deduplicate
  import opened Components
  import opened Linking

  // The pairs the double loop finds related: only i < j is ever asked.
  ghost function Edges(env: Env, refs: seq<Ref>): set<(int, int)> {
    set i: int, j: int | 0 <= i < |refs| && 0 <= j < |refs| && i < j && AreFindingsRelated(env, refs[i].finding, refs[j].finding) :: (i, j)
  }

  lemma {:induction false} EdgesProper(env: Env, refs: seq<Ref>)
    ensures Proper(Edges(env, refs), |refs|)
  {
  }

  lemma {:induction false} EdgeExact(env: Env, refs: seq<Ref>, i: nat, j: nat)
    requires i < j < |refs|
    ensures (i, j) in Edges(env, refs) <==> AreFindingsRelated(env, refs[i].finding, refs[j].finding)
  {
  }

  // The first position, from k on, that x is connected to.
  ghost function FirstConnected(edges: set<(int, int)>, x: nat, k: nat): (r: nat)
    requires k <= x && Connected(edges, x, x)
    ensures k <= r <= x && Connected(edges, x, r)
    ensures forall j | k <= j < r :: !Connected(edges, x, j)
    decreases x - k
  {
    if Connected(edges, x, k) then k else FirstConnected(edges, x, k + 1)
  }

  // A record's tag is the first position it is connected to, whatever root the union-find chose.
  ghost function Tag(edges: set<(int, int)>, x: nat): nat {
    ConnectedReflexive(edges, x as int);
    FirstConnected(edges, x, 0)
  }

  lemma {:induction false} TagExact(edges: set<(int, int)>, x: nat, y: nat)
    ensures Tag(edges, x) == Tag(edges, y) <==> Connected(edges, x, y)
  {
    ConnectedReflexive(edges, x as int);
    ConnectedReflexive(edges, y as int);
    var p, q := Tag(edges, x) as int, Tag(edges, y) as int;
    if Connected(edges, x, y) {
      ConnectedSymmetric(edges, x as int, y as int);
      ConnectedTransitive(edges, y as int, x as int, p);
      ConnectedTransitive(edges, x as int, y as int, q);
    }
    if p == q {
      ConnectedSymmetric(edges, y as int, q);
      ConnectedTransitive(edges, x as int, p, y as int);
    }
  }

  ghost function WebOf(env: Env, refs: seq<Ref>): (w: Web)
    ensures w.refs == refs && w.sort == env.sort
  {
    var edges := Edges(env, refs);
    Web(refs, seq(|refs|, x requires 0 <= x < |refs| => Tag(edges, x)), env.sort)
  }

  // Records belong together when they are related by the least equivalence containing the related pairs.
  lemma {:induction false} TogetherExact(env: Env, refs: seq<Ref>, x: nat, y: nat)
    requires x < |refs| && y < |refs|
    ensures Together(WebOf(env, refs), x, y) <==> Connected(Edges(env, refs), x, y)
  {
    TagExact(Edges(env, refs), x, y);
  }

  // One turn of the pair loop.
  method LinkPair(env: Env, refs: seq<Ref>, parent: array<nat>, ghost s: Shape, i: nat, j: nat)
    returns (ghost t: Shape)
    requires i < j < |refs| == parent.Length == |s.root| && Proper(Edges(env, refs), |refs|)
    requires Forest(parent[..], s) && Sound(Edges(env, refs), s) && Covered(Edges(env, refs), s, i, j)
    modifies parent
    ensures Forest(parent[..], t) && |t.root| == |s.root|
    ensures Sound(Edges(env, refs), t) && Covered(Edges(env, refs), t, i, j + 1)
  {
    ghost var edges := Edges(env, refs);
    EdgeExact(env, refs, i, j);
    if AreFindingsRelated(env, refs[i].finding, refs[j].finding) {
      t := Union(parent, s, i, j);
      MergeSound(edges, s, t, i, j);
      MergeCovers(edges, s, t, i, j);
    } else {
      t := s;
      NotCovered(edges, s, i, j);
    }
  }

  // The pair loop: representatives decide exactly the least equivalence that contains every related pair.
  method LinkRelated(env: Env, refs: seq<Ref>) returns (parent: array<nat>, ghost s: Shape)
    ensures fresh(parent) && parent.Length == |refs| && Forest(parent[..], s)
    ensures |s.root| == |refs| && forall x, y | 0 <= x < |refs| && 0 <= y < |refs| ::
      s.root[x] == s.root[y] <==> Connected(Edges(env, refs), x, y)
  {
    ghost var edges := Edges(env, refs);
    EdgesProper(env, refs);
    parent, s := NewForest(|refs|);
    StartsSound(edges, s);
    for i := 0 to |refs|
      invariant parent.Length == |refs| == |s.root| && Forest(parent[..], s)
      invariant Sound(edges, s) && Covered(edges, s, i, 0)
    {
      RowStarts(edges, s, i);
      for j := i + 1 to |refs|
        invariant parent.Length == |refs| == |s.root| && Forest(parent[..], s)
        invariant Sound(edges, s) && Covered(edges, s, i, j)
      {
        s := LinkPair(env, refs, parent, s, i, j);
      }
      RowEnds(edges, s, i);
    }
    forall x, y | 0 <= x < |refs| && 0 <= y < |refs| ensures s.root[x] == s.root[y] <==> Connected(edges, x, y) {
      RepresentativesExact(edges, s, x, y);
    }
  }

  lemma {:induction false} ShapeDecides(env: Env, refs: seq<Ref>, parent: seq<nat>, s: Shape)
    requires |parent| == |refs| == |s.root| && Forest(parent, s)
    requires forall x, y | 0 <= x < |refs| && 0 <= y < |refs| ::
      s.root[x] == s.root[y] <==> Connected(Edges(env, refs), x, y)
    ensures Decides(WebOf(env, refs), s.root)
  {
    forall x | 0 <= x < |refs| ensures IsRoot(s.root, s.root[x]) {
      assert Settled(parent, s, x) && Settled(parent, s, s.root[x]);
    }
    var w := WebOf(env, refs);
    forall x, y | 0 <= x < |refs| && 0 <= y < |refs| ensures s.root[x] == s.root[y] <==> Together(w, x, y) {
      TogetherExact(env, refs, x, y);
    }
  }

  // ---- The whole of CorrelateRuns ----

  function DeduplicatedRuns(env: Env, runs: seq<RunOutcome>): (r: seq<RunOutcome>)
    ensures |r| == |runs| && forall i | 0 <= i < |runs| :: r[i] == runs[i].(findings := D.Deduplicated(env, runs[i].findings))
  {
    seq(|runs|, i requires 0 <= i < |runs| => runs[i].(findings := D.Deduplicated(env, runs[i].findings)))
  }

  // The graph that CorrelateRuns works on.
  ghost function WebOfRuns(env: Env, runs: seq<RunOutcome>): Web {
    WebOf(env, AllRefs(DeduplicatedRuns(env, runs)))
  }

  ghost predicate IsCorrelation(env: Env, runs: seq<RunOutcome>, findings: seq<Finding>, updated: seq<RunOutcome>) {
    var w := WebOfRuns(env, runs);
    IsLinked(w, DeduplicatedRuns(env, runs), updated) && IsFindingList(w, findings)
  }

  method DeduplicateRuns(env: Env, runs: seq<RunOutcome>) returns (updated: seq<RunOutcome>)
    ensures updated == DeduplicatedRuns(env, runs)
  {
    updated := runs;
    for i := 0 to |runs|
      invariant |updated| == |runs|
      invariant forall k | 0 <= k < i :: updated[k] == DeduplicatedRuns(env, runs)[k]
      invariant forall k | i <= k < |runs| :: updated[k] == runs[k]
    {
      var out := D.Deduplicate(env, updated[i].findings);
      updated := updated[i := updated[i].(findings := out)];
    }
  }

  lemma {:induction false} NothingToCorrelate(w: Web, runs: seq<RunOutcome>)
    requires w.refs == []
    ensures IsLinked(w, runs, runs) && IsFindingList(w, [])
  {
    var roots: seq<nat>, list: seq<Finding> := [], [];
    assert Representatives(w, roots) && MergedInOrder(w, roots, list);
    assert SortBy(w.sort, FindingKey, list) == [];
  }

  method CorrelateRuns(env: Env, runs: seq<RunOutcome>) returns (findings: seq<Finding>, updated: seq<RunOutcome>)
    ensures IsCorrelation(env, runs, findings, updated)
  {
    updated := DeduplicateRuns(env, runs);
    var refs := CollectRefs(updated);
    ghost var deduped, w := updated, WebOf(env, refs);
    if |refs| == 0 {
      NothingToCorrelate(w, deduped);
      return [], updated;
    }
    var parent, s := LinkRelated(env, refs);
    ShapeDecides(env, refs, parent[..], s);
    var groups := GroupByRoot(w, refs, parent, s);
    NoneWritten(w, deduped, s.root, groups.Keys);
    var list, linked, roots := ProcessGroups(env.sort, w, s.root, groups, updated);
    updated := linked;
    AllWritten(w, deduped, s.root, updated);
    findings := SortBy(env.sort, FindingKey, list);
    assert IsFindingList(w, findings);
  }
}
