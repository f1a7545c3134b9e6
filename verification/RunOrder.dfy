// Exactly when the order of the runs makes no difference to what CorrelateRuns finds.
module RunOrder {
  import opened Text
  import opened Sorting
  import opened Graph
  import opened Evidence
  import opened Related
  import opened Merge
  import opened Components
  import opened Correlate
  import opened CorrelateOrder

  // The records of all runs, in the order p of the runs.
  function RefsIn(env: Env, runs: seq<RunOutcome>, p: seq<nat>): seq<Ref>
    requires |p| == |runs| && forall i | 0 <= i < |p| :: p[i] < |runs|
  {
    AllRefs(DeduplicatedRuns(env, Permute(p, runs)))
  }

  // ---- Records of one run ----

  // Two records of one run are so in both lists, and in one order; two of different runs in neither.
  ghost predicate RunsKept(refs: seq<Ref>, refs': seq<Ref>) {
    forall i, j, i', j' {:trigger RunKept(refs, refs', i, j, i', j')}
      | 0 <= i < |refs| && 0 <= j < |refs| && 0 <= i' < |refs'| && 0 <= j' < |refs'| :: RunKept(refs, refs', i, j, i', j')
  }

  ghost predicate RunKept(refs: seq<Ref>, refs': seq<Ref>, i: int, j: int, i': int, j': int)
    requires 0 <= i < |refs| && 0 <= j < |refs| && 0 <= i' < |refs'| && 0 <= j' < |refs'|
  {
    refs'[i'].finding == refs[i].finding && refs'[j'].finding == refs[j].finding ==>
      && (refs[i].runIdx == refs[j].runIdx <==> refs'[i'].runIdx == refs'[j'].runIdx)
      && (refs[i].runIdx == refs[j].runIdx ==> (i < j <==> i' < j'))
  }

  lemma {:induction false} RunsKeptBack(refs: seq<Ref>, refs': seq<Ref>)
    requires RunsKept(refs, refs')
    ensures RunsKept(refs', refs)
  {
    forall i, j, i', j' | 0 <= i < |refs'| && 0 <= j < |refs'| && 0 <= i' < |refs| && 0 <= j' < |refs|
      ensures RunKept(refs', refs, i, j, i', j')
    {
      assert RunKept(refs, refs', i', j', i, j);
    }
  }

  lemma {:induction false} RefsAscendExactly(runs: seq<RunOutcome>, i: nat, j: nat)
    requires i < |AllRefs(runs)| && j < |AllRefs(runs)|
    ensures i < j <==> ComesBefore(AllRefs(runs)[i], AllRefs(runs)[j])
  {
    if i < j { RefsAscend(runs, |runs|, i, j); }
    if j < i { RefsAscend(runs, |runs|, j, i); }
  }

  lemma {:induction false} PermutedRunsKept(env: Env, runs: seq<RunOutcome>, p: seq<nat>)
    requires IsPermutation(p, |runs|) && KeysDistinct(AllRefs(DeduplicatedRuns(env, runs)))
    ensures RunsKept(AllRefs(DeduplicatedRuns(env, runs)), RefsIn(env, runs, p))
  {
    var refs, refs' := AllRefs(DeduplicatedRuns(env, runs)), RefsIn(env, runs, p);
    forall i, j, i', j' | 0 <= i < |refs| && 0 <= j < |refs| && 0 <= i' < |refs'| && 0 <= j' < |refs'|
      ensures RunKept(refs, refs', i, j, i', j')
    {
      if refs'[i'].finding == refs[i].finding && refs'[j'].finding == refs[j].finding {
        CellMoved(env, runs, p, i, i');
        CellMoved(env, runs, p, j, j');
        RefsAscendExactly(DeduplicatedRuns(env, runs), i, j);
        RefsAscendExactly(DeduplicatedRuns(env, Permute(p, runs)), i', j');
      }
    }
  }

  // ---- One-sided pairs that are joined ----

  // Records of different runs whose relatedness depends on order belong together all the same.
  ghost predicate OneSidedJoined(env: Env, refs: seq<Ref>) {
    forall i, j | 0 <= i < |refs| && 0 <= j < |refs| && refs[i].runIdx != refs[j].runIdx
      && LockfileOnOneSide(env, refs[i].finding, refs[j].finding) :: Together(WebOf(env, refs), i, j)
  }

  ghost predicate JoinedInEveryOrder(env: Env, runs: seq<RunOutcome>) {
    forall p | IsPermutation(p, |runs|) :: OneSidedJoined(env, RefsIn(env, runs, p))
  }

  ghost predicate SameComponentsInEveryOrder(env: Env, runs: seq<RunOutcome>) {
    forall p | IsPermutation(p, |runs|) :: SameComponents(env, AllRefs(DeduplicatedRuns(env, runs)), RefsIn(env, runs, p))
  }

  // A related pair belongs together in the other list too.
  lemma {:induction false} EdgeJoined(env: Env, refs: seq<Ref>, refs': seq<Ref>, i: nat, j: nat, i': nat, j': nat)
    requires KeysDistinct(refs) && RunsKept(refs, refs') && OneSidedJoined(env, refs')
    requires (i as int, j as int) in Edges(env, refs)
    requires i' < |refs'| && j' < |refs'| && refs'[i'].finding == refs[i].finding && refs'[j'].finding == refs[j].finding
    ensures Together(WebOf(env, refs'), i', j')
  {
    var f, g := refs[i].finding, refs[j].finding;
    assert RefKey(refs[i]) != RefKey(refs[j]);
    assert RunKept(refs, refs', i, j, i', j');
    RelatedSymmetricExactly(env, f, g);
    TogetherExact(env, refs', i', j');
    if i' < j' && AreFindingsRelated(env, f, g) {
      EdgeExact(env, refs', i', j');
      ConnectedEdge(Edges(env, refs'), i' as int, j' as int);
    } else if AreFindingsRelated(env, g, f) {
      EdgeExact(env, refs', j', i');
      ConnectedEdge(Edges(env, refs'), i' as int, j' as int);
    }
  }

  lemma {:induction false} TogetherJoined(env: Env, refs: seq<Ref>, refs': seq<Ref>, x: nat, y: nat, x': nat, y': nat)
    requires SameFindings(refs, refs') && KeysDistinct(refs) && KeysDistinct(refs')
    requires RunsKept(refs, refs') && OneSidedJoined(env, refs')
    requires x < |refs| && y < |refs| && Together(WebOf(env, refs), x, y)
    requires x' < |refs'| && y' < |refs'| && refs'[x'].finding == refs[x].finding && refs'[y'].finding == refs[y].finding
    ensures Together(WebOf(env, refs'), x', y')
  {
    var w' := WebOf(env, refs');
    var tag := (i: int) => if 0 <= i < |refs| then w'.tag[Locate(refs', refs[i].finding)] as int else -1;
    var rel := (i: int, j: int) => tag(i) == tag(j);
    TogetherExact(env, refs, x, y);
    forall e | e in Edges(env, refs) ensures rel(e.0, e.1) {
      EdgeJoined(env, refs, refs', e.0, e.1, Locate(refs', refs[e.0].finding), Locate(refs', refs[e.1].finding));
    }
    ConnectedLeast(Edges(env, refs), rel, x as int, y as int);
    LocateUnique(refs', x', Locate(refs', refs[x].finding));
    LocateUnique(refs', y', Locate(refs', refs[y].finding));
  }

  lemma {:induction false} JoinedSameComponents(env: Env, refs: seq<Ref>, refs': seq<Ref>)
    requires SameFindings(refs, refs') && SameFindings(refs', refs) && KeysDistinct(refs) && KeysDistinct(refs')
    requires RunsKept(refs, refs') && OneSidedJoined(env, refs) && OneSidedJoined(env, refs')
    ensures SameComponents(env, refs, refs')
  {
    RunsKeptBack(refs, refs');
    forall x, y, x', y' | 0 <= x < |refs| && 0 <= y < |refs| && 0 <= x' < |refs'| && 0 <= y' < |refs'|
      ensures TogetherAlike(env, refs, refs', x, y, x', y')
    {
      if refs'[x'].finding == refs[x].finding && refs'[y'].finding == refs[y].finding {
        if Together(WebOf(env, refs), x, y) { TogetherJoined(env, refs, refs', x, y, x', y'); }
        if Together(WebOf(env, refs'), x', y') { TogetherJoined(env, refs', refs, x', y', x, y); }
      }
    }
  }

  // ---- Both orders of two runs occur ----

  function Backwards(n: nat): seq<nat> { seq(n, i requires 0 <= i < n => n - 1 - i) }

  lemma {:induction false} BackwardsPermutes(n: nat)
    ensures IsPermutation(Backwards(n), n)
  {
    InvolutionPermutes(Backwards(n));
  }

  lemma {:induction false} InOrderAsGiven(env: Env, runs: seq<RunOutcome>)
    ensures IsPermutation(Identity(|runs|), |runs|)
    ensures RefsIn(env, runs, Identity(|runs|)) == AllRefs(DeduplicatedRuns(env, runs))
  {
    IdentityPermutes(runs);
  }

  lemma {:induction false} BackwardsTurns(env: Env, runs: seq<RunOutcome>, i: nat, j: nat, i': nat, j': nat)
    requires IsPermutation(Backwards(|runs|), |runs|) && KeysDistinct(AllRefs(DeduplicatedRuns(env, runs)))
    requires var refs := AllRefs(DeduplicatedRuns(env, runs)); i < j < |refs| && refs[i].runIdx != refs[j].runIdx
    requires var refs, refs' := AllRefs(DeduplicatedRuns(env, runs)), RefsIn(env, runs, Backwards(|runs|));
             && i' < |refs'| && j' < |refs'|
             && refs'[i'].finding == refs[i].finding && refs'[j'].finding == refs[j].finding
    ensures j' < i'
  {
    var p := Backwards(|runs|);
    CellMoved(env, runs, p, i, i');
    CellMoved(env, runs, p, j, j');
    RefsAscendExactly(DeduplicatedRuns(env, runs), i, j);
    RefsAscendExactly(DeduplicatedRuns(env, Permute(p, runs)), j', i');
  }

  lemma {:induction false} RelatedTogether(env: Env, refs: seq<Ref>, i: nat, j: nat)
    requires i < j < |refs| && AreFindingsRelated(env, refs[i].finding, refs[j].finding)
    ensures Together(WebOf(env, refs), i, j)
  {
    EdgeExact(env, refs, i, j);
    ConnectedEdge(Edges(env, refs), i as int, j as int);
    TogetherExact(env, refs, i, j);
  }

  // A one-sided pair is related in one of the two orders of its runs, so it belongs together wherever
  // the components are those of every order.
  lemma {:induction false} OneSidedTogether(env: Env, runs: seq<RunOutcome>, i: nat, j: nat)
    requires KeysDistinct(AllRefs(DeduplicatedRuns(env, runs))) && SameComponentsInEveryOrder(env, runs)
    requires var refs := AllRefs(DeduplicatedRuns(env, runs));
             && i < j < |refs| && refs[i].runIdx != refs[j].runIdx
             && LockfileOnOneSide(env, refs[i].finding, refs[j].finding)
    ensures Together(WebOf(env, AllRefs(DeduplicatedRuns(env, runs))), i, j)
  {
    var refs := AllRefs(DeduplicatedRuns(env, runs));
    RelatedSymmetricExactly(env, refs[i].finding, refs[j].finding);
    if AreFindingsRelated(env, refs[i].finding, refs[j].finding) {
      RelatedTogether(env, refs, i, j);
    } else {
      var p := Backwards(|runs|);
      BackwardsPermutes(|runs|);
      var turned := RefsIn(env, runs, p);
      PermutedSameFindings(env, runs, p);
      var i', j' := Locate(turned, refs[i].finding), Locate(turned, refs[j].finding);
      BackwardsTurns(env, runs, i, j, i', j');
      RelatedTogether(env, turned, j', i');
      assert TogetherAlike(env, refs, turned, i, j, i', j');
    }
  }

  lemma {:induction false} PlaceGiven(env: Env, runs: seq<RunOutcome>, p: seq<nat>, k': nat) returns (k: nat)
    requires IsPermutation(p, |runs|) && k' < |RefsIn(env, runs, p)|
    ensures var refs := AllRefs(DeduplicatedRuns(env, runs));
            k < |refs| && refs[k].finding == RefsIn(env, runs, p)[k'].finding
  {
    PermutedSameFindings(env, runs, p);
    k := Locate(AllRefs(DeduplicatedRuns(env, runs)), RefsIn(env, runs, p)[k'].finding);
  }

  lemma {:induction false} JoinedAsGiven(env: Env, runs: seq<RunOutcome>, i: nat, j: nat)
    requires KeysDistinct(AllRefs(DeduplicatedRuns(env, runs))) && SameComponentsInEveryOrder(env, runs)
    requires var refs := AllRefs(DeduplicatedRuns(env, runs));
             && i < |refs| && j < |refs| && refs[i].runIdx != refs[j].runIdx
             && LockfileOnOneSide(env, refs[i].finding, refs[j].finding)
    ensures Together(WebOf(env, AllRefs(DeduplicatedRuns(env, runs))), i, j)
  {
    var refs := AllRefs(DeduplicatedRuns(env, runs));
    OneSideSymmetric(env, refs[i].finding, refs[j].finding);
    if i < j { OneSidedTogether(env, runs, i, j); } else { OneSidedTogether(env, runs, j, i); }
  }

  lemma {:induction false} JoinedIn(env: Env, runs: seq<RunOutcome>, p: seq<nat>, i': nat, j': nat)
    requires KeysDistinct(AllRefs(DeduplicatedRuns(env, runs))) && SameComponentsInEveryOrder(env, runs)
    requires IsPermutation(p, |runs|)
    requires var refs' := RefsIn(env, runs, p);
             && i' < |refs'| && j' < |refs'| && refs'[i'].runIdx != refs'[j'].runIdx
             && LockfileOnOneSide(env, refs'[i'].finding, refs'[j'].finding)
    ensures Together(WebOf(env, RefsIn(env, runs, p)), i', j')
  {
    var refs, refs' := AllRefs(DeduplicatedRuns(env, runs)), RefsIn(env, runs, p);
    var i := PlaceGiven(env, runs, p, i');
    var j := PlaceGiven(env, runs, p, j');
    PermutedRunsKept(env, runs, p);
    assert RunKept(refs, refs', i, j, i', j');
    JoinedAsGiven(env, runs, i, j);
    assert TogetherAlike(env, refs, refs', i, j, i', j');
  }

  // The components are the same in every order of the runs exactly when in every order each pair of
  // records of different runs that is related one way only is in one component.
  lemma {:induction false} ComponentsOrderFreeExactly(env: Env, runs: seq<RunOutcome>)
    requires KeysDistinct(AllRefs(DeduplicatedRuns(env, runs)))
    ensures SameComponentsInEveryOrder(env, runs) <==> JoinedInEveryOrder(env, runs)
  {
    var refs := AllRefs(DeduplicatedRuns(env, runs));
    if SameComponentsInEveryOrder(env, runs) {
      forall p | IsPermutation(p, |runs|) ensures OneSidedJoined(env, RefsIn(env, runs, p)) {
        var refs' := RefsIn(env, runs, p);
        forall i, j | 0 <= i < |refs'| && 0 <= j < |refs'| && refs'[i].runIdx != refs'[j].runIdx
          && LockfileOnOneSide(env, refs'[i].finding, refs'[j].finding) ensures Together(WebOf(env, refs'), i, j)
        {
          JoinedIn(env, runs, p, i, j);
        }
      }
    }
    if JoinedInEveryOrder(env, runs) {
      InOrderAsGiven(env, runs);
      assert OneSidedJoined(env, refs);
      forall p | IsPermutation(p, |runs|) ensures SameComponents(env, refs, RefsIn(env, runs, p)) {
        PermutedSameFindings(env, runs, p);
        PermutedKeysDistinct(env, runs, p);
        PermutedRunsKept(env, runs, p);
        JoinedSameComponents(env, refs, RefsIn(env, runs, p));
      }
    }
  }

  // ---- The findings ----

  // Trimmed ids, each of which no other record lists.
  ghost predicate IDsOwn(refs: seq<Ref>) {
    && (forall k | 0 <= k < |refs| :: refs[k].finding.id != "" && TrimSpace(refs[k].finding.id) == refs[k].finding.id)
    && (forall j, k, x | 0 <= j < |refs| && 0 <= k < |refs| && j != k && x in RecordIDs(refs[j].finding) ::
          TrimSpace(x) != refs[k].finding.id)
  }

  // Then a merged finding lists the ids of the records of its component and of no other.
  lemma {:induction false} ListsOwnExactly(env: Env, refs: seq<Ref>, x: nat, k: nat)
    requires IDsOwn(refs) && x < |refs| && k < |refs|
    ensures refs[k].finding.id in Merged(GroupOf(WebOf(env, refs), x)).related <==> Together(WebOf(env, refs), x, k)
  {
    var w, id := WebOf(env, refs), refs[k].finding.id;
    var g := GroupOf(w, x);
    GroupIDsExact(g, id);
    if Together(w, x, k) {
      InSortedComponent(w, x, k);
      var i :| 0 <= i < |g| && g[i] == refs[k].finding;
      assert id in RecordIDs(g[i]);
    }
    if i, y :| 0 <= i < |g| && y in RecordIDs(g[i]) && TrimSpace(y) == id {
      var m := SortedComponentOrigin(w, x, i);
      assert y in RecordIDs(refs[m].finding);
      assert m == k;
    }
  }

  lemma {:induction false} SameListSameComponent(env: Env, refs: seq<Ref>, refs': seq<Ref>, findings: seq<Finding>,
                                                 x: nat, y: nat, x': nat, y': nat)
    requires IDsOwn(refs) && IDsOwn(refs')
    requires IsFindingList(WebOf(env, refs), findings) && IsFindingList(WebOf(env, refs'), findings)
    requires x < |refs| && y < |refs| && Together(WebOf(env, refs), x, y)
    requires x' < |refs'| && y' < |refs'| && refs'[x'].finding == refs[x].finding && refs'[y'].finding == refs[y].finding
    ensures Together(WebOf(env, refs'), x', y')
  {
    var w, w' := WebOf(env, refs), WebOf(env, refs');
    var c := Merged(GroupOf(w, x));
    assert IsMergedOf(w, x, c);
    ListedExactly(w, findings, c);
    ListedExactly(w', findings, c);
    var m: nat :| IsMergedOf(w', m, c);
    ListsOwnExactly(env, refs, x, x);
    ListsOwnExactly(env, refs, x, y);
    ListsOwnExactly(env, refs', m, x');
    ListsOwnExactly(env, refs', m, y');
  }

  // One list of findings comes of one set of components.
  lemma {:induction false} FindingsTellComponents(env: Env, refs: seq<Ref>, refs': seq<Ref>, findings: seq<Finding>)
    requires IDsOwn(refs) && IDsOwn(refs')
    requires IsFindingList(WebOf(env, refs), findings) && IsFindingList(WebOf(env, refs'), findings)
    ensures SameComponents(env, refs, refs')
  {
    forall x, y, x', y' | 0 <= x < |refs| && 0 <= y < |refs| && 0 <= x' < |refs'| && 0 <= y' < |refs'|
      ensures TogetherAlike(env, refs, refs', x, y, x', y')
    {
      if refs'[x'].finding == refs[x].finding && refs'[y'].finding == refs[y].finding {
        if Together(WebOf(env, refs), x, y) { SameListSameComponent(env, refs, refs', findings, x, y, x', y'); }
        if Together(WebOf(env, refs'), x', y') { SameListSameComponent(env, refs', refs, findings, x', y', x, y); }
      }
    }
  }

  lemma {:induction false} IDsOwnCarried(env: Env, runs: seq<RunOutcome>, p: seq<nat>)
    requires IsPermutation(p, |runs|) && KeysDistinct(AllRefs(DeduplicatedRuns(env, runs)))
    requires IDsOwn(AllRefs(DeduplicatedRuns(env, runs)))
    ensures IDsOwn(RefsIn(env, runs, p))
  {
    var refs, refs' := AllRefs(DeduplicatedRuns(env, runs)), RefsIn(env, runs, p);
    PermutedSameFindings(env, runs, p);
    PermutedKeysDistinct(env, runs, p);
    forall j, k, x | 0 <= j < |refs'| && 0 <= k < |refs'| && j != k && x in RecordIDs(refs'[j].finding)
      ensures TrimSpace(x) != refs'[k].finding.id
    {
      var a, b := Locate(refs, refs'[j].finding), Locate(refs, refs'[k].finding);
      if j < k { assert RefKey(refs'[j]) != RefKey(refs'[k]); } else { assert RefKey(refs'[k]) != RefKey(refs'[j]); }
    }
    forall k | 0 <= k < |refs'|
      ensures refs'[k].finding.id != "" && TrimSpace(refs'[k].finding.id) == refs'[k].finding.id
    {
      var a := Locate(refs, refs'[k].finding);
    }
  }

  // ---- There is a list of findings for every graph ----

  // The first position of each component, among the first n.
  ghost function FirstPositions(w: Web, n: nat): (roots: seq<nat>)
    requires n <= |w.refs|
    ensures forall i | 0 <= i < |roots| :: roots[i] < n
    ensures forall i, j | 0 <= i < j < |roots| :: !Together(w, roots[i], roots[j])
    ensures forall k | 0 <= k < n :: Represented(w, roots, k)
  {
    if n == 0 then []
    else
      var before := FirstPositions(w, n - 1);
      if Represented(w, before, n - 1) then before
      else
        var roots := before + [n - 1];
        assert forall k | 0 <= k < n :: Represented(w, roots, k) by {
          forall k | 0 <= k < n ensures Represented(w, roots, k) {
            if k < n - 1 {
              assert Represented(w, before, k);
              var i :| 0 <= i < |before| && Together(w, before[i], k);
              assert Together(w, roots[i], k);
            } else {
              assert Together(w, roots[|before|], k);
            }
          }
        }
        roots
  }

  ghost function ListFor(w: Web): (findings: seq<Finding>)
    ensures IsFindingList(w, findings)
  {
    var roots := FirstPositions(w, |w.refs|);
    var list := seq(|roots|, i requires 0 <= i < |roots| => Merged(GroupOf(w, roots[i])));
    assert Representatives(w, roots) && MergedInOrder(w, roots, list);
    SortBy(w.sort, FindingKey, list)
  }

  // ---- The exact condition ----

  // However the map of groups is walked, every order of the runs gives the findings of the order given.
  ghost predicate FindingsOrderFree(env: Env, runs: seq<RunOutcome>) {
    forall p, findings, findings' | IsPermutation(p, |runs|) && IsFindingList(WebOfRuns(env, runs), findings)
      && IsFindingList(WebOfRuns(env, Permute(p, runs)), findings') :: findings == findings'
  }

  lemma {:induction false} OwnIDsArePresent(refs: seq<Ref>)
    requires IDsOwn(refs)
    ensures IDsPresent(refs)
  {
  }

  lemma {:induction false} FindingsFreeExactly(env: Env, runs: seq<RunOutcome>)
    requires var refs := AllRefs(DeduplicatedRuns(env, runs)); KeysDistinct(refs) && IDsOwn(refs)
    ensures FindingsOrderFree(env, runs) <==> SameComponentsInEveryOrder(env, runs)
  {
    var refs := AllRefs(DeduplicatedRuns(env, runs));
    OwnIDsArePresent(refs);
    if SameComponentsInEveryOrder(env, runs) {
      forall p, findings, findings' | IsPermutation(p, |runs|) && IsFindingList(WebOfRuns(env, runs), findings)
        && IsFindingList(WebOfRuns(env, Permute(p, runs)), findings') ensures findings == findings'
      {
        PermutedSameFindings(env, runs, p);
        PermutedKeysDistinct(env, runs, p);
        assert SameComponents(env, refs, RefsIn(env, runs, p));
        ComponentsDecide(env, refs, RefsIn(env, runs, p), findings, findings');
      }
    }
    if FindingsOrderFree(env, runs) {
      forall p | IsPermutation(p, |runs|) ensures SameComponents(env, refs, RefsIn(env, runs, p)) {
        var findings, findings' := ListFor(WebOfRuns(env, runs)), ListFor(WebOfRuns(env, Permute(p, runs)));
        assert findings == findings';
        IDsOwnCarried(env, runs, p);
        FindingsTellComponents(env, refs, RefsIn(env, runs, p), findings);
      }
    }
  }

  // With ids that are each their own record's, the correlated findings do not depend on the order of the
  // runs exactly when in every order each one-sided pair of different runs is in one component.
  lemma {:induction false} RunOrderFreeExactly(env: Env, runs: seq<RunOutcome>)
    requires var refs := AllRefs(DeduplicatedRuns(env, runs)); KeysDistinct(refs) && IDsOwn(refs)
    ensures FindingsOrderFree(env, runs) <==> JoinedInEveryOrder(env, runs)
  {
    FindingsFreeExactly(env, runs);
    ComponentsOrderFreeExactly(env, runs);
  }
}
