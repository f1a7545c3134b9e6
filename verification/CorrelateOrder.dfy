// What CorrelateRuns does not depend on: the order in which the map yields the groups, and, unless a
// lockfile path is related to another kind of path, the order of the runs.
module CorrelateOrder {
  import opened Text
  import opened Sorting
  import opened Graph
  import opened Evidence
  import opened Related
  import opened Components
  import opened Correlate
  import D = Deduplicate

  ghost predicate IDsPresent(refs: seq<Ref>) {
    forall k | 0 <= k < |refs| :: refs[k].finding.id != ""
  }

  // ---- The merged findings as a set ----

  lemma {:induction false} ListedIsMerged(w: Web, roots: seq<nat>, list: seq<Finding>, f: Finding) returns (k: nat)
    requires MergedInOrder(w, roots, list) && f in list
    ensures IsMergedOf(w, k, f)
  {
    var i :| 0 <= i < |list| && list[i] == f;
    k := roots[i];
    assert IsMergedOf(w, roots[i], list[i]);
  }

  lemma {:induction false} MergedIsListed(w: Web, roots: seq<nat>, list: seq<Finding>, k: nat, f: Finding)
    requires Representatives(w, roots) && MergedInOrder(w, roots, list) && IsMergedOf(w, k, f)
    ensures f in list
  {
    assert Represented(w, roots, k);
    var i :| 0 <= i < |roots| && Together(w, roots[i], k);
    assert IsMergedOf(w, roots[i], list[i]);
    GroupShared(w, roots[i], k);
  }

  // A finding is listed exactly when it is what some record's component merges into.
  lemma {:induction false} ListedExactly(w: Web, findings: seq<Finding>, f: Finding)
    requires IsFindingList(w, findings)
    ensures f in findings <==> exists k :: IsMergedOf(w, k, f)
  {
    var roots: seq<nat>, list: seq<Finding> :|
      Representatives(w, roots) && MergedInOrder(w, roots, list) && findings == SortBy(w.sort, FindingKey, list);
    assert f in findings <==> f in list;
    if f in list {
      var k := ListedIsMerged(w, roots, list, f);
    }
    if k :| IsMergedOf(w, k, f) {
      MergedIsListed(w, roots, list, k, f);
    }
  }

  // ---- Distinct ids ----

  // Records of one id are always in one component.
  lemma {:induction false} SameIDTogether(env: Env, refs: seq<Ref>, p: nat, q: nat)
    requires p < |refs| && q < |refs| && refs[p].finding.id == refs[q].finding.id != ""
    ensures Together(WebOf(env, refs), p, q)
  {
    var edges := Edges(env, refs);
    TogetherExact(env, refs, p, q);
    if p == q {
      ConnectedReflexive(edges, p as int);
    } else {
      assert (p as int, q as int) in edges || (q as int, p as int) in edges;
      ConnectedEdge(edges, p as int, q as int);
    }
  }

  lemma {:induction false} MergedID(w: Web, x: nat, f: Finding) returns (k: nat)
    requires IsMergedOf(w, x, f)
    ensures k < |w.refs| && Together(w, x, k) && f.id == w.refs[k].finding.id
  {
    k := SortedComponentOrigin(w, x, 0);
  }

  lemma {:induction false} MergedIDsDecide(env: Env, refs: seq<Ref>, x: nat, y: nat, f: Finding, g: Finding)
    requires IDsPresent(refs)
    requires IsMergedOf(WebOf(env, refs), x, f) && IsMergedOf(WebOf(env, refs), y, g) && f.id == g.id
    ensures Together(WebOf(env, refs), x, y)
  {
    var w := WebOf(env, refs);
    var p := MergedID(w, x, f);
    var q := MergedID(w, y, g);
    SameIDTogether(env, refs, p, q);
  }

  // With ids present, no two correlated findings share one, and the list is in order of id.
  lemma {:induction false} FindingIDsAscend(env: Env, refs: seq<Ref>, findings: seq<Finding>)
    requires IDsPresent(refs) && IsFindingList(WebOf(env, refs), findings)
    ensures AscendingBy(FindingKey, findings)
    ensures forall i, j | 0 <= i < j < |findings| :: findings[i].id != findings[j].id
  {
    var w := WebOf(env, refs);
    var roots: seq<nat>, list: seq<Finding> :|
      Representatives(w, roots) && MergedInOrder(w, roots, list) && findings == SortBy(w.sort, FindingKey, list);
    forall i, j | 0 <= i < j < |list| ensures list[i].id != list[j].id {
      assert IsMergedOf(w, roots[i], list[i]) && IsMergedOf(w, roots[j], list[j]);
      if list[i].id == list[j].id {
        MergedIDsDecide(env, refs, roots[i], roots[j], list[i], list[j]);
      }
    }
    SortByAscends(w.sort, FindingKey, list);
    SortedIDsDistinct(w.sort, list);
  }

  // By id they ascend, and of a group the record of the least tool, and then the least id, is the first.
  lemma {:induction false} FindingsByID(env: Env, refs: seq<Ref>, findings: seq<Finding>)
    requires IDsPresent(refs) && IsFindingList(WebOf(env, refs), findings)
    ensures forall i, j | 0 <= i < j < |findings| :: StrLess(findings[i].id, findings[j].id)
  {
    FindingIDsAscend(env, refs, findings);
    forall i, j | 0 <= i < j < |findings| ensures StrLess(findings[i].id, findings[j].id) {
      assert KeyLess(FindingKey(findings[i]), FindingKey(findings[j]));
    }
  }

  lemma {:induction false} GroupByToolAndID(w: Web, x: nat, i: nat, j: nat)
    requires x < |w.refs| && i < j < |GroupOf(w, x)|
    ensures var f, g := GroupOf(w, x)[i], GroupOf(w, x)[j];
            StrLess(f.tool, g.tool) || (f.tool == g.tool && (f.id == g.id || StrLess(f.id, g.id)))
  {
    var c := SortedComponent(w, x);
    assert KeyLe(RefKey(c[i]), RefKey(c[j]));
  }

  lemma {:induction false} SortedIDsDistinct(sort: Sorter, list: seq<Finding>)
    requires forall i, j | 0 <= i < j < |list| :: list[i].id != list[j].id
    ensures var r := SortBy(sort, FindingKey, list);
            forall i, j | 0 <= i < j < |r| :: r[i].id != r[j].id
  {
    var p, r := sort(Map(FindingKey, list)), SortBy(sort, FindingKey, list);
    assert Arranges(Map(FindingKey, list), p);
    forall i, j | 0 <= i < j < |r| ensures r[i].id != r[j].id {
      assert p[i] != p[j] && r[i] == list[p[i]] && r[j] == list[p[j]];
    }
  }

  // Every order of the groups gives one list of findings.
  lemma {:induction false} GroupOrderIrrelevant(env: Env, refs: seq<Ref>, findings: seq<Finding>,
                                                findings': seq<Finding>)
    requires IDsPresent(refs)
    requires IsFindingList(WebOf(env, refs), findings) && IsFindingList(WebOf(env, refs), findings')
    ensures findings == findings'
  {
    FindingIDsAscend(env, refs, findings);
    FindingIDsAscend(env, refs, findings');
    forall f ensures f in findings <==> f in findings' {
      ListedExactly(WebOf(env, refs), findings, f);
      ListedExactly(WebOf(env, refs), findings', f);
    }
    AscendingByUnique(FindingKey, findings, findings');
  }

  // The position of a run's record in the list of all records.
  lemma {:induction false} PositionOf(runs: seq<RunOutcome>, r: nat, f: nat) returns (k: nat)
    requires r < |runs| && f < |runs[r].findings|
    ensures k < |AllRefs(runs)| && AllRefs(runs)[k] == Ref(r, f, runs[r].findings[f])
  {
    RefsExact(runs, |runs|);
    var ref := Ref(r, f, runs[r].findings[f]);
    assert IsRefOf(runs, ref) && ref in AllRefs(runs);
    k :| k < |AllRefs(runs)| && AllRefs(runs)[k] == ref;
  }

  lemma {:induction false} LinkedCell(w: Web, runs: seq<RunOutcome>, updated: seq<RunOutcome>, r: nat, f: nat)
    returns (k: nat)
    requires w.refs == AllRefs(runs) && IsLinked(w, runs, updated) && r < |runs| && f < |runs[r].findings|
    ensures k < |w.refs| && w.refs[k] == Ref(r, f, runs[r].findings[f])
    ensures Holds(updated, r, f, LinkedAt(w, k))
  {
    k := PositionOf(runs, r, f);
    assert Holds(updated, w.refs[k].runIdx, w.refs[k].findIdx, LinkedAt(w, k));
  }

  lemma {:induction false} SameRecordPosition(runs: seq<RunOutcome>, k: nat, m: nat)
    requires k < |AllRefs(runs)| && m < |AllRefs(runs)| && AllRefs(runs)[k] == AllRefs(runs)[m]
    ensures k == m
  {
    RefsExact(runs, |runs|);
    assert SameCell(AllRefs(runs)[k], AllRefs(runs)[m]);
  }

  // The records' links never depend on that order.
  lemma {:induction false} LinkedUnique(w: Web, runs: seq<RunOutcome>, updated: seq<RunOutcome>,
                                        updated': seq<RunOutcome>)
    requires w.refs == AllRefs(runs) && IsLinked(w, runs, updated) && IsLinked(w, runs, updated')
    ensures updated == updated'
  {
    forall r, f | 0 <= r < |runs| && 0 <= f < |runs[r].findings|
      ensures updated[r].findings[f] == updated'[r].findings[f]
    {
      var k := LinkedCell(w, runs, updated, r, f);
      var m := LinkedCell(w, runs, updated', r, f);
      SameRecordPosition(runs, k, m);
    }
    forall r | 0 <= r < |runs| ensures updated[r] == updated'[r] {
      assert updated[r].findings == updated'[r].findings;
    }
  }

  // ---- Two lists of the same records ----

  ghost predicate KeysDistinct(refs: seq<Ref>) {
    forall i, j | 0 <= i < j < |refs| :: RefKey(refs[i]) != RefKey(refs[j])
  }

  // A pair whose relatedness depends on which comes first comes in one order in both lists.
  ghost predicate OrderKept(env: Env, refs: seq<Ref>, refs': seq<Ref>) {
    forall i, j, i', j' {:trigger InOneOrder(env, refs, refs', i, j, i', j')}
      | 0 <= i < j < |refs| && 0 <= i' < |refs'| && 0 <= j' < |refs'| :: InOneOrder(env, refs, refs', i, j, i', j')
  }

  ghost predicate InOneOrder(env: Env, refs: seq<Ref>, refs': seq<Ref>, i: int, j: int, i': int, j': int)
    requires 0 <= i < |refs| && 0 <= j < |refs| && 0 <= i' < |refs'| && 0 <= j' < |refs'|
  {
    refs'[i'].finding == refs[i].finding && refs'[j'].finding == refs[j].finding ==>
      i' < j' || !LockfileOnOneSide(env, refs[i].finding, refs[j].finding)
  }

  ghost predicate SameFindings(refs: seq<Ref>, refs': seq<Ref>) {
    && (forall k | 0 <= k < |refs| :: Located(refs', refs[k].finding))
    && (forall k | 0 <= k < |refs'| :: Located(refs, refs'[k].finding))
  }

  ghost predicate Located(refs: seq<Ref>, f: Finding) {
    exists k | 0 <= k < |refs| :: refs[k].finding == f
  }

  ghost function Locate(refs: seq<Ref>, f: Finding): (k: int)
    requires Located(refs, f)
    ensures 0 <= k < |refs| && refs[k].finding == f
  {
    var k :| 0 <= k < |refs| && refs[k].finding == f;
    k
  }

  lemma {:induction false} EdgeCarried(env: Env, refs: seq<Ref>, refs': seq<Ref>, i: nat, j: nat, i': nat, j': nat)
    requires OrderKept(env, refs, refs') && (i as int, j as int) in Edges(env, refs) && KeysDistinct(refs)
    requires i' < |refs'| && j' < |refs'| && refs'[i'].finding == refs[i].finding && refs'[j'].finding == refs[j].finding
    ensures Adjacent(Edges(env, refs'), i' as int, j' as int)
  {
    var f, g := refs[i].finding, refs[j].finding;
    RelatedSymmetricExactly(env, f, g);
    assert RefKey(refs[i]) != RefKey(refs[j]);
    assert i' != j';
    assert InOneOrder(env, refs, refs', i, j, i', j');
    if i' < j' { EdgeExact(env, refs', i', j'); } else { EdgeExact(env, refs', j', i'); }
  }

  lemma {:induction false} TogetherCarried(env: Env, refs: seq<Ref>, refs': seq<Ref>, x: nat, y: nat, x': nat,
                                           y': nat)
    requires SameFindings(refs, refs') && KeysDistinct(refs) && KeysDistinct(refs') && OrderKept(env, refs, refs')
    requires x < |refs| && y < |refs| && Together(WebOf(env, refs), x, y)
    requires x' < |refs'| && y' < |refs'| && refs'[x'].finding == refs[x].finding && refs'[y'].finding == refs[y].finding
    ensures Together(WebOf(env, refs'), x', y')
  {
    var move := (i: int) => if 0 <= i < |refs| then Locate(refs', refs[i].finding) else 0;
    TogetherExact(env, refs, x, y);
    forall e | e in Edges(env, refs) ensures Adjacent(Edges(env, refs'), move(e.0), move(e.1)) {
      EdgeCarried(env, refs, refs', e.0, e.1, move(e.0), move(e.1));
    }
    ConnectedMap(Edges(env, refs), Edges(env, refs'), move, x as int, y as int);
    LocateUnique(refs', x', move(x));
    LocateUnique(refs', y', move(y));
    TogetherExact(env, refs', x', y');
  }

  lemma {:induction false} OneSideSymmetric(env: Env, f: Finding, g: Finding)
    ensures LockfileOnOneSide(env, f, g) == LockfileOnOneSide(env, g, f)
  {
    EvidenceSymmetric(env, f, g);
  }

  lemma {:induction false} OrderKeptBack(env: Env, refs: seq<Ref>, refs': seq<Ref>)
    requires KeysDistinct(refs') && OrderKept(env, refs, refs')
    ensures OrderKept(env, refs', refs)
  {
    forall i', j', i, j | 0 <= i' < j' < |refs'| && 0 <= i < |refs| && 0 <= j < |refs|
      ensures InOneOrder(env, refs', refs, i', j', i, j)
    {
      assert RefKey(refs'[i']) != RefKey(refs'[j']);
      OneSideSymmetric(env, refs'[i'].finding, refs'[j'].finding);
      if j < i { assert InOneOrder(env, refs, refs', j, i, j', i'); }
    }
  }

  // The same records belong together in both lists.
  ghost predicate SameComponents(env: Env, refs: seq<Ref>, refs': seq<Ref>) {
    forall x, y, x', y' {:trigger TogetherAlike(env, refs, refs', x, y, x', y')}
      | 0 <= x < |refs| && 0 <= y < |refs| && 0 <= x' < |refs'| && 0 <= y' < |refs'| ::
      TogetherAlike(env, refs, refs', x, y, x', y')
  }

  ghost predicate TogetherAlike(env: Env, refs: seq<Ref>, refs': seq<Ref>, x: int, y: int, x': int, y': int)
    requires 0 <= x < |refs| && 0 <= y < |refs| && 0 <= x' < |refs'| && 0 <= y' < |refs'|
  {
    refs'[x'].finding == refs[x].finding && refs'[y'].finding == refs[y].finding ==>
      (Together(WebOf(env, refs), x, y) <==> Together(WebOf(env, refs'), x', y'))
  }

  lemma {:induction false} SameComponentsBack(env: Env, refs: seq<Ref>, refs': seq<Ref>)
    requires SameComponents(env, refs, refs')
    ensures SameComponents(env, refs', refs)
  {
    forall x, y, x', y' | 0 <= x < |refs'| && 0 <= y < |refs'| && 0 <= x' < |refs| && 0 <= y' < |refs|
      ensures TogetherAlike(env, refs', refs, x, y, x', y')
    {
      assert TogetherAlike(env, refs, refs', x', y', x, y);
    }
  }

  lemma {:induction false} OrderKeptSameComponents(env: Env, refs: seq<Ref>, refs': seq<Ref>)
    requires SameFindings(refs, refs') && KeysDistinct(refs) && KeysDistinct(refs') && OrderKept(env, refs, refs')
    ensures SameComponents(env, refs, refs')
  {
    OrderKeptBack(env, refs, refs');
    forall x, y, x', y' | 0 <= x < |refs| && 0 <= y < |refs| && 0 <= x' < |refs'| && 0 <= y' < |refs'|
      ensures TogetherAlike(env, refs, refs', x, y, x', y')
    {
      if refs'[x'].finding == refs[x].finding && refs'[y'].finding == refs[y].finding {
        if Together(WebOf(env, refs), x, y) { TogetherCarried(env, refs, refs', x, y, x', y'); }
        if Together(WebOf(env, refs'), x', y') { TogetherCarried(env, refs', refs, x', y', x, y); }
      }
    }
  }

  lemma {:induction false} LocateUnique(refs: seq<Ref>, i: nat, j: nat)
    requires KeysDistinct(refs) && i < |refs| && j < |refs| && refs[i].finding == refs[j].finding
    ensures i == j
  {
    assert RefKey(refs[i]) == RefKey(refs[j]);
  }

  function GroupKey(f: Finding): Key { (f.tool, f.id) }

  lemma {:induction false} ComponentKeysDistinct(w: Web, x: nat, n: nat)
    requires x < |w.refs| && n <= |w.refs| && KeysDistinct(w.refs)
    ensures DistinctBy(RefKey, Component(w, x, n))
    decreases n
  {
    if n > 0 {
      ComponentKeysDistinct(w, x, n - 1);
      var before := Component(w, x, n - 1);
      forall i | 0 <= i < |before| ensures RefKey(before[i]) != RefKey(w.refs[n - 1]) {
        var k := ComponentOrigin(w, x, n - 1, i);
      }
    }
  }

  lemma {:induction false} GroupAscends(w: Web, x: nat)
    requires x < |w.refs| && KeysDistinct(w.refs)
    ensures AscendingBy(GroupKey, GroupOf(w, x))
  {
    ComponentKeysDistinct(w, x, |w.refs|);
    SortByAscends(w.sort, RefKey, Component(w, x, |w.refs|));
    var g, c := GroupOf(w, x), SortedComponent(w, x);
    forall i, j | 0 <= i < j < |g| ensures KeyLess(GroupKey(g[i]), GroupKey(g[j])) {
      assert GroupKey(g[i]) == RefKey(c[i]) && GroupKey(g[j]) == RefKey(c[j]);
    }
  }

  lemma {:induction false} GroupMemberCarried(env: Env, refs: seq<Ref>, refs': seq<Ref>, x: nat, x': nat, f: Finding)
    requires SameFindings(refs, refs') && KeysDistinct(refs) && KeysDistinct(refs') && SameComponents(env, refs, refs')
    requires x < |refs| && x' < |refs'| && refs'[x'].finding == refs[x].finding
    requires f in GroupOf(WebOf(env, refs), x)
    ensures f in GroupOf(WebOf(env, refs'), x')
  {
    var w, w' := WebOf(env, refs), WebOf(env, refs');
    var i :| 0 <= i < |GroupOf(w, x)| && GroupOf(w, x)[i] == f;
    var k := SortedComponentOrigin(w, x, i);
    var k' := Locate(refs', refs[k].finding);
    assert TogetherAlike(env, refs, refs', x, k, x', k');
    InSortedComponent(w', x', k');
  }

  // A record's group is the same list of findings whichever list of records it is found in.
  lemma {:induction false} GroupCarried(env: Env, refs: seq<Ref>, refs': seq<Ref>, x: nat, x': nat)
    requires SameFindings(refs, refs') && KeysDistinct(refs) && KeysDistinct(refs') && SameComponents(env, refs, refs')
    requires x < |refs| && x' < |refs'| && refs'[x'].finding == refs[x].finding
    ensures GroupOf(WebOf(env, refs), x) == GroupOf(WebOf(env, refs'), x')
  {
    var w, w' := WebOf(env, refs), WebOf(env, refs');
    SameComponentsBack(env, refs, refs');
    forall f ensures f in GroupOf(w, x) <==> f in GroupOf(w', x') {
      if f in GroupOf(w, x) { GroupMemberCarried(env, refs, refs', x, x', f); }
      if f in GroupOf(w', x') { GroupMemberCarried(env, refs', refs, x', x, f); }
    }
    GroupAscends(w, x);
    GroupAscends(w', x');
    AscendingByUnique(GroupKey, GroupOf(w, x), GroupOf(w', x'));
  }

  lemma {:induction false} ListedCarried(env: Env, refs: seq<Ref>, refs': seq<Ref>, k: nat, f: Finding)
    requires SameFindings(refs, refs') && KeysDistinct(refs) && KeysDistinct(refs') && SameComponents(env, refs, refs')
    requires IsMergedOf(WebOf(env, refs), k, f)
    ensures exists k' :: IsMergedOf(WebOf(env, refs'), k', f)
  {
    var k' := Locate(refs', refs[k].finding);
    GroupCarried(env, refs, refs', k, k');
    assert IsMergedOf(WebOf(env, refs'), k', f);
  }

  lemma {:induction false} IDsCarried(refs: seq<Ref>, refs': seq<Ref>)
    requires SameFindings(refs, refs') && IDsPresent(refs)
    ensures IDsPresent(refs')
  {
    forall k | 0 <= k < |refs'| ensures refs'[k].finding.id != "" {
      var i := Locate(refs, refs'[k].finding);
    }
  }

  // Two lists of the same records in the same components correlate to the same findings.
  lemma {:induction false} ComponentsDecide(env: Env, refs: seq<Ref>, refs': seq<Ref>, findings: seq<Finding>,
                                                 findings': seq<Finding>)
    requires SameFindings(refs, refs') && KeysDistinct(refs) && KeysDistinct(refs')
    requires SameComponents(env, refs, refs') && IDsPresent(refs)
    requires IsFindingList(WebOf(env, refs), findings) && IsFindingList(WebOf(env, refs'), findings')
    ensures findings == findings'
  {
    SameComponentsBack(env, refs, refs');
    IDsCarried(refs, refs');
    forall f ensures f in findings <==> f in findings' {
      ListedExactly(WebOf(env, refs), findings, f);
      ListedExactly(WebOf(env, refs'), findings', f);
      if k :| IsMergedOf(WebOf(env, refs), k, f) { ListedCarried(env, refs, refs', k, f); }
      if k :| IsMergedOf(WebOf(env, refs'), k, f) { ListedCarried(env, refs', refs, k, f); }
    }
    FindingIDsAscend(env, refs, findings);
    FindingIDsAscend(env, refs', findings');
    AscendingByUnique(FindingKey, findings, findings');
  }

  // And in the same components they are when no pair whose relatedness depends on order changes its own.
  lemma {:induction false} RecordOrderIrrelevant(env: Env, refs: seq<Ref>, refs': seq<Ref>, findings: seq<Finding>,
                                                 findings': seq<Finding>)
    requires SameFindings(refs, refs') && KeysDistinct(refs) && KeysDistinct(refs')
    requires OrderKept(env, refs, refs') && IDsPresent(refs)
    requires IsFindingList(WebOf(env, refs), findings) && IsFindingList(WebOf(env, refs'), findings')
    ensures findings == findings'
  {
    OrderKeptSameComponents(env, refs, refs');
    ComponentsDecide(env, refs, refs', findings, findings');
  }

  // ---- Runs in another order ----

  lemma {:induction false} PermutedRef(env: Env, runs: seq<RunOutcome>, p: seq<nat>, ref: Ref)
    requires IsPermutation(p, |runs|) && ref.runIdx < |runs|
    ensures IsRefOf(DeduplicatedRuns(env, Permute(p, runs)), ref)
       <==> IsRefOf(DeduplicatedRuns(env, runs), ref.(runIdx := p[ref.runIdx]))
  {
  }

  lemma {:induction false} PermutedSameFindings(env: Env, runs: seq<RunOutcome>, p: seq<nat>)
    requires IsPermutation(p, |runs|)
    ensures SameFindings(AllRefs(DeduplicatedRuns(env, runs)), AllRefs(DeduplicatedRuns(env, Permute(p, runs))))
  {
    var d, d' := DeduplicatedRuns(env, runs), DeduplicatedRuns(env, Permute(p, runs));
    var refs, refs' := AllRefs(d), AllRefs(d');
    RefsExact(d, |d|);
    RefsExact(d', |d'|);
    forall k | 0 <= k < |refs| ensures Located(refs', refs[k].finding) {
      assert refs[k] in refs;
      assert refs[k].runIdx in p;
      var r: nat :| r < |p| && p[r] == refs[k].runIdx;
      var ref' := refs[k].(runIdx := r);
      PermutedRef(env, runs, p, ref');
      assert ref' in refs';
    }
    forall k | 0 <= k < |refs'| ensures Located(refs, refs'[k].finding) {
      assert refs'[k] in refs';
      PermutedRef(env, runs, p, refs'[k]);
      assert refs'[k].(runIdx := p[refs'[k].runIdx]) in refs;
    }
  }

  // Distinct keys, asked of places rather than of positions in the list.
  lemma {:induction false} KeysDistinctAt(runs: seq<RunOutcome>, a: Ref, b: Ref)
    requires KeysDistinct(AllRefs(runs)) && IsRefOf(runs, a) && IsRefOf(runs, b) && !SameCell(a, b)
    ensures RefKey(a) != RefKey(b)
  {
    var refs := AllRefs(runs);
    RefsExact(runs, |runs|);
    assert a in refs && b in refs;
    var i :| 0 <= i < |refs| && refs[i] == a;
    var j :| 0 <= j < |refs| && refs[j] == b;
    if i < j { assert RefKey(refs[i]) != RefKey(refs[j]); } else { assert RefKey(refs[j]) != RefKey(refs[i]); }
  }

  lemma {:induction false} PermutedKeysDistinct(env: Env, runs: seq<RunOutcome>, p: seq<nat>)
    requires IsPermutation(p, |runs|) && KeysDistinct(AllRefs(DeduplicatedRuns(env, runs)))
    ensures KeysDistinct(AllRefs(DeduplicatedRuns(env, Permute(p, runs))))
  {
    var d, d' := DeduplicatedRuns(env, runs), DeduplicatedRuns(env, Permute(p, runs));
    var refs' := AllRefs(d');
    RefsExact(d', |d'|);
    forall i, j | 0 <= i < j < |refs'| ensures RefKey(refs'[i]) != RefKey(refs'[j]) {
      var a, b := refs'[i], refs'[j];
      assert a in refs' && b in refs' && !SameCell(a, b);
      PermutedRef(env, runs, p, a);
      PermutedRef(env, runs, p, b);
      var pa, pb := a.(runIdx := p[a.runIdx]), b.(runIdx := p[b.runIdx]);
      assert a.runIdx < b.runIdx || b.runIdx < a.runIdx || a.runIdx == b.runIdx;
      assert !SameCell(pa, pb);
      KeysDistinctAt(d, pa, pb);
    }
  }

  // No pair of records of different runs whose relatedness depends on which comes first.
  ghost predicate OrderFree(env: Env, refs: seq<Ref>) {
    forall i, j | 0 <= i < |refs| && 0 <= j < |refs| && refs[i].runIdx != refs[j].runIdx ::
      !LockfileOnOneSide(env, refs[i].finding, refs[j].finding)
  }

  ghost predicate ComesBefore(a: Ref, b: Ref) {
    a.runIdx < b.runIdx || (a.runIdx == b.runIdx && a.findIdx < b.findIdx)
  }

  // Records are listed by run, and in a run by place.
  lemma {:induction false} RefsAscend(runs: seq<RunOutcome>, n: nat, i: nat, j: nat)
    requires n <= |runs| && i < j < |RefsOfRuns(runs, n)|
    ensures ComesBefore(RefsOfRuns(runs, n)[i], RefsOfRuns(runs, n)[j])
    decreases n
  {
    var before := RefsOfRuns(runs, n - 1);
    if j < |before| {
      RefsAscend(runs, n - 1, i, j);
    } else if i < |before| {
      RefsExact(runs, n - 1);
      assert before[i] in before;
    }
  }

  // A record keeps its place in its run.
  lemma {:induction false} CellMoved(env: Env, runs: seq<RunOutcome>, p: seq<nat>, k: nat, k': nat)
    requires IsPermutation(p, |runs|) && KeysDistinct(AllRefs(DeduplicatedRuns(env, runs)))
    requires k < |AllRefs(DeduplicatedRuns(env, runs))| && k' < |AllRefs(DeduplicatedRuns(env, Permute(p, runs)))|
    requires AllRefs(DeduplicatedRuns(env, runs))[k].finding == AllRefs(DeduplicatedRuns(env, Permute(p, runs)))[k'].finding
    ensures var a, a' := AllRefs(DeduplicatedRuns(env, runs))[k], AllRefs(DeduplicatedRuns(env, Permute(p, runs)))[k'];
            a'.runIdx < |p| && a.runIdx == p[a'.runIdx] && a.findIdx == a'.findIdx
  {
    var d, d' := DeduplicatedRuns(env, runs), DeduplicatedRuns(env, Permute(p, runs));
    var a, a' := AllRefs(d)[k], AllRefs(d')[k'];
    RefsExact(d, |d|);
    RefsExact(d', |d'|);
    assert a in AllRefs(d) && a' in AllRefs(d');
    PermutedRef(env, runs, p, a');
    var back := a'.(runIdx := p[a'.runIdx]);
    if !SameCell(a, back) { KeysDistinctAt(d, a, back); }
  }

  lemma {:induction false} PermutedPair(env: Env, runs: seq<RunOutcome>, p: seq<nat>, i: nat, j: nat, i': nat, j': nat)
    requires IsPermutation(p, |runs|)
    requires var refs := AllRefs(DeduplicatedRuns(env, runs)); KeysDistinct(refs) && OrderFree(env, refs) && i < j < |refs|
    requires var refs' := AllRefs(DeduplicatedRuns(env, Permute(p, runs))); i' < |refs'| && j' < |refs'|
    ensures InOneOrder(env, AllRefs(DeduplicatedRuns(env, runs)), AllRefs(DeduplicatedRuns(env, Permute(p, runs))), i, j, i', j')
  {
    var d, d' := DeduplicatedRuns(env, runs), DeduplicatedRuns(env, Permute(p, runs));
    var refs, refs' := AllRefs(d), AllRefs(d');
    if refs'[i'].finding == refs[i].finding && refs'[j'].finding == refs[j].finding && j' <= i' {
      CellMoved(env, runs, p, i, i');
      CellMoved(env, runs, p, j, j');
      RefsAscend(d, |d|, i, j);
      if j' < i' { RefsAscend(d', |d'|, j', i'); }
      assert refs[i].runIdx != refs[j].runIdx;
    }
  }

  // Two records of one run stand in one order wherever the run does.
  lemma {:induction false} PermutedOrderKept(env: Env, runs: seq<RunOutcome>, p: seq<nat>)
    requires IsPermutation(p, |runs|)
    requires var refs := AllRefs(DeduplicatedRuns(env, runs)); KeysDistinct(refs) && OrderFree(env, refs)
    ensures OrderKept(env, AllRefs(DeduplicatedRuns(env, runs)), AllRefs(DeduplicatedRuns(env, Permute(p, runs))))
  {
    var refs, refs' := AllRefs(DeduplicatedRuns(env, runs)), AllRefs(DeduplicatedRuns(env, Permute(p, runs)));
    forall i, j, i', j' | 0 <= i < j < |refs| && 0 <= i' < |refs'| && 0 <= j' < |refs'|
      ensures InOneOrder(env, refs, refs', i, j, i', j')
    {
      PermutedPair(env, runs, p, i, j, i', j');
    }
  }

  // The order of the runs makes no difference to the correlated findings, when records carry ids, no two
  // share a tool and an id, and no lockfile path meets another path of its base name in another run.
  lemma {:induction false} RunOrderIrrelevant(env: Env, runs: seq<RunOutcome>, p: seq<nat>, findings: seq<Finding>,
                                              updated: seq<RunOutcome>, findings': seq<Finding>,
                                              updated': seq<RunOutcome>)
    requires IsPermutation(p, |runs|)
    requires var refs := AllRefs(DeduplicatedRuns(env, runs));
             IDsPresent(refs) && KeysDistinct(refs) && OrderFree(env, refs)
    requires IsCorrelation(env, runs, findings, updated)
    requires IsCorrelation(env, Permute(p, runs), findings', updated')
    ensures findings == findings'
  {
    PermutedSameFindings(env, runs, p);
    PermutedKeysDistinct(env, runs, p);
    PermutedOrderKept(env, runs, p);
    RecordOrderIrrelevant(env, AllRefs(DeduplicatedRuns(env, runs)),
      AllRefs(DeduplicatedRuns(env, Permute(p, runs))), findings, findings');
  }

  lemma {:induction false} PermutedCell(env: Env, runs: seq<RunOutcome>, p: seq<nat>, updated: seq<RunOutcome>,
                                        updated': seq<RunOutcome>, r: nat, f: nat)
    requires IsPermutation(p, |runs|)
    requires var refs := AllRefs(DeduplicatedRuns(env, runs)); KeysDistinct(refs) && OrderFree(env, refs)
    requires IsLinked(WebOfRuns(env, runs), DeduplicatedRuns(env, runs), updated)
    requires IsLinked(WebOfRuns(env, Permute(p, runs)), DeduplicatedRuns(env, Permute(p, runs)), updated')
    requires r < |runs| && f < |DeduplicatedRuns(env, runs)[p[r]].findings|
    ensures r < |updated'| && p[r] < |updated| && f < |updated'[r].findings| && f < |updated[p[r]].findings|
    ensures updated'[r].findings[f] == updated[p[r]].findings[f]
  {
    var d, d' := DeduplicatedRuns(env, runs), DeduplicatedRuns(env, Permute(p, runs));
    var k := LinkedCell(WebOfRuns(env, runs), d, updated, p[r], f);
    var k' := LinkedCell(WebOfRuns(env, Permute(p, runs)), d', updated', r, f);
    PermutedSameFindings(env, runs, p);
    PermutedKeysDistinct(env, runs, p);
    PermutedOrderKept(env, runs, p);
    OrderKeptSameComponents(env, AllRefs(d), AllRefs(d'));
    GroupCarried(env, AllRefs(d), AllRefs(d'), k, k');
  }

  // And each run's records come out the same wherever the run stands.
  lemma {:induction false} RunOrderCarriesRecords(env: Env, runs: seq<RunOutcome>, p: seq<nat>,
                                                  updated: seq<RunOutcome>, updated': seq<RunOutcome>)
    requires IsPermutation(p, |runs|)
    requires var refs := AllRefs(DeduplicatedRuns(env, runs)); KeysDistinct(refs) && OrderFree(env, refs)
    requires IsLinked(WebOfRuns(env, runs), DeduplicatedRuns(env, runs), updated)
    requires IsLinked(WebOfRuns(env, Permute(p, runs)), DeduplicatedRuns(env, Permute(p, runs)), updated')
    ensures |updated| == |runs| && updated' == Permute(p, updated)
  {
    forall r | 0 <= r < |runs| ensures updated'[r] == updated[p[r]] {
      assert |updated'[r].findings| == |updated[p[r]].findings|;
      forall f | 0 <= f < |updated'[r].findings| ensures updated'[r].findings[f] == updated[p[r]].findings[f] {
        PermutedCell(env, runs, p, updated, updated', r, f);
      }
      assert updated'[r].findings == updated[p[r]].findings;
    }
  }

  // ---- Two records: exactly when their order matters ----

  function RunWith(f: Finding): RunOutcome {
    RunOutcome(f.tool, "", 0, OK, [f], "", "")
  }

  lemma {:induction false} TwoRefs(env: Env, f: Finding, g: Finding)
    ensures var runs := [RunWith(f), RunWith(g)];
            DeduplicatedRuns(env, runs) == runs && AllRefs(runs) == [Ref(0, 0, f), Ref(1, 0, g)]
  {
    var runs := [RunWith(f), RunWith(g)];
    D.AtMostOne(env, [f]);
    D.AtMostOne(env, [g]);
    assert DeduplicatedRuns(env, runs) == runs;
    assert RefsOfRuns(runs, 0) == [];
    assert RefsOfRuns(runs, 1) == RefsOfRun(0, [f], 1);
    assert RefsOfRuns(runs, 2) == RefsOfRun(0, [f], 1) + RefsOfRun(1, [g], 1);
    assert RefsOfRun(0, [f], 1) == [Ref(0, 0, f)] && RefsOfRun(1, [g], 1) == [Ref(1, 0, g)];
  }

  lemma {:induction false} TwoTogether(env: Env, f: Finding, g: Finding)
    ensures var refs := [Ref(0, 0, f), Ref(1, 0, g)];
            Together(WebOf(env, refs), 0, 1) <==> AreFindingsRelated(env, f, g)
  {
    var refs := [Ref(0, 0, f), Ref(1, 0, g)];
    TogetherExact(env, refs, 0, 1);
    EdgeExact(env, refs, 0, 1);
    assert forall e | e in Edges(env, refs) :: e == (0, 1);
    if AreFindingsRelated(env, f, g) {
      ConnectedEdge(Edges(env, refs), 0, 1);
    } else if Connected(Edges(env, refs), 0, 1) {
      var same := (a: int, b: int) => a == b;
      ConnectedLeast(Edges(env, refs), same, 0, 1);
    }
  }

  // Two runs of one record each give one finding if the first is related to the second, else two.
  lemma {:induction false} TwoRunsCount(env: Env, f: Finding, g: Finding, findings: seq<Finding>,
                                        updated: seq<RunOutcome>)
    requires IsCorrelation(env, [RunWith(f), RunWith(g)], findings, updated)
    ensures |findings| == if AreFindingsRelated(env, f, g) then 1 else 2
  {
    TwoRefs(env, f, g);
    TwoTogether(env, f, g);
    var w := WebOf(env, [Ref(0, 0, f), Ref(1, 0, g)]);
    var roots: seq<nat>, list: seq<Finding> :|
      Representatives(w, roots) && MergedInOrder(w, roots, list) && findings == SortBy(w.sort, FindingKey, list);
    RootsOfTwo(w, roots);
  }

  lemma {:induction false} RootsOfTwo(w: Web, roots: seq<nat>)
    requires |w.refs| == 2 && Representatives(w, roots)
    ensures |roots| == if Together(w, 0, 1) then 1 else 2
  {
    assert Represented(w, roots, 0) && Represented(w, roots, 1);
    assert forall k | 0 <= k < |roots| :: roots[k] == 0 || roots[k] == 1;
    if |roots| == 2 {
      assert !Together(w, roots[0], roots[1]);
    } else if |roots| > 2 {
      var a, b, c := roots[0], roots[1], roots[2];
      assert !Together(w, a, b) && !Together(w, a, c) && !Together(w, b, c);
    }
  }

  // Two runs that correlate to one finding in one order and to two in the other.
  lemma {:induction false} SwapCanSplit(env: Env, findings: seq<Finding>, updated: seq<RunOutcome>,
                                        findings': seq<Finding>, updated': seq<RunOutcome>)
    requires env.clean("lock/a") == "lock/a" && env.clean("src/a") == "src/a"
    requires env.base("lock/a") == "a" && env.base("src/a") == "a"
    requires env.vulnIDs("CVE-2024-0001", [], "", "") == ["CVE-2024-0001"]
    requires var f, g := AdvisoryAt("1", "CVE-2024-0001", "lock/a"), AdvisoryAt("2", "CVE-2024-0001", "src/a");
             IsCorrelation(env, [RunWith(f), RunWith(g)], findings, updated)
             && IsCorrelation(env, [RunWith(g), RunWith(f)], findings', updated')
    ensures |findings| == 1 && |findings'| == 2
  {
    var f, g := AdvisoryAt("1", "CVE-2024-0001", "lock/a"), AdvisoryAt("2", "CVE-2024-0001", "src/a");
    AsymmetryHappens(env);
    TwoRunsCount(env, f, g, findings, updated);
    TwoRunsCount(env, g, f, findings', updated');
  }

  // Swapping two single-record runs keeps the number of findings exactly when the pair is order-free.
  lemma {:induction false} SwapKeepsCountExactly(env: Env, f: Finding, g: Finding, findings: seq<Finding>,
                                                 updated: seq<RunOutcome>, findings': seq<Finding>,
                                                 updated': seq<RunOutcome>)
    requires IsCorrelation(env, [RunWith(f), RunWith(g)], findings, updated)
    requires IsCorrelation(env, [RunWith(g), RunWith(f)], findings', updated')
    ensures |findings| == |findings'| <==> !LockfileOnOneSide(env, f, g)
  {
    TwoRunsCount(env, f, g, findings, updated);
    TwoRunsCount(env, g, f, findings', updated');
    RelatedSymmetricExactly(env, f, g);
  }
}
