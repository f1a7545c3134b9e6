// The components of a graph of records, and what CorrelateRuns does with each.
module Components {
  import opened Sorting
  import opened UnionFind
  import opened Evidence
  import opened Merge

  // ---- Records of all runs ----

  datatype Ref = Ref(runIdx: nat, findIdx: nat, finding: Finding)

  function RefsOfRun(r: nat, fs: seq<Finding>, n: nat): (refs: seq<Ref>)
    requires n <= |fs|
    ensures |refs| == n && forall i | 0 <= i < n :: refs[i] == Ref(r, i, fs[i])
  {
    seq(n, i requires 0 <= i < n => Ref(r, i, fs[i]))
  }

  function RefsOfRuns(runs: seq<RunOutcome>, n: nat): seq<Ref>
    requires n <= |runs|
  {
    if n == 0 then []
    else RefsOfRuns(runs, n - 1) + RefsOfRun(n - 1, runs[n - 1].findings, |runs[n - 1].findings|)
  }

  function AllRefs(runs: seq<RunOutcome>): seq<Ref> { RefsOfRuns(runs, |runs|) }

  ghost predicate IsRefOf(runs: seq<RunOutcome>, ref: Ref) {
    ref.runIdx < |runs| && ref.findIdx < |runs[ref.runIdx].findings| &&
    ref.finding == runs[ref.runIdx].findings[ref.findIdx]
  }

  ghost predicate SameCell(a: Ref, b: Ref) {
    a.runIdx == b.runIdx && a.findIdx == b.findIdx
  }

  ghost predicate DistinctCells(refs: seq<Ref>) {
    forall i, j | 0 <= i < j < |refs| :: !SameCell(refs[i], refs[j])
  }

  // Every record appears once, and nothing else does.
  lemma {:induction false} RefsExact(runs: seq<RunOutcome>, n: nat)
    requires n <= |runs|
    ensures forall ref :: ref in RefsOfRuns(runs, n) <==> IsRefOf(runs, ref) && ref.runIdx < n
    ensures DistinctCells(RefsOfRuns(runs, n))
    decreases n
  {
    if n > 0 {
      RefsExact(runs, n - 1);
      var before, last := RefsOfRuns(runs, n - 1), RefsOfRun(n - 1, runs[n - 1].findings, |runs[n - 1].findings|);
      forall ref ensures ref in last <==> IsRefOf(runs, ref) && ref.runIdx == n - 1 {
        if IsRefOf(runs, ref) && ref.runIdx == n - 1 { assert last[ref.findIdx] == ref; }
      }
      forall i | 0 <= i < |before| ensures before[i].runIdx < n - 1 {
        assert before[i] in before;
      }
    }
  }

  method CollectRefs(runs: seq<RunOutcome>) returns (refs: seq<Ref>)
    ensures refs == AllRefs(runs)
  {
    refs := [];
    for r := 0 to |runs|
      invariant refs == RefsOfRuns(runs, r)
    {
      ghost var before := refs;
      var fs := runs[r].findings;
      for f := 0 to |fs|
        invariant refs == before + RefsOfRun(r, fs, f)
      {
        refs := refs + [Ref(r, f, fs[f])];
      }
    }
  }

  // Records, a tag for each that two records share just when they belong together, and the sort in use.
  datatype TaggedRecords = Web(refs: seq<Ref>, tag: seq<nat>, sort: Sorter)
  type Web = w: TaggedRecords | |w.tag| == |w.refs| witness Web([], [], InsertionSort)

  ghost predicate Together(w: Web, x: int, y: int)
    requires 0 <= x < |w.refs| && 0 <= y < |w.refs|
  {
    w.tag[x] == w.tag[y]
  }

  ghost predicate IsRoot(rep: seq<nat>, r: nat) {
    r < |rep| && rep[r] == r
  }

  // Representatives are their own, and two records share one just when they belong together.
  ghost predicate Decides(w: Web, rep: seq<nat>) {
    && |rep| == |w.refs|
    && (forall x {:trigger IsRoot(rep, rep[x])} | 0 <= x < |rep| :: IsRoot(rep, rep[x]))
    && (forall x, y {:trigger Together(w, x, y)} | 0 <= x < |rep| && 0 <= y < |rep| ::
          rep[x] == rep[y] <==> Together(w, x, y))
  }

  // ---- Components ----

  // The first n records that belong with x, in order.
  ghost function Component(w: Web, x: nat, n: nat): seq<Ref>
    requires x < |w.refs| && n <= |w.refs|
  {
    if n == 0 then []
    else Component(w, x, n - 1) + if Together(w, x, n - 1) then [w.refs[n - 1]] else []
  }

  lemma {:induction false} ComponentMember(w: Web, x: nat, n: nat, k: nat)
    requires x < |w.refs| && k < n <= |w.refs| && Together(w, x, k)
    ensures w.refs[k] in Component(w, x, n)
    decreases n
  {
    if k < n - 1 { ComponentMember(w, x, n - 1, k); }
  }

  lemma {:induction false} ComponentOrigin(w: Web, x: nat, n: nat, i: nat) returns (k: nat)
    requires x < |w.refs| && n <= |w.refs| && i < |Component(w, x, n)|
    ensures k < n && Together(w, x, k) && w.refs[k] == Component(w, x, n)[i]
    decreases n
  {
    if i < |Component(w, x, n - 1)| {
      k := ComponentOrigin(w, x, n - 1, i);
    } else {
      k := n - 1;
    }
  }

  lemma {:induction false} ComponentShared(w: Web, x: nat, y: nat, n: nat)
    requires x < |w.refs| && y < |w.refs| && n <= |w.refs| && Together(w, x, y)
    ensures Component(w, x, n) == Component(w, y, n)
    decreases n
  {
    if n > 0 { ComponentShared(w, x, y, n - 1); }
  }

  function RefKey(ref: Ref): Key { (ref.finding.tool, ref.finding.id) }
  function FindingOf(ref: Ref): Finding { ref.finding }
  function FindingKey(f: Finding): Key { (f.id, f.tool) }

  // x's component, sorted by tool and id.
  ghost function SortedComponent(w: Web, x: nat): (g: seq<Ref>)
    requires x < |w.refs|
    ensures g != []
  {
    ComponentMember(w, x, |w.refs|, x);
    SortBy(w.sort, RefKey, Component(w, x, |w.refs|))
  }

  ghost function GroupOf(w: Web, x: nat): (g: seq<Finding>)
    requires x < |w.refs|
    ensures g != []
  {
    Map(FindingOf, SortedComponent(w, x))
  }

  lemma {:induction false} InSortedComponent(w: Web, x: nat, k: nat)
    requires x < |w.refs| && k < |w.refs| && Together(w, x, k)
    ensures w.refs[k] in SortedComponent(w, x) && w.refs[k].finding in GroupOf(w, x)
  {
    ComponentMember(w, x, |w.refs|, k);
    var g := SortedComponent(w, x);
    var i :| 0 <= i < |g| && g[i] == w.refs[k];
    assert GroupOf(w, x)[i] == w.refs[k].finding;
  }

  lemma {:induction false} SortedComponentOrigin(w: Web, x: nat, i: nat) returns (k: nat)
    requires x < |w.refs| && i < |SortedComponent(w, x)|
    ensures k < |w.refs| && Together(w, x, k)
    ensures w.refs[k] == SortedComponent(w, x)[i] && w.refs[k].finding == GroupOf(w, x)[i]
  {
    var c := Component(w, x, |w.refs|);
    assert SortedComponent(w, x)[i] in c;
    var j :| 0 <= j < |c| && c[j] == SortedComponent(w, x)[i];
    k := ComponentOrigin(w, x, |w.refs|, j);
  }

  lemma {:induction false} GroupShared(w: Web, x: nat, y: nat)
    requires x < |w.refs| && y < |w.refs| && Together(w, x, y)
    ensures SortedComponent(w, x) == SortedComponent(w, y)
  {
    ComponentShared(w, x, y, |w.refs|);
  }

  // The groups after the first n records have been appended each to the group of its root.
  ghost predicate Grouped(w: Web, rep: seq<nat>, groups: map<nat, seq<Ref>>, n: nat)
    requires n <= |w.refs| && |rep| == |w.refs|
  {
    && (forall r | r in groups :: IsRoot(rep, r))
    && (forall k | 0 <= k < n :: rep[k] in groups)
    && (forall r {:trigger GroupIsComponent(w, groups, n, r)} | 0 <= r < |w.refs| && IsRoot(rep, r) ::
          GroupIsComponent(w, groups, n, r))
  }

  ghost predicate GroupIsComponent(w: Web, groups: map<nat, seq<Ref>>, n: nat, r: nat)
    requires r < |w.refs| && n <= |w.refs|
  {
    Component(w, r, n) == Appended(groups, r)
  }

  function Appended(groups: map<nat, seq<Ref>>, r: nat): seq<Ref> {
    if r in groups then groups[r] else []
  }

  function AppendTo(groups: map<nat, seq<Ref>>, root: nat, ref: Ref): (groups': map<nat, seq<Ref>>)
    ensures groups'.Keys == groups.Keys + {root}
    ensures forall r | r in groups' :: groups'[r] == if r == root then Appended(groups, root) + [ref] else groups[r]
  {
    groups[root := Appended(groups, root) + [ref]]
  }

  lemma {:induction false} ComponentStep(w: Web, rep: seq<nat>, groups: map<nat, seq<Ref>>, n: nat, r: nat)
    requires n < |w.refs| && Decides(w, rep) && IsRoot(rep, r)
    requires GroupIsComponent(w, groups, n, r)
    ensures GroupIsComponent(w, AppendTo(groups, rep[n], w.refs[n]), n + 1, r)
  {
    assert rep[r] == rep[n] <==> Together(w, r, n);
    assert Component(w, r, n + 1) == Component(w, r, n) + if r == rep[n] then [w.refs[n]] else [];
  }

  lemma {:induction false} GroupedStep(w: Web, rep: seq<nat>, groups: map<nat, seq<Ref>>, n: nat, root: nat)
    requires n < |w.refs| && Decides(w, rep) && Grouped(w, rep, groups, n) && root == rep[n]
    ensures Grouped(w, rep, AppendTo(groups, root, w.refs[n]), n + 1)
  {
    var groups' := AppendTo(groups, root, w.refs[n]);
    assert IsRoot(rep, rep[n]);
    forall r | 0 <= r < |w.refs| && IsRoot(rep, r) ensures GroupIsComponent(w, groups', n + 1, r) {
      assert GroupIsComponent(w, groups, n, r);
      ComponentStep(w, rep, groups, n, r);
    }
  }

  // One turn of the grouping loop.
  method GroupNext(ghost w: Web, refs: seq<Ref>, parent: array<nat>, ghost s: Shape, groups: map<nat, seq<Ref>>,
                   i: nat)
    returns (groups': map<nat, seq<Ref>>)
    requires refs == w.refs && parent.Length == |refs| && Forest(parent[..], s) && Decides(w, s.root)
    requires i < |refs| && Grouped(w, s.root, groups, i)
    modifies parent
    ensures Forest(parent[..], s) && Grouped(w, s.root, groups', i + 1)
  {
    var root := FindRoot(parent, s, i);
    GroupedStep(w, s.root, groups, i, root);
    groups' := AppendTo(groups, root, refs[i]);
  }

  method GroupByRoot(ghost w: Web, refs: seq<Ref>, parent: array<nat>, ghost s: Shape)
    returns (groups: map<nat, seq<Ref>>)
    requires refs == w.refs && parent.Length == |refs| && Forest(parent[..], s) && Decides(w, s.root)
    modifies parent
    ensures Grouped(w, s.root, groups, |w.refs|)
  {
    groups := map[];
    for i := 0 to |refs|
      invariant Forest(parent[..], s)
      invariant Grouped(w, s.root, groups, i)
    {
      groups := GroupNext(w, refs, parent, s, groups, i);
    }
  }

  // ---- Writing a group's ids into its records ----

  ghost predicate SameShape(runs: seq<RunOutcome>, updated: seq<RunOutcome>) {
    && |updated| == |runs|
    && forall r | 0 <= r < |runs| ::
         && |updated[r].findings| == |runs[r].findings|
         && updated[r] == runs[r].(findings := updated[r].findings)
  }

  // Run r holds finding v at place f.
  ghost predicate Holds(runs: seq<RunOutcome>, r: nat, f: nat, v: Finding) {
    r < |runs| && f < |runs[r].findings| && runs[r].findings[f] == v
  }

  ghost predicate InGroup(group: seq<Ref>, n: nat, r: nat, f: nat)
    requires n <= |group|
  {
    exists i | 0 <= i < n :: group[i].runIdx == r && group[i].findIdx == f
  }

  function SetCell(runs: seq<RunOutcome>, r: nat, f: nat, v: Finding): (updated: seq<RunOutcome>)
    requires r < |runs| && f < |runs[r].findings|
    ensures SameShape(runs, updated) && Holds(updated, r, f, v)
    ensures forall r', f', v' | Holds(runs, r', f', v') && (r' != r || f' != f) :: Holds(updated, r', f', v')
  {
    runs[r := runs[r].(findings := runs[r].findings[f := v])]
  }

  // The first n records of a group have been linked, and no other place has changed.
  ghost predicate LinkedSoFar(runs: seq<RunOutcome>, group: seq<Ref>, ids: seq<string>, updated: seq<RunOutcome>,
                              n: nat)
    requires n <= |group|
  {
    && (forall i | 0 <= i < n ::
          Holds(updated, group[i].runIdx, group[i].findIdx, LinkedRecord(group[i].finding, ids)))
    && (forall r, f, v | Holds(runs, r, f, v) && !InGroup(group, n, r, f) :: Holds(updated, r, f, v))
  }

  lemma {:induction false} LinkStep(runs: seq<RunOutcome>, group: seq<Ref>, ids: seq<string>,
                                    before: seq<RunOutcome>, n: nat)
    requires n < |group| && DistinctCells(group) && LinkedSoFar(runs, group, ids, before, n)
    requires Holds(before, group[n].runIdx, group[n].findIdx, group[n].finding)
    ensures LinkedSoFar(runs, group, ids,
      SetCell(before, group[n].runIdx, group[n].findIdx, LinkedRecord(group[n].finding, ids)), n + 1)
  {
    var after := SetCell(before, group[n].runIdx, group[n].findIdx, LinkedRecord(group[n].finding, ids));
    forall r, f, v | Holds(runs, r, f, v) && !InGroup(group, n + 1, r, f) ensures Holds(after, r, f, v) {
      assert !InGroup(group, n, r, f);
      assert Holds(before, r, f, v);
      assert r != group[n].runIdx || f != group[n].findIdx;
    }
    forall i | 0 <= i < n ensures Holds(after, group[i].runIdx, group[i].findIdx, LinkedRecord(group[i].finding, ids)) {
      assert !SameCell(group[i], group[n]);
    }
  }

  method LinkGroup(runs: seq<RunOutcome>, group: seq<Ref>, ids: seq<string>) returns (updated: seq<RunOutcome>)
    requires DistinctCells(group)
    requires forall i | 0 <= i < |group| :: Holds(runs, group[i].runIdx, group[i].findIdx, group[i].finding)
    ensures SameShape(runs, updated) && LinkedSoFar(runs, group, ids, updated, |group|)
  {
    updated := runs;
    for n := 0 to |group|
      invariant SameShape(runs, updated) && LinkedSoFar(runs, group, ids, updated, n)
    {
      var ref := group[n];
      assert !InGroup(group, n, ref.runIdx, ref.findIdx) by {
        assert forall i | 0 <= i < n :: !SameCell(group[i], ref);
      }
      assert Holds(runs, ref.runIdx, ref.findIdx, ref.finding);
      assert Holds(updated, ref.runIdx, ref.findIdx, ref.finding);
      var linked := LinkRecord(updated[ref.runIdx].findings[ref.findIdx], ids);
      LinkStep(runs, group, ids, updated, n);
      updated := SetCell(updated, ref.runIdx, ref.findIdx, linked);
    }
  }

  // The record of position k as the runs hold it afterwards.
  ghost function LinkedAt(w: Web, k: nat): Finding
    requires k < |w.refs|
  {
    LinkedRecord(w.refs[k].finding, GroupIDs(GroupOf(w, k)))
  }

  ghost predicate Represented(w: Web, roots: seq<nat>, k: nat)
    requires k < |w.refs| && forall i | 0 <= i < |roots| :: roots[i] < |w.refs|
  {
    exists i | 0 <= i < |roots| :: Together(w, roots[i], k)
  }

  // One position from each component.
  ghost predicate Representatives(w: Web, roots: seq<nat>) {
    && (forall i | 0 <= i < |roots| :: roots[i] < |w.refs|)
    && (forall i, j | 0 <= i < j < |roots| :: !Together(w, roots[i], roots[j]))
    && (forall k | 0 <= k < |w.refs| :: Represented(w, roots, k))
  }

  // f is what x's component merges into.
  ghost predicate IsMergedOf(w: Web, x: nat, f: Finding) {
    x < |w.refs| && f == Merged(GroupOf(w, x))
  }

  ghost predicate MergedInOrder(w: Web, roots: seq<nat>, list: seq<Finding>) {
    |list| == |roots| && forall i | 0 <= i < |roots| :: IsMergedOf(w, roots[i], list[i])
  }

  ghost function Expected(w: Web, rep: seq<nat>, todo: set<nat>, k: nat): Finding
    requires k < |w.refs| && |rep| == |w.refs|
  {
    if rep[k] in todo then w.refs[k].finding else LinkedAt(w, k)
  }

  ghost predicate WrittenAt(w: Web, rep: seq<nat>, updated: seq<RunOutcome>, todo: set<nat>, k: nat)
    requires k < |w.refs| && |rep| == |w.refs|
  {
    Holds(updated, w.refs[k].runIdx, w.refs[k].findIdx, Expected(w, rep, todo, k))
  }

  // Part way through the groups: records of the groups still to do hold what they held.
  ghost predicate Written(w: Web, rep: seq<nat>, updated: seq<RunOutcome>, todo: set<nat>) {
    |rep| == |w.refs| && forall k | 0 <= k < |w.refs| :: WrittenAt(w, rep, updated, todo, k)
  }

  lemma {:induction false} ComponentDistinct(w: Web, x: nat, n: nat)
    requires x < |w.refs| && n <= |w.refs| && DistinctCells(w.refs)
    ensures DistinctCells(Component(w, x, n))
    decreases n
  {
    if n > 0 {
      ComponentDistinct(w, x, n - 1);
      var before := Component(w, x, n - 1);
      forall i | 0 <= i < |before| ensures !SameCell(before[i], w.refs[n - 1]) {
        var k := ComponentOrigin(w, x, n - 1, i);
      }
    }
  }

  lemma {:induction false} SortedComponentDistinct(w: Web, x: nat)
    requires x < |w.refs| && DistinctCells(w.refs)
    ensures DistinctCells(SortedComponent(w, x))
  {
    var c, g := Component(w, x, |w.refs|), SortedComponent(w, x);
    ComponentDistinct(w, x, |w.refs|);
    var p := w.sort(Map(RefKey, c));
    assert Arranges(Map(RefKey, c), p);
    forall i, j | 0 <= i < j < |g| ensures !SameCell(g[i], g[j]) {
      assert p[i] != p[j] && g[i] == c[p[i]] && g[j] == c[p[j]];
    }
  }

  // What LinkGroup did to one root's component.
  ghost predicate LinkedOne(w: Web, before: seq<RunOutcome>, after: seq<RunOutcome>, root: nat)
    requires root < |w.refs|
  {
    LinkedSoFar(before, SortedComponent(w, root), GroupIDs(GroupOf(w, root)), after, |SortedComponent(w, root)|)
  }

  lemma {:induction false} OwnRecordLinked(w: Web, before: seq<RunOutcome>, after: seq<RunOutcome>, root: nat, k: nat)
    requires root < |w.refs| && LinkedOne(w, before, after, root) && k < |w.refs| && Together(w, root, k)
    ensures Holds(after, w.refs[k].runIdx, w.refs[k].findIdx, LinkedAt(w, k))
  {
    var g := SortedComponent(w, root);
    InSortedComponent(w, root, k);
    GroupShared(w, root, k);
    var i :| 0 <= i < |g| && g[i] == w.refs[k];
    assert Holds(after, g[i].runIdx, g[i].findIdx, LinkedRecord(g[i].finding, GroupIDs(GroupOf(w, root))));
  }

  lemma {:induction false} NotInOtherGroup(w: Web, root: nat, k: nat)
    requires root < |w.refs| && k < |w.refs| && !Together(w, root, k) && DistinctCells(w.refs)
    ensures var g := SortedComponent(w, root); !InGroup(g, |g|, w.refs[k].runIdx, w.refs[k].findIdx)
  {
    var g, ref := SortedComponent(w, root), w.refs[k];
    forall i | 0 <= i < |g| ensures g[i].runIdx != ref.runIdx || g[i].findIdx != ref.findIdx {
      var m := SortedComponentOrigin(w, root, i);
      assert m != k;
      assert !SameCell(w.refs[m], w.refs[k]);
    }
  }

  lemma {:induction false} OtherRecordKept(w: Web, before: seq<RunOutcome>, after: seq<RunOutcome>, root: nat,
                                           k: nat, v: Finding)
    requires root < |w.refs| && LinkedOne(w, before, after, root) && k < |w.refs| && !Together(w, root, k)
    requires Holds(before, w.refs[k].runIdx, w.refs[k].findIdx, v) && DistinctCells(w.refs)
    ensures Holds(after, w.refs[k].runIdx, w.refs[k].findIdx, v)
  {
    NotInOtherGroup(w, root, k);
  }

  lemma {:induction false} ExpectedStep(w: Web, rep: seq<nat>, todo: set<nat>, root: nat, k: nat)
    requires |rep| == |w.refs| && k < |w.refs|
    ensures Expected(w, rep, todo - {root}, k) == if rep[k] == root then LinkedAt(w, k) else Expected(w, rep, todo, k)
  {
  }

  lemma {:induction false} WrittenStep(w: Web, rep: seq<nat>, before: seq<RunOutcome>, after: seq<RunOutcome>,
                                       todo: set<nat>, root: nat)
    requires Decides(w, rep) && IsRoot(rep, root) && DistinctCells(w.refs)
    requires Written(w, rep, before, todo) && root in todo && LinkedOne(w, before, after, root)
    ensures Written(w, rep, after, todo - {root})
  {
    forall k | 0 <= k < |w.refs| ensures WrittenAt(w, rep, after, todo - {root}, k) {
      assert WrittenAt(w, rep, before, todo, k);
      assert rep[root] == rep[k] <==> Together(w, root, k);
      ExpectedStep(w, rep, todo, root, k);
      if rep[k] == root {
        OwnRecordLinked(w, before, after, root, k);
      } else {
        OtherRecordKept(w, before, after, root, k, Expected(w, rep, todo, k));
      }
    }
  }

  // A component not yet processed still holds its records.
  lemma {:induction false} GroupStillThere(w: Web, rep: seq<nat>, updated: seq<RunOutcome>, todo: set<nat>, root: nat)
    requires Decides(w, rep) && IsRoot(rep, root)
    requires Written(w, rep, updated, todo) && root in todo
    ensures var g := SortedComponent(w, root);
            forall i | 0 <= i < |g| :: Holds(updated, g[i].runIdx, g[i].findIdx, g[i].finding)
  {
    var g := SortedComponent(w, root);
    forall i | 0 <= i < |g| ensures Holds(updated, g[i].runIdx, g[i].findIdx, g[i].finding) {
      var k := SortedComponentOrigin(w, root, i);
      assert WrittenAt(w, rep, updated, todo, k);
    }
  }

  // The roots processed so far, where each stands in the list, and the groups that remain.
  ghost predicate Accounted(groups: map<nat, seq<Ref>>, roots: seq<nat>, place: map<nat, nat>, todo: set<nat>) {
    && groups.Keys == place.Keys + todo && place.Keys !! todo
    && (forall r | r in place :: place[r] < |roots| && roots[place[r]] == r)
    && (forall i | 0 <= i < |roots| :: roots[i] in place && place[roots[i]] == i)
  }

  lemma {:induction false} AccountedStep(groups: map<nat, seq<Ref>>, roots: seq<nat>, place: map<nat, nat>,
                                         todo: set<nat>, root: nat)
    requires Accounted(groups, roots, place, todo) && root in todo
    ensures Accounted(groups, roots + [root], place[root := |roots|], todo - {root})
  {
  }

  lemma {:induction false} RootsRepresent(w: Web, rep: seq<nat>, groups: map<nat, seq<Ref>>, roots: seq<nat>,
                                          place: map<nat, nat>)
    requires Decides(w, rep) && Grouped(w, rep, groups, |w.refs|) && Accounted(groups, roots, place, {})
    ensures Representatives(w, roots)
  {
    forall i | 0 <= i < |roots| ensures IsRoot(rep, roots[i]) {
      assert roots[i] in groups;
    }
    forall i, j | 0 <= i < j < |roots| ensures !Together(w, roots[i], roots[j]) {
      assert place[roots[i]] != place[roots[j]];
      assert rep[roots[i]] == rep[roots[j]] <==> Together(w, roots[i], roots[j]);
    }
    forall k | 0 <= k < |w.refs| ensures Represented(w, roots, k) {
      var i := place[rep[k]];
      assert rep[roots[i]] == rep[k] <==> Together(w, roots[i], k);
      assert IsRoot(rep, rep[k]);
    }
  }

  // One merged finding for each component, listed in some order and then sorted by id and tool.
  ghost predicate IsFindingList(w: Web, findings: seq<Finding>) {
    exists roots: seq<nat>, list: seq<Finding> ::
      Representatives(w, roots) && MergedInOrder(w, roots, list) && findings == SortBy(w.sort, FindingKey, list)
  }

  // Every record is linked to its component; nothing else about the runs changes.
  ghost predicate IsLinked(w: Web, runs: seq<RunOutcome>, updated: seq<RunOutcome>) {
    && SameShape(runs, updated)
    && forall k | 0 <= k < |w.refs| :: Holds(updated, w.refs[k].runIdx, w.refs[k].findIdx, LinkedAt(w, k))
  }

  // One turn of the loop over groups.
  method ProcessGroup(sort: Sorter, ghost w: Web, ghost rep: seq<nat>, component: seq<Ref>, runs: seq<RunOutcome>,
                      ghost todo: set<nat>, ghost root: nat)
    returns (correlated: Finding, updated: seq<RunOutcome>)
    requires Decides(w, rep) && DistinctCells(w.refs) && IsRoot(rep, root)
    requires sort == w.sort && component == Component(w, root, |w.refs|)
    requires Written(w, rep, runs, todo) && root in todo
    ensures IsMergedOf(w, root, correlated)
    ensures SameShape(runs, updated) && Written(w, rep, updated, todo - {root})
  {
    var group := SortBy(sort, RefKey, component);
    assert group == SortedComponent(w, root);
    var g := Map(FindingOf, group);
    SortedComponentDistinct(w, root);
    var ids, tools := CollectNames(g);
    GroupStillThere(w, rep, runs, todo, root);
    updated := LinkGroup(runs, group, ids);
    WrittenStep(w, rep, runs, updated, todo, root);
    correlated := MergeGroup(g, ids, tools);
  }

  // Where the loop over groups stands.
  ghost predicate Progress(w: Web, rep: seq<nat>, groups: map<nat, seq<Ref>>, updated: seq<RunOutcome>,
                           roots: seq<nat>, list: seq<Finding>, place: map<nat, nat>, todo: set<nat>) {
    Written(w, rep, updated, todo) && Accounted(groups, roots, place, todo) && MergedInOrder(w, roots, list)
  }

  lemma {:induction false} ProgressStep(w: Web, rep: seq<nat>, groups: map<nat, seq<Ref>>, before: seq<RunOutcome>,
                                        after: seq<RunOutcome>, roots: seq<nat>, list: seq<Finding>,
                                        place: map<nat, nat>, todo: set<nat>, root: nat, f: Finding)
    requires Progress(w, rep, groups, before, roots, list, place, todo) && root in todo && IsMergedOf(w, root, f)
    requires Written(w, rep, after, todo - {root})
    ensures Progress(w, rep, groups, after, roots + [root], list + [f], place[root := |roots|], todo - {root})
  {
    AccountedStep(groups, roots, place, todo, root);
    MergedStep(w, roots, list, root, f);
  }

  lemma {:induction false} MergedStep(w: Web, roots: seq<nat>, list: seq<Finding>, root: nat, f: Finding)
    requires MergedInOrder(w, roots, list) && IsMergedOf(w, root, f)
    ensures MergedInOrder(w, roots + [root], list + [f])
  {
    forall i | 0 <= i < |roots| + 1 ensures IsMergedOf(w, (roots + [root])[i], (list + [f])[i]) {
      if i < |roots| { assert IsMergedOf(w, roots[i], list[i]); }
    }
  }

  lemma {:induction false} TodoIsRoot(w: Web, rep: seq<nat>, groups: map<nat, seq<Ref>>, root: nat)
    requires |rep| == |w.refs| && Grouped(w, rep, groups, |w.refs|) && root in groups
    ensures IsRoot(rep, root) && groups[root] == Component(w, root, |w.refs|)
  {
    assert GroupIsComponent(w, groups, |w.refs|, root);
  }

  // The loop over groups, in whatever order the map yields them.
  method ProcessGroups(sort: Sorter, ghost w: Web, ghost rep: seq<nat>, groups: map<nat, seq<Ref>>,
                       runs: seq<RunOutcome>)
    returns (list: seq<Finding>, updated: seq<RunOutcome>, ghost roots: seq<nat>)
    requires Decides(w, rep) && DistinctCells(w.refs) && Grouped(w, rep, groups, |w.refs|)
    requires sort == w.sort && Written(w, rep, runs, groups.Keys)
    ensures SameShape(runs, updated) && Written(w, rep, updated, {})
    ensures Representatives(w, roots) && MergedInOrder(w, roots, list)
  {
    list, updated, roots := [], runs, [];
    ghost var place: map<nat, nat> := map[];
    var todo := groups.Keys;
    while todo != {}
      invariant SameShape(runs, updated) && Progress(w, rep, groups, updated, roots, list, place, todo)
      decreases todo
    {
      var root :| root in todo;
      TodoIsRoot(w, rep, groups, root);
      var correlated, linked := ProcessGroup(sort, w, rep, groups[root], updated, todo, root);
      ProgressStep(w, rep, groups, updated, linked, roots, list, place, todo, root, correlated);
      place := place[root := |roots|];
      list, updated, roots, todo := list + [correlated], linked, roots + [root], todo - {root};
    }
    RootsRepresent(w, rep, groups, roots, place);
  }

  lemma {:induction false} AllWritten(w: Web, runs: seq<RunOutcome>, rep: seq<nat>, updated: seq<RunOutcome>)
    requires SameShape(runs, updated) && Written(w, rep, updated, {})
    ensures IsLinked(w, runs, updated)
  {
    forall k | 0 <= k < |w.refs| ensures Holds(updated, w.refs[k].runIdx, w.refs[k].findIdx, LinkedAt(w, k)) {
      assert WrittenAt(w, rep, updated, {}, k);
    }
  }

  lemma {:induction false} NoneWritten(w: Web, runs: seq<RunOutcome>, rep: seq<nat>, todo: set<nat>)
    requires w.refs == AllRefs(runs) && |rep| == |w.refs| && forall k | 0 <= k < |w.refs| :: rep[k] in todo
    ensures Written(w, rep, runs, todo) && DistinctCells(w.refs)
  {
    RefsExact(runs, |runs|);
    forall k | 0 <= k < |w.refs| ensures WrittenAt(w, rep, runs, todo, k) {
      assert w.refs[k] in w.refs;
      assert IsRefOf(runs, w.refs[k]);
    }
  }
}
