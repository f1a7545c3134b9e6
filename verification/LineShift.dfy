// Moving every start and end line by one amount: nothing in the pipeline can tell, except that the
// lines it reports have moved by that amount.
module LineShift {
  import opened Text
  import opened Sorting
  import opened Evidence
  import opened Related
  import opened Deduplicate
  import M = Merge
  import opened Components
  import opened Correlate
  import opened Policy

  // ---- Moving lines ----

  // The value moves; what the pointer points to stays the same cell.
  function MovePtr(d: int, p: IntPtr): IntPtr {
    match p
    case Nil => Nil
    case At(addr, value) => At(addr, value + d)
  }

  function MoveLocation(d: int, l: Location): Location {
    l.(startLine := MovePtr(d, l.startLine), endLine := MovePtr(d, l.endLine))
  }

  function MoveLocations(d: int, ls: seq<Location>): (r: seq<Location>)
    ensures |r| == |ls| && forall i | 0 <= i < |ls| :: r[i] == MoveLocation(d, ls[i])
  {
    seq(|ls|, i requires 0 <= i < |ls| => MoveLocation(d, ls[i]))
  }

  function MoveFinding(d: int, f: Finding): Finding {
    f.(locations := MoveLocations(d, f.locations))
  }

  function MoveFindings(d: int, fs: seq<Finding>): (r: seq<Finding>)
    ensures |r| == |fs| && forall i | 0 <= i < |fs| :: r[i] == MoveFinding(d, fs[i])
  {
    seq(|fs|, i requires 0 <= i < |fs| => MoveFinding(d, fs[i]))
  }

  function MoveRun(d: int, r: RunOutcome): RunOutcome {
    r.(findings := MoveFindings(d, r.findings))
  }

  function MoveRuns(d: int, runs: seq<RunOutcome>): (r: seq<RunOutcome>)
    ensures |r| == |runs| && forall i | 0 <= i < |runs| :: r[i] == MoveRun(d, runs[i])
  {
    seq(|runs|, i requires 0 <= i < |runs| => MoveRun(d, runs[i]))
  }

  // ---- Relatedness ----

  lemma {:induction false} PlacesMoved(d: int, a: Location, b: Location)
    ensures SamePlace(MoveLocation(d, a), MoveLocation(d, b)) == SamePlace(a, b)
  {
  }

  lemma {:induction false} OverlapMoved(d: int, f: Finding, g: Finding)
    ensures LinesOverlap(MoveFinding(d, f), MoveFinding(d, g)) == LinesOverlap(f, g)
  {
  }

  lemma {:induction false} PathMoved(env: Env, d: int, f: Finding)
    ensures PrimaryPath(env, MoveFinding(d, f)) == PrimaryPath(env, f)
    ensures SnippetText(MoveFinding(d, f)) == SnippetText(f)
  {
  }

  lemma {:induction false} RelatedMoved(env: Env, d: int, f: Finding, g: Finding)
    ensures AreFindingsRelated(env, MoveFinding(d, f), MoveFinding(d, g)) == AreFindingsRelated(env, f, g)
  {
    var f', g' := MoveFinding(d, f), MoveFinding(d, g);
    OverlapMoved(d, f, g);
    PathMoved(env, d, f);
    PathMoved(env, d, g);
    assert CodeEvidence(env, f', g') == CodeEvidence(env, f, g);
    assert DependencyEvidence(env, f', g') == DependencyEvidence(env, f, g);
  }

  // ---- Deduplicate ----

  lemma {:induction false} HasPlaceMoved(d: int, ls: seq<Location>, l: Location)
    ensures HasPlace(MoveLocations(d, ls), MoveLocation(d, l)) == HasPlace(ls, l)
  {
    var ls' := MoveLocations(d, ls);
    if HasPlace(ls, l) {
      var m :| m in ls && SamePlace(m, l);
      var i :| 0 <= i < |ls| && ls[i] == m;
      PlacesMoved(d, m, l);
      assert ls'[i] in ls';
    }
    if HasPlace(ls', MoveLocation(d, l)) {
      var m' :| m' in ls' && SamePlace(m', MoveLocation(d, l));
      var i :| 0 <= i < |ls'| && ls'[i] == m';
      PlacesMoved(d, ls[i], l);
      assert ls[i] in ls;
    }
  }

  lemma {:induction false} MergeLocationsMoved(d: int, into: seq<Location>, from: seq<Location>)
    ensures MergeLocations(MoveLocations(d, into), MoveLocations(d, from)) == MoveLocations(d, MergeLocations(into, from))
    decreases |from|
  {
    if from != [] {
      var next := if HasPlace(into, from[0]) then into else into + [from[0]];
      HasPlaceMoved(d, into, from[0]);
      assert MoveLocations(d, into + [from[0]]) == MoveLocations(d, into) + [MoveLocation(d, from[0])];
      assert MoveLocations(d, from)[1..] == MoveLocations(d, from[1..]);
      MergeLocationsMoved(d, next, from[1..]);
    }
  }

  lemma {:induction false} AbsorbMoved(d: int, f: Finding, g: Finding)
    ensures Absorb(MoveFinding(d, f), MoveFinding(d, g)) == MoveFinding(d, Absorb(f, g))
  {
    MergeLocationsMoved(d, f.locations, g.locations);
  }

  function MoveItems(d: int, items: seq<Item>): (r: seq<Item>)
    ensures |r| == |items| && forall i | 0 <= i < |items| :: r[i] == Item(items[i].index, MoveFinding(d, items[i].finding))
  {
    seq(|items|, i requires 0 <= i < |items| => Item(items[i].index, MoveFinding(d, items[i].finding)))
  }

  lemma {:induction false} MoveItemsCons(d: int, h: Item, t: seq<Item>)
    ensures MoveItems(d, [h] + t) == [Item(h.index, MoveFinding(d, h.finding))] + MoveItems(d, t)
  {
  }

  function MoveSwept(d: int, s: Swept): Swept {
    Swept(MoveFinding(d, s.primary), s.ids, MoveItems(d, s.absorbed), MoveItems(d, s.kept))
  }

  lemma {:induction false} SweepMoved(env: Env, d: int, primary: Finding, rest: seq<Item>)
    ensures Sweep(env, MoveFinding(d, primary), MoveItems(d, rest)) == MoveSwept(d, Sweep(env, primary, rest))
    decreases |rest|
  {
    if rest != [] {
      var dup := rest[0].finding;
      RelatedMoved(env, d, primary, dup);
      assert MoveItems(d, rest)[1..] == MoveItems(d, rest[1..]);
      if AreFindingsRelated(env, primary, dup) {
        AbsorbMoved(d, primary, dup);
        SweepMoved(env, d, Absorb(primary, dup), rest[1..]);
        MoveItemsCons(d, rest[0], Sweep(env, Absorb(primary, dup), rest[1..]).absorbed);
      } else {
        SweepMoved(env, d, primary, rest[1..]);
        MoveItemsCons(d, rest[0], Sweep(env, primary, rest[1..]).kept);
      }
    }
  }

  lemma {:induction false} FinishMoved(d: int, f: Finding, ids: seq<string>)
    ensures Finish(MoveFinding(d, f), ids) == MoveFinding(d, Finish(f, ids))
  {
  }

  function MoveCluster(d: int, c: Cluster): Cluster {
    Cluster(Item(c.head.index, MoveFinding(d, c.head.finding)), MoveItems(d, c.absorbed), MoveFinding(d, c.merged))
  }

  lemma {:induction false} FirstClusterMoved(env: Env, d: int, items: seq<Item>)
    requires items != []
    ensures FirstCluster(env, MoveItems(d, items)) == MoveCluster(d, FirstCluster(env, items))
    ensures Leftover(env, MoveItems(d, items)) == MoveItems(d, Leftover(env, items))
  {
    assert MoveItems(d, items)[1..] == MoveItems(d, items[1..]);
    SweepMoved(env, d, items[0].finding, items[1..]);
    var s := Sweep(env, items[0].finding, items[1..]);
    FinishMoved(d, s.primary, s.ids);
  }

  lemma {:induction false} ClustersMoved(env: Env, d: int, items: seq<Item>)
    ensures Map(Merged, Clusters(env, MoveItems(d, items))) == MoveFindings(d, Map(Merged, Clusters(env, items)))
    decreases |items|
  {
    if items != [] {
      FirstClusterMoved(env, d, items);
      ClustersMoved(env, d, Leftover(env, items));
      ClustersStep(env, items);
      ClustersStep(env, MoveItems(d, items));
    }
  }

  lemma {:induction false} DeduplicatedMoved(env: Env, d: int, fs: seq<Finding>)
    ensures Deduplicated(env, MoveFindings(d, fs)) == MoveFindings(d, Deduplicated(env, fs))
  {
    assert Enumerate(MoveFindings(d, fs)) == MoveItems(d, Enumerate(fs));
    ClustersMoved(env, d, Enumerate(fs));
  }

  // ---- Merging ----

  lemma {:induction false} CollectMoved(d: int, of: Finding -> seq<string>, g: seq<Finding>, n: nat)
    requires n <= |g| && forall f | f in g :: of(MoveFinding(d, f)) == of(f)
    ensures M.Collect(of, MoveFindings(d, g), n) == M.Collect(of, g, n)
    decreases n
  {
    if n > 0 { CollectMoved(d, of, g, n - 1); }
  }

  lemma {:induction false} SeverityMoved(d: int, g: seq<Finding>, n: nat)
    requires g != [] && n <= |g|
    ensures M.HighestSeverity(MoveFindings(d, g), n) == M.HighestSeverity(g, n)
    decreases n
  {
    if n > 0 { SeverityMoved(d, g, n - 1); }
  }

  lemma {:induction false} ConfidenceMoved(d: int, g: seq<Finding>, n: nat)
    requires g != [] && n <= |g|
    ensures M.HighestConfidence(MoveFindings(d, g), n) == M.HighestConfidence(g, n)
    decreases n
  {
    if n > 0 { ConfidenceMoved(d, g, n - 1); }
  }

  lemma {:induction false} TextsMoved(d: int, g: seq<Finding>, n: nat)
    requires g != [] && n <= |g|
    ensures M.FirstDocumentation(MoveFindings(d, g), n) == M.FirstDocumentation(g, n)
    ensures M.DetailParts(MoveFindings(d, g), n) == M.DetailParts(g, n)
    decreases n
  {
    if n > 0 {
      TextsMoved(d, g, n - 1);
      assert M.DetailPart(MoveFinding(d, g[n - 1])) == M.DetailPart(g[n - 1]);
    }
  }

  lemma {:induction false} CollectLocationsMoved(d: int, g: seq<Finding>, n: nat)
    requires g != [] && n <= |g|
    ensures M.CollectLocations(MoveFindings(d, g), n) == MoveLocations(d, M.CollectLocations(g, n))
    decreases n
  {
    if n > 0 {
      CollectLocationsMoved(d, g, n - 1);
      var before, from := M.CollectLocations(g, n - 1), g[n - 1].locations;
      MergeLocationsMoved(d, before, from);
      assert M.CollectLocations(MoveFindings(d, g), n) == MergeLocations(MoveLocations(d, before), MoveLocations(d, from));
    }
  }

  lemma {:induction false} GroupNamesMoved(d: int, g: seq<Finding>)
    ensures M.GroupIDs(MoveFindings(d, g)) == M.GroupIDs(g) && M.GroupTools(MoveFindings(d, g)) == M.GroupTools(g)
  {
    CollectMoved(d, M.RecordIDs, g, |g|);
    CollectMoved(d, M.ToolNames, g, |g|);
  }

  lemma {:induction false} MergedMoved(d: int, g: seq<Finding>)
    requires g != []
    ensures M.Merged(MoveFindings(d, g)) == MoveFinding(d, M.Merged(g))
  {
    GroupNamesMoved(d, g);
    SeverityMoved(d, g, |g|);
    ConfidenceMoved(d, g, |g|);
    TextsMoved(d, g, |g|);
    CollectLocationsMoved(d, g, |g|);
  }

  lemma {:induction false} LinkedRecordMoved(d: int, f: Finding, ids: seq<string>)
    ensures M.LinkedRecord(MoveFinding(d, f), ids) == MoveFinding(d, M.LinkedRecord(f, ids))
  {
  }

  // ---- Records and components ----

  function MoveRef(d: int, ref: Ref): Ref { ref.(finding := MoveFinding(d, ref.finding)) }

  function MoveRefs(d: int, refs: seq<Ref>): (r: seq<Ref>)
    ensures |r| == |refs| && forall i | 0 <= i < |refs| :: r[i] == MoveRef(d, refs[i])
  {
    seq(|refs|, i requires 0 <= i < |refs| => MoveRef(d, refs[i]))
  }

  lemma {:induction false} RefsMoved(d: int, runs: seq<RunOutcome>, n: nat)
    requires n <= |runs|
    ensures RefsOfRuns(MoveRuns(d, runs), n) == MoveRefs(d, RefsOfRuns(runs, n))
    decreases n
  {
    if n > 0 {
      RefsMoved(d, runs, n - 1);
      var fs := runs[n - 1].findings;
      assert MoveRuns(d, runs)[n - 1].findings == MoveFindings(d, fs);
      assert RefsOfRun(n - 1, MoveFindings(d, fs), |fs|) == MoveRefs(d, RefsOfRun(n - 1, fs, |fs|));
    }
  }

  lemma {:induction false} EdgesMoved(env: Env, d: int, refs: seq<Ref>)
    ensures Edges(env, MoveRefs(d, refs)) == Edges(env, refs)
  {
    var refs' := MoveRefs(d, refs);
    forall i, j | 0 <= i < |refs| && 0 <= j < |refs|
      ensures AreFindingsRelated(env, refs'[i].finding, refs'[j].finding)
           == AreFindingsRelated(env, refs[i].finding, refs[j].finding)
    {
      RelatedMoved(env, d, refs[i].finding, refs[j].finding);
    }
  }

  ghost function MoveWeb(d: int, w: Web): Web {
    Web(MoveRefs(d, w.refs), w.tag, w.sort)
  }

  lemma {:induction false} WebMoved(env: Env, d: int, refs: seq<Ref>)
    ensures WebOf(env, MoveRefs(d, refs)) == MoveWeb(d, WebOf(env, refs))
  {
    EdgesMoved(env, d, refs);
  }

  lemma {:induction false} ComponentMoved(d: int, w: Web, x: nat, n: nat)
    requires x < |w.refs| && n <= |w.refs|
    ensures Component(MoveWeb(d, w), x, n) == MoveRefs(d, Component(w, x, n))
    decreases n
  {
    if n > 0 {
      ComponentMoved(d, w, x, n - 1);
      assert Together(MoveWeb(d, w), x, n - 1) == Together(w, x, n - 1);
    }
  }

  lemma {:induction false} GroupMoved(d: int, w: Web, x: nat)
    requires x < |w.refs|
    ensures GroupOf(MoveWeb(d, w), x) == MoveFindings(d, GroupOf(w, x))
  {
    ComponentMoved(d, w, x, |w.refs|);
    var c, move := Component(w, x, |w.refs|), (ref: Ref) => MoveRef(d, ref);
    assert MoveRefs(d, c) == Map(move, c);
    SortByCommutes(w.sort, RefKey, RefKey, move, c);
    assert SortedComponent(MoveWeb(d, w), x) == Map(move, SortedComponent(w, x));
  }

  lemma {:induction false} MergedOfMoved(d: int, w: Web, x: nat, f: Finding)
    requires IsMergedOf(w, x, f)
    ensures IsMergedOf(MoveWeb(d, w), x, MoveFinding(d, f))
  {
    GroupMoved(d, w, x);
    MergedMoved(d, GroupOf(w, x));
  }

  lemma {:induction false} LinkedAtMoved(d: int, w: Web, k: nat)
    requires k < |w.refs|
    ensures LinkedAt(MoveWeb(d, w), k) == MoveFinding(d, LinkedAt(w, k))
  {
    GroupMoved(d, w, k);
    GroupNamesMoved(d, GroupOf(w, k));
    LinkedRecordMoved(d, w.refs[k].finding, M.GroupIDs(GroupOf(w, k)));
  }

  // ---- CorrelateRuns ----

  lemma {:induction false} RepresentativesMoved(d: int, w: Web, roots: seq<nat>)
    requires Representatives(w, roots)
    ensures Representatives(MoveWeb(d, w), roots)
  {
    forall k | 0 <= k < |w.refs| ensures Represented(MoveWeb(d, w), roots, k) {
      assert Represented(w, roots, k);
      var i :| 0 <= i < |roots| && Together(w, roots[i], k);
      assert Together(MoveWeb(d, w), roots[i], k);
    }
    forall i, j | 0 <= i < j < |roots| ensures !Together(MoveWeb(d, w), roots[i], roots[j]) {
      assert !Together(w, roots[i], roots[j]);
    }
  }

  lemma {:induction false} FindingListMoved(d: int, w: Web, findings: seq<Finding>)
    requires IsFindingList(w, findings)
    ensures IsFindingList(MoveWeb(d, w), MoveFindings(d, findings))
  {
    var roots: seq<nat>, list: seq<Finding> :|
      Representatives(w, roots) && MergedInOrder(w, roots, list) && findings == SortBy(w.sort, FindingKey, list);
    RepresentativesMoved(d, w, roots);
    forall i | 0 <= i < |roots| ensures IsMergedOf(MoveWeb(d, w), roots[i], MoveFindings(d, list)[i]) {
      assert IsMergedOf(w, roots[i], list[i]);
      MergedOfMoved(d, w, roots[i], list[i]);
    }
    var move := (f: Finding) => MoveFinding(d, f);
    assert MoveFindings(d, list) == Map(move, list);
    assert MoveFindings(d, findings) == Map(move, findings);
    SortByCommutes(w.sort, FindingKey, FindingKey, move, list);
    assert MergedInOrder(MoveWeb(d, w), roots, MoveFindings(d, list));
  }

  lemma {:induction false} LinkedMoved(d: int, w: Web, runs: seq<RunOutcome>, updated: seq<RunOutcome>)
    requires IsLinked(w, runs, updated)
    ensures IsLinked(MoveWeb(d, w), MoveRuns(d, runs), MoveRuns(d, updated))
  {
    var w', updated' := MoveWeb(d, w), MoveRuns(d, updated);
    forall k | 0 <= k < |w.refs| ensures Holds(updated', w'.refs[k].runIdx, w'.refs[k].findIdx, LinkedAt(w', k)) {
      assert Holds(updated, w.refs[k].runIdx, w.refs[k].findIdx, LinkedAt(w, k));
      LinkedAtMoved(d, w, k);
    }
  }

  lemma {:induction false} DeduplicatedRunsMoved(env: Env, d: int, runs: seq<RunOutcome>)
    ensures DeduplicatedRuns(env, MoveRuns(d, runs)) == MoveRuns(d, DeduplicatedRuns(env, runs))
  {
    forall i | 0 <= i < |runs|
      ensures DeduplicatedRuns(env, MoveRuns(d, runs))[i] == MoveRuns(d, DeduplicatedRuns(env, runs))[i]
    {
      DeduplicatedMoved(env, d, runs[i].findings);
    }
  }

  // Correlating moved runs gives what correlating the runs gave, moved. Moving back is moving by -d,
  // so every correlation of the moved runs arises so.
  lemma {:induction false} CorrelationMoved(env: Env, d: int, runs: seq<RunOutcome>, findings: seq<Finding>,
                                            updated: seq<RunOutcome>)
    requires IsCorrelation(env, runs, findings, updated)
    ensures IsCorrelation(env, MoveRuns(d, runs), MoveFindings(d, findings), MoveRuns(d, updated))
  {
    var deduped := DeduplicatedRuns(env, runs);
    DeduplicatedRunsMoved(env, d, runs);
    RefsMoved(d, deduped, |deduped|);
    WebMoved(env, d, AllRefs(deduped));
    FindingListMoved(d, WebOfRuns(env, runs), findings);
    LinkedMoved(d, WebOfRuns(env, runs), deduped, updated);
  }

  // ---- Evaluate ----

  lemma {:induction false} OrderedRunsMoved(sort: Sorter, d: int, rep: ReportValue)
    ensures OrderedRuns(sort, rep.(runs := MoveRuns(d, rep.runs))) == MoveRuns(d, OrderedRuns(sort, rep))
  {
    var move := (r: RunOutcome) => MoveRun(d, r);
    assert MoveRuns(d, rep.runs) == Map(move, rep.runs);
    SortByCommutes(sort, RunKey, RunKey, move, rep.runs);
  }

  lemma {:induction false} RunChecksMoved(d: int, runs: seq<RunOutcome>, n: nat)
    requires n <= |runs|
    ensures RunChecks(MoveRuns(d, runs), n) == RunChecks(runs, n)
    decreases n
  {
    if n > 0 { RunChecksMoved(d, runs, n - 1); }
  }

  lemma {:induction false} LastRunMoved(d: int, runs: seq<RunOutcome>, n: nat, tool: string)
    requires n <= |runs|
    ensures StandingOf(LastRun(MoveRuns(d, runs), n, tool)) == StandingOf(LastRun(runs, n, tool))
    decreases n
  {
    if n > 0 { LastRunMoved(d, runs, n - 1, tool); }
  }

  lemma {:induction false} StandingsMoved(d: int, runs: seq<RunOutcome>, names: seq<string>, n: nat, s: Standing)
    requires n <= |names|
    ensures Standings(MoveRuns(d, runs), names, n, s) == Standings(runs, names, n, s)
    decreases n
  {
    if n > 0 {
      StandingsMoved(d, runs, names, n - 1, s);
      LastRunMoved(d, runs, |runs|, names[n - 1]);
    }
  }

  lemma {:induction false} FirstOfEachIDMoved(d: int, fs: seq<Finding>, n: nat)
    requires n <= |fs|
    ensures FirstOfEachID(MoveFindings(d, fs), n) == MoveFindings(d, FirstOfEachID(fs, n))
    decreases n
  {
    if n > 0 {
      FirstOfEachIDMoved(d, fs, n - 1);
      HasIDMoved(d, FirstOfEachID(fs, n - 1), fs[n - 1].id);
    }
  }

  lemma {:induction false} HasIDMoved(d: int, fs: seq<Finding>, id: string)
    ensures HasID(MoveFindings(d, fs), id) == HasID(fs, id)
  {
    var fs' := MoveFindings(d, fs);
    if f :| f in fs && f.id == id {
      var i :| 0 <= i < |fs| && fs[i] == f;
      assert fs'[i] in fs' && fs'[i].id == id;
    }
    if f' :| f' in fs' && f'.id == id {
      var i :| 0 <= i < |fs'| && fs'[i] == f';
      assert fs[i] in fs && fs[i].id == id;
    }
  }

  lemma {:induction false} FindingsOfRunsMoved(d: int, runs: seq<RunOutcome>, n: nat)
    requires n <= |runs|
    ensures FindingsOfRuns(MoveRuns(d, runs), n) == MoveFindings(d, FindingsOfRuns(runs, n))
    decreases n
  {
    if n > 0 { FindingsOfRunsMoved(d, runs, n - 1); }
  }

  function MoveReport(d: int, rep: ReportValue): ReportValue {
    rep.(runs := MoveRuns(d, rep.runs), findings := MoveFindings(d, rep.findings))
  }

  lemma {:induction false} OrderedFindingsMoved(sort: Sorter, d: int, rep: ReportValue)
    ensures OrderedFindings(sort, MoveReport(d, rep)) == MoveFindings(d, OrderedFindings(sort, rep))
  {
    var runs := OrderedRuns(sort, rep);
    OrderedRunsMoved(sort, d, rep);
    assert OrderedRuns(sort, MoveReport(d, rep)) == MoveRuns(d, runs);
    FindingsOfRunsMoved(d, runs, |runs|);
    var fs := if rep.findings != [] then rep.findings else FindingsOfRuns(runs, |runs|);
    FirstOfEachIDMoved(d, fs, |fs|);
    var move, all := (f: Finding) => MoveFinding(d, f), AllFindings(runs, rep);
    assert AllFindings(MoveRuns(d, runs), MoveReport(d, rep)) == MoveFindings(d, all);
    assert MoveFindings(d, all) == Map(move, all);
    SortByCommutes(sort, IDKey, IDKey, move, all);
  }

  lemma {:induction false} JudgedMoved(cfg: Config, refTime: string, d: int, fs: seq<Finding>, n: nat)
    requires n <= |fs|
    ensures BlockingIDs(cfg, refTime, MoveFindings(d, fs), n) == BlockingIDs(cfg, refTime, fs, n)
    ensures ResidualItems(cfg, refTime, MoveFindings(d, fs), n) == ResidualItems(cfg, refTime, fs, n)
    decreases n
  {
    if n > 0 {
      JudgedMoved(cfg, refTime, d, fs, n - 1);
      DisposeMoved(cfg, refTime, d, fs[n - 1]);
    }
  }

  lemma {:induction false} DisposeMoved(cfg: Config, refTime: string, d: int, f: Finding)
    ensures Dispose(cfg, refTime, MoveFinding(d, f)) == Dispose(cfg, refTime, f)
  {
  }

  lemma {:induction false} ShortfallMoved(sort: Sorter, cfg: Config, d: int, rep: ReportValue)
    ensures Shortfall(sort, cfg, MoveReport(d, rep)) == Shortfall(sort, cfg, rep)
    ensures Uncovered(sort, MoveReport(d, rep)) == Uncovered(sort, rep)
  {
    var runs, names, moved := OrderedRuns(sort, rep), SortStrings(cfg.required), MoveReport(d, rep);
    OrderedRunsMoved(sort, d, rep);
    assert OrderedRuns(sort, moved) == MoveRuns(d, runs);
    RunChecksMoved(d, runs, |runs|);
    StandingsMoved(d, runs, names, |names|, NeverRan);
    StandingsMoved(d, runs, names, |names|, NotAvailable);
    StandingsMoved(d, runs, names, |names|, Failed);
    assert Uncovered(sort, moved) == Uncovered(sort, rep);
    assert UnavailableNames(sort, cfg, moved) == UnavailableNames(sort, cfg, rep);
  }

  // Moving every line leaves the verdict as it was, whole.
  lemma {:induction false} VerdictMoved(sort: Sorter, cfg: Config, d: int, rep: ReportValue)
    ensures VerdictOf(sort, cfg, MoveReport(d, rep)) == VerdictOf(sort, cfg, rep)
  {
    var fs, moved := OrderedFindings(sort, rep), MoveReport(d, rep);
    ShortfallMoved(sort, cfg, d, rep);
    OrderedFindingsMoved(sort, d, rep);
    JudgedMoved(cfg, RefTime(rep), d, fs, |fs|);
    assert Blocking(sort, cfg, moved) == Blocking(sort, cfg, rep);
    assert Residual(sort, cfg, moved) == Residual(sort, cfg, rep);
  }
}
