// From a finding id back to the tools and the records it stands for.
module Traceability {
  import opened Text
  import opened Sorting
  import opened Evidence
  import opened Merge
  import opened Components
  import opened Policy

  // The names a comma-separated tool field holds.
  function PartsOf(tool: string): seq<string> { TrimmedParts(SplitComma(tool), |SplitComma(tool)|) }

  predicate Mentions(f: Finding, id: string) {
    f.id == id || id in f.duplicates || id in f.related
  }

  // ---- ToolsForFinding ----

  ghost predicate FindingNames(f: Finding, id: string, t: string) {
    Mentions(f, id) &&
    (t in PartsOf(f.tool) || (f.reviewerIdentity != "" && f.reviewer == ReviewerTool && t in PartsOf(f.reviewerIdentity)))
  }

  ghost predicate RecordNames(run: RunOutcome, f: Finding, id: string, t: string) {
    Mentions(f, id) && ((run.tool != "" && t in PartsOf(run.tool)) || t in PartsOf(f.tool))
  }

  ghost predicate NamedByRun(run: RunOutcome, n: nat, id: string, t: string)
    requires n <= |run.findings|
  {
    exists j | 0 <= j < n :: RecordNames(run, run.findings[j], id, t)
  }

  ghost predicate NamedByRuns(runs: seq<RunOutcome>, n: nat, id: string, t: string)
    requires n <= |runs|
  {
    exists i | 0 <= i < n :: NamedByRun(runs[i], |runs[i].findings|, id, t)
  }

  ghost predicate NamedByFindings(fs: seq<Finding>, n: nat, id: string, t: string)
    requires n <= |fs|
  {
    exists i | 0 <= i < n :: FindingNames(fs[i], id, t)
  }

  lemma {:induction false} PartsNonEmpty(parts: seq<string>, n: nat)
    requires n <= |parts|
    ensures "" !in TrimmedParts(parts, n)
    decreases n
  {
    if n > 0 { PartsNonEmpty(parts, n - 1); }
  }

  // The addTool closure.
  method AddTool(tools: seq<string>, tool: string) returns (r: seq<string>)
    requires DistinctStrings(tools)
    ensures DistinctStrings(r) && forall t :: t in r <==> t in tools || t in PartsOf(tool)
  {
    r := tools;
    var parts := SplitComma(tool);
    for k := 0 to |parts|
      invariant DistinctStrings(r) && forall t :: t in r <==> t in tools || t in TrimmedParts(parts, k)
    {
      var t := TrimSpace(parts[k]);
      if t != "" && t !in r {
        r := r + [t];
      }
    }
  }

  // One correlated finding's tool, and the tool that stands behind it if it is credited to one.
  method AddFromFinding(acc: seq<string>, f: Finding, id: string) returns (tools: seq<string>)
    requires DistinctStrings(acc)
    ensures DistinctStrings(tools) && forall t :: t in tools <==> t in acc || FindingNames(f, id, t)
  {
    tools := acc;
    if f.id == id || id in f.duplicates || id in f.related {
      tools := AddTool(tools, f.tool);
      if f.reviewerIdentity != "" && f.reviewer == ReviewerTool {
        tools := AddTool(tools, f.reviewerIdentity);
      }
    }
  }

  method AddFromFindings(fs: seq<Finding>, id: string) returns (tools: seq<string>)
    ensures DistinctStrings(tools) && forall t :: t in tools <==> NamedByFindings(fs, |fs|, id, t)
  {
    tools := [];
    for i := 0 to |fs|
      invariant DistinctStrings(tools) && forall t :: t in tools <==> NamedByFindings(fs, i, id, t)
    {
      tools := AddFromFinding(tools, fs[i], id);
    }
  }

  method AddFromRun(acc: seq<string>, run: RunOutcome, id: string) returns (tools: seq<string>)
    requires DistinctStrings(acc)
    ensures DistinctStrings(tools) && forall t :: t in tools <==> t in acc || NamedByRun(run, |run.findings|, id, t)
  {
    tools := acc;
    for j := 0 to |run.findings|
      invariant DistinctStrings(tools) && forall t :: t in tools <==> t in acc || NamedByRun(run, j, id, t)
    {
      var f := run.findings[j];
      ghost var before := tools;
      if f.id == id || id in f.duplicates || id in f.related {
        if run.tool != "" {
          tools := AddTool(tools, run.tool);
        }
        tools := AddTool(tools, f.tool);
      }
      assert forall t :: t in tools <==> t in before || RecordNames(run, f, id, t);
    }
  }

  method ToolsForFinding(rep: ReportValue, id: string) returns (tools: seq<string>)
    ensures Ascending(tools)
    ensures forall t :: t in tools <==>
      NamedByFindings(rep.findings, |rep.findings|, id, t) || NamedByRuns(rep.runs, |rep.runs|, id, t)
  {
    tools := AddFromFindings(rep.findings, id);
    for i := 0 to |rep.runs|
      invariant DistinctStrings(tools)
      invariant forall t :: t in tools <==>
        NamedByFindings(rep.findings, |rep.findings|, id, t) || NamedByRuns(rep.runs, i, id, t)
    {
      tools := AddFromRun(tools, rep.runs[i], id);
    }
    SortedDistinctAscends(tools);
    tools := SortStrings(tools);
  }

  // ---- SourceRecordsForFinding ----

  // What tells records apart: tool, id and raw index, joined by colons.
  function RecordKey(f: Finding): string { f.tool + ":" + f.id + ":" + Itoa(f.rawIndex) }

  function KeyOfRecord(f: Finding): Key { (RecordKey(f), "") }

  function ToolAndID(f: Finding): Key { (f.tool, f.id) }

  // The ids that a finding of this id gathers.
  ghost function Targets(fs: seq<Finding>, n: nat, id: string): set<string>
    requires n <= |fs|
  {
    if n == 0 then {id}
    else
      Targets(fs, n - 1, id) +
      if fs[n - 1].id == id then SetOf(fs[n - 1].duplicates) + SetOf(fs[n - 1].related) else {}
  }

  predicate Matches(f: Finding, targets: set<string>) {
    f.id in targets || (exists s | s in f.duplicates :: s in targets) || (exists s | s in f.related :: s in targets)
  }

  ghost predicate HasKey(records: seq<Finding>, key: string) {
    exists r | r in records :: RecordKey(r) == key
  }

  // What the records gathered so far are: matching records, one of each key.
  ghost predicate GatheredFrom(records: seq<Finding>, fs: seq<Finding>, targets: set<string>) {
    && (forall r | r in records :: r in fs && Matches(r, targets))
    && (forall f | f in fs && Matches(f, targets) :: HasKey(records, RecordKey(f)))
    && (forall i, j | 0 <= i < j < |records| :: RecordKey(records[i]) != RecordKey(records[j]))
    && (forall r | r in records :: FirstOfKey(fs, targets, r))
  }

  // r is the first of the matching records with its key.
  ghost predicate FirstOfKey(fs: seq<Finding>, targets: set<string>, r: Finding) {
    exists i | 0 <= i < |fs| :: fs[i] == r && NoneBefore(fs, targets, i)
  }

  ghost predicate NoneBefore(fs: seq<Finding>, targets: set<string>, i: nat)
    requires i < |fs|
  {
    forall j | 0 <= j < i && Matches(fs[j], targets) :: RecordKey(fs[j]) != RecordKey(fs[i])
  }

  lemma {:induction false} FirstOfKeyStays(fs: seq<Finding>, targets: set<string>, r: Finding, f: Finding)
    requires FirstOfKey(fs, targets, r)
    ensures FirstOfKey(fs + [f], targets, r)
  {
    var i :| 0 <= i < |fs| && fs[i] == r && NoneBefore(fs, targets, i);
    assert (fs + [f])[i] == r && NoneBefore(fs + [f], targets, i);
  }

  lemma {:induction false} FirstOfKeyAdded(records: seq<Finding>, fs: seq<Finding>, targets: set<string>, f: Finding)
    requires forall g | g in fs && Matches(g, targets) :: HasKey(records, RecordKey(g))
    requires !HasKey(records, RecordKey(f))
    ensures FirstOfKey(fs + [f], targets, f)
  {
    var longer := fs + [f];
    forall j | 0 <= j < |fs| && Matches(longer[j], targets) ensures RecordKey(longer[j]) != RecordKey(f) {
      assert fs[j] in fs;
    }
    assert longer[|fs|] == f && NoneBefore(longer, targets, |fs|);
  }

  lemma {:induction false} GatherStep(records: seq<Finding>, fs: seq<Finding>, targets: set<string>, f: Finding)
    requires GatheredFrom(records, fs, targets)
    ensures GatheredFrom(
      if Matches(f, targets) && !HasKey(records, RecordKey(f)) then records + [f] else records, fs + [f], targets)
  {
    var after := if Matches(f, targets) && !HasKey(records, RecordKey(f)) then records + [f] else records;
    forall g | g in fs + [f] && Matches(g, targets) ensures HasKey(after, RecordKey(g)) {
      if g in fs {
        var r :| r in records && RecordKey(r) == RecordKey(g);
        assert r in after;
      } else if !HasKey(records, RecordKey(f)) {
        assert f in after;
      }
    }
    forall r | r in after ensures FirstOfKey(fs + [f], targets, r) {
      if r in records { FirstOfKeyStays(fs, targets, r, f); } else { FirstOfKeyAdded(records, fs, targets, f); }
    }
    forall i | 0 <= i < |records| && !HasKey(records, RecordKey(f)) ensures RecordKey(records[i]) != RecordKey(f) {
      assert records[i] in records;
    }
  }

  lemma {:induction false} HasKeyAppend(records: seq<Finding>, f: Finding)
    ensures forall key :: HasKey(records + [f], key) <==> HasKey(records, key) || key == RecordKey(f)
  {
    forall key | HasKey(records, key) || key == RecordKey(f) ensures HasKey(records + [f], key) {
      if HasKey(records, key) {
        var r :| r in records && RecordKey(r) == key;
        assert r in records + [f];
      } else {
        assert f in records + [f];
      }
    }
  }

  method MatchesTarget(f: Finding, targets: set<string>) returns (isMatch: bool)
    ensures isMatch == Matches(f, targets)
  {
    isMatch := f.id in targets;
    if !isMatch {
      isMatch := exists s | s in f.duplicates :: s in targets;
    }
    if !isMatch {
      isMatch := exists s | s in f.related :: s in targets;
    }
  }

  method CollectTargets(fs: seq<Finding>, id: string) returns (targets: set<string>)
    ensures targets == Targets(fs, |fs|, id)
  {
    targets := {id};
    for n := 0 to |fs|
      invariant targets == Targets(fs, n, id)
    {
      if fs[n].id == id {
        targets := targets + (SetOf(fs[n].duplicates) + SetOf(fs[n].related));
      }
    }
  }

  ghost predicate KeysSeen(seen: set<string>, records: seq<Finding>) {
    forall key :: key in seen <==> HasKey(records, key)
  }

  // One record: kept if it matches and its key is new.
  method GatherNext(records: seq<Finding>, seen: set<string>, ghost before: seq<Finding>, f: Finding, targets: set<string>)
    returns (records': seq<Finding>, seen': set<string>)
    requires GatheredFrom(records, before, targets) && KeysSeen(seen, records)
    ensures GatheredFrom(records', before + [f], targets) && KeysSeen(seen', records')
  {
    GatherStep(records, before, targets, f);
    records', seen' := records, seen;
    var isMatch := MatchesTarget(f, targets);
    if isMatch {
      var key := RecordKey(f);
      if key !in seen {
        HasKeyAppend(records, f);
        records', seen' := records + [f], seen + {key};
      }
    }
  }

  method GatherRecords(fs: seq<Finding>, targets: set<string>) returns (records: seq<Finding>)
    ensures GatheredFrom(records, fs, targets)
  {
    records := [];
    var seen: set<string> := {};
    assert fs[..0] == [];
    for n := 0 to |fs|
      invariant GatheredFrom(records, fs[..n], targets) && KeysSeen(seen, records)
    {
      assert fs[..n + 1] == fs[..n] + [fs[n]];
      records, seen := GatherNext(records, seen, fs[..n], fs[n], targets);
    }
    assert fs[..|fs|] == fs;
  }

  method SourceRecordsForFinding(sort: Sorter, rep: ReportValue, id: string) returns (records: seq<Finding>)
    ensures forall i, j | 0 <= i < j < |records| ::
      StrLess(records[i].tool, records[j].tool) || (records[i].tool == records[j].tool && StrLe(records[i].id, records[j].id))
    ensures var fs := FindingsOfRuns(rep.runs, |rep.runs|);
            var targets := Targets(rep.findings, |rep.findings|, id);
            && (forall r | r in records :: r in fs && Matches(r, targets))
            && (forall f | f in fs && Matches(f, targets) :: HasKey(records, RecordKey(f)))
            && (forall r | r in records :: FirstOfKey(fs, targets, r))
    ensures DistinctBy(KeyOfRecord, records)
  {
    var targets := CollectTargets(rep.findings, id);
    var fs := FlattenRuns(rep.runs);
    var gathered := GatherRecords(fs, targets);
    records := SortBy(sort, ToolAndID, gathered);
    assert DistinctBy(KeyOfRecord, gathered);
    SortByKeepsDistinct(sort, ToolAndID, KeyOfRecord, gathered);
    forall i, j | 0 <= i < j < |records|
      ensures StrLess(records[i].tool, records[j].tool)
              || (records[i].tool == records[j].tool && StrLe(records[i].id, records[j].id))
    {
      assert KeyLe(ToolAndID(records[i]), ToolAndID(records[j]));
    }
    forall f | f in fs && Matches(f, targets) ensures HasKey(records, RecordKey(f)) {
      var r :| r in gathered && RecordKey(r) == RecordKey(f);
      assert r in records;
    }
  }

  // ---- What correlation leaves for them to find ----

  ghost predicate TrimmedIDs(refs: seq<Ref>) {
    forall k | 0 <= k < |refs| :: refs[k].finding.id != "" && TrimSpace(refs[k].finding.id) == refs[k].finding.id
  }

  lemma {:induction false} GroupHasID(w: Web, x: nat, k: nat)
    requires TrimmedIDs(w.refs) && x < |w.refs| && k < |w.refs| && Together(w, x, k)
    ensures w.refs[k].finding.id in GroupIDs(GroupOf(w, x))
  {
    var g, id := GroupOf(w, x), w.refs[k].finding.id;
    InSortedComponent(w, x, k);
    var i :| 0 <= i < |g| && g[i] == w.refs[k].finding;
    assert id in RecordIDs(g[i]);
    GroupIDsExact(g, id);
  }

  // Records of one component with different ids list each other, both ways.
  lemma {:induction false} RecordsListEachOther(w: Web, x: nat, k: nat)
    requires TrimmedIDs(w.refs) && x < |w.refs| && k < |w.refs| && Together(w, x, k)
    requires w.refs[x].finding.id != w.refs[k].finding.id
    ensures w.refs[k].finding.id in LinkedAt(w, x).related && w.refs[k].finding.id in LinkedAt(w, x).duplicates
    ensures w.refs[x].finding.id in LinkedAt(w, k).related && w.refs[x].finding.id in LinkedAt(w, k).duplicates
  {
    ListsOther(w, x, k);
    ListsOther(w, k, x);
  }

  lemma {:induction false} ListsOther(w: Web, x: nat, k: nat)
    requires TrimmedIDs(w.refs) && x < |w.refs| && k < |w.refs| && Together(w, x, k)
    requires w.refs[x].finding.id != w.refs[k].finding.id
    ensures w.refs[k].finding.id in LinkedAt(w, x).related && w.refs[k].finding.id in LinkedAt(w, x).duplicates
  {
    var f, ids, id := w.refs[x].finding, GroupIDs(GroupOf(w, x)), w.refs[k].finding.id;
    GroupHasID(w, x, k);
    assert ids[..|ids|] == ids;
    var others := Without(ids, f.id, |ids|);
    assert id in others;
    assert TrimSpace(id) in Cleaned(f.related + others);
    assert TrimSpace(id) in Cleaned(f.duplicates + others);
  }

  // The correlated finding's id is mentioned by every record of its component.
  lemma {:induction false} RecordMentionsFinding(w: Web, k: nat, c: Finding)
    requires TrimmedIDs(w.refs) && IsMergedOf(w, k, c)
    ensures Mentions(LinkedAt(w, k), c.id)
  {
    var p := SortedComponentOrigin(w, k, 0);
    assert c.id == w.refs[p].finding.id;
    if w.refs[p].finding.id != w.refs[k].finding.id {
      ListsOther(w, k, p);
    }
  }

  lemma {:induction false} InFindingsOfRuns(runs: seq<RunOutcome>, n: nat, r: nat, f: nat)
    requires r < n <= |runs| && f < |runs[r].findings|
    ensures runs[r].findings[f] in FindingsOfRuns(runs, n)
    decreases n
  {
    if r < n - 1 { InFindingsOfRuns(runs, n - 1, r, f); }
  }

  lemma {:induction false} TargetsInclude(fs: seq<Finding>, n: nat, i: nat, s: string)
    requires i < n <= |fs| && s in fs[i].related
    ensures s in Targets(fs, n, fs[i].id) && fs[i].id in Targets(fs, n, fs[i].id)
    decreases n
  {
    TargetsHaveID(fs, n, fs[i].id);
    if i < n - 1 { TargetsInclude(fs, n - 1, i, s); }
  }

  lemma {:induction false} TargetsHaveID(fs: seq<Finding>, n: nat, id: string)
    requires n <= |fs|
    ensures id in Targets(fs, n, id)
    decreases n
  {
    if n > 0 { TargetsHaveID(fs, n - 1, id); }
  }

  // After correlation, asking for the records of a correlated finding matches every record of its
  // component, so SourceRecordsForFinding returns each, or one with its tool, id and index.
  lemma {:induction false} ComponentIsTraceable(w: Web, runs: seq<RunOutcome>, updated: seq<RunOutcome>,
                                                findings: seq<Finding>, k: nat, i: nat)
    requires TrimmedIDs(w.refs) && IsLinked(w, runs, updated) && k < |w.refs|
    requires i < |findings| && IsMergedOf(w, k, findings[i])
    ensures LinkedAt(w, k) in FindingsOfRuns(updated, |updated|)
    ensures Matches(LinkedAt(w, k), Targets(findings, |findings|, findings[i].id))
  {
    assert Holds(updated, w.refs[k].runIdx, w.refs[k].findIdx, LinkedAt(w, k));
    InFindingsOfRuns(updated, |updated|, w.refs[k].runIdx, w.refs[k].findIdx);
    GroupHasID(w, k, k);
    assert w.refs[k].finding.id in findings[i].related;
    TargetsInclude(findings, |findings|, i, w.refs[k].finding.id);
  }

  // And asking for its tools names every tool of every such record, and the tool of its run.
  lemma {:induction false} ComponentToolsNamed(w: Web, runs: seq<RunOutcome>, updated: seq<RunOutcome>, k: nat,
                                               c: Finding, t: string)
    requires TrimmedIDs(w.refs) && IsLinked(w, runs, updated) && IsMergedOf(w, k, c) && w.refs == AllRefs(runs)
    requires t in PartsOf(w.refs[k].finding.tool) || t in PartsOf(runs[RunOf(w, runs, k)].tool)
    ensures NamedByRuns(updated, |updated|, c.id, t)
  {
    var ref, f := w.refs[k], LinkedAt(w, k);
    assert Holds(updated, ref.runIdx, ref.findIdx, f);
    RecordMentionsFinding(w, k, c);
    var run := updated[ref.runIdx];
    assert run.tool == runs[RunOf(w, runs, k)].tool;
    PartsNonEmpty(SplitComma(run.tool), |SplitComma(run.tool)|);
    if run.tool == "" { EmptyToolHasNoParts(); }
    assert RecordNames(run, run.findings[ref.findIdx], c.id, t);
    assert NamedByRun(run, |run.findings|, c.id, t);
  }

  lemma {:induction false} EmptyToolHasNoParts()
    ensures PartsOf("") == []
  {
    assert SplitComma("") == [""];
    assert TrimmedParts([""], 1) == TrimmedParts([""], 0) + [];
  }

  ghost function RunOf(w: Web, runs: seq<RunOutcome>, k: nat): (r: nat)
    requires w.refs == AllRefs(runs) && k < |w.refs|
    ensures r < |runs| && r == w.refs[k].runIdx
  {
    RefsExact(runs, |runs|);
    assert w.refs[k] in w.refs;
    w.refs[k].runIdx
  }

  // ---- Which records match ----

  // The id itself, and what a correlated finding of that id lists.
  ghost predicate Gathers(fs: seq<Finding>, id: string, t: string) {
    t == id || exists f | f in fs :: f.id == id && (t in f.duplicates || t in f.related)
  }

  lemma {:induction false} TargetsAre(fs: seq<Finding>, n: nat, id: string, t: string)
    requires n <= |fs|
    ensures t in Targets(fs, n, id) <==> Gathers(fs[..n], id, t)
    decreases n
  {
    if n > 0 {
      TargetsAre(fs, n - 1, id, t);
      assert fs[..n] == fs[..n - 1] + [fs[n - 1]];
      if Gathers(fs[..n], id, t) && t != id {
        var f :| f in fs[..n] && f.id == id && (t in f.duplicates || t in f.related);
        assert f in fs[..n - 1] || f == fs[n - 1];
      }
      if t in Targets(fs, n - 1, id) && t != id {
        var f :| f in fs[..n - 1] && f.id == id && (t in f.duplicates || t in f.related);
        assert f in fs[..n];
      }
      assert fs[n - 1] in fs[..n];
    }
  }

  // A record matches a finding's id exactly when it has, or lists as a duplicate or as related, that id or one
  // that a correlated finding of that id lists.
  lemma {:induction false} MatchesExactly(rep: ReportValue, id: string, r: Finding)
    ensures Matches(r, Targets(rep.findings, |rep.findings|, id)) <==>
      || Gathers(rep.findings, id, r.id)
      || (exists t | t in r.duplicates :: Gathers(rep.findings, id, t))
      || (exists t | t in r.related :: Gathers(rep.findings, id, t))
  {
    var targets := Targets(rep.findings, |rep.findings|, id);
    forall t ensures t in targets <==> Gathers(rep.findings, id, t) {
      TargetsAre(rep.findings, |rep.findings|, id, t);
      assert rep.findings[..|rep.findings|] == rep.findings;
    }
  }

  // Two records have one key exactly when tool, id and raw index agree, as long as tools and ids hold no colon.
  lemma {:induction false} KeysTellExactly(f: Finding, g: Finding)
    requires ':' !in f.tool && ':' !in g.tool && ':' !in f.id && ':' !in g.id
    ensures RecordKey(f) == RecordKey(g) <==> f.tool == g.tool && f.id == g.id && f.rawIndex == g.rawIndex
  {
    if RecordKey(f) == RecordKey(g) {
      var x, y := Itoa(f.rawIndex), Itoa(g.rawIndex);
      assert f.tool + ":" + f.id + ":" + x == f.tool + ":" + (f.id + ":" + x);
      assert g.tool + ":" + g.id + ":" + y == g.tool + ":" + (g.id + ":" + y);
      FirstPartsTell(':', f.tool, g.tool, f.id + ":" + x, g.id + ":" + y);
      FirstPartsTell(':', f.id, g.id, x, y);
      AtoiItoa(f.rawIndex);
      AtoiItoa(g.rawIndex);
    }
  }
}
