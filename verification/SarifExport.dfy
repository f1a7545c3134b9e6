// Export: a report's findings as a SARIF log, one run a tool.
module SarifExport {
  import opened Options
  import opened Text
  import opened Sorting
  import opened Evidence
  import opened Sarif

  const DEFAULT_TOOL := "code-clearance"

  function SarifLevel(s: Severity): string {
    match s
    case Critical => "error"
    case High => "error"
    case Medium => "warning"
    case Low => "note"
    case _ => "none"
  }

  // ---- One finding ----

  function ExportLocation(l: Location): ResLoc {
    ResLoc(l.uri,
      if l.startLine.At? || l.snippet != "" then
        Some(Region(l.startLine, l.startColumn, l.endLine, l.endColumn, if l.snippet != "" then Some(l.snippet) else None))
      else None)
  }

  function ExportLocations(ls: seq<Location>): seq<ResLoc> { Map(ExportLocation, ls) }

  function ExportFinding(f: Finding): SarifResult {
    SarifResult(f.ruleID, SarifLevel(f.severity), f.message, ExportLocations(f.locations))
  }

  // The rules of the first n findings, each once, in order of first use.
  function RulesUsed(fs: seq<Finding>, n: nat): seq<SarifRule>
    requires n <= |fs|
  {
    if n == 0 then []
    else
      var before := RulesUsed(fs, n - 1);
      if HasRule(before, fs[n - 1].ruleID) then before else before + [SarifRule(fs[n - 1].ruleID, None)]
  }

  predicate HasRule(rules: seq<SarifRule>, id: string) {
    exists r | r in rules :: r.id == id
  }

  function ExportRun(tool: string, version: string, fs: seq<Finding>): SarifRun {
    SarifRun(tool, if version == "" then "1.0.0" else version, RulesUsed(fs, |fs|), Map(ExportFinding, fs))
  }

  method ExportResult(f: Finding) returns (res: SarifResult)
    ensures res == ExportFinding(f)
  {
    var locations: seq<ResLoc> := [];
    for k := 0 to |f.locations|
      invariant locations == ExportLocations(f.locations)[..k]
    {
      var loc := f.locations[k];
      var resLoc := ResLoc(loc.uri, None);
      if loc.startLine.At? || loc.snippet != "" {
        var reg := Region(loc.startLine, loc.startColumn, loc.endLine, loc.endColumn, None);
        if loc.snippet != "" {
          reg := reg.(snippet := Some(loc.snippet));
        }
        resLoc := resLoc.(region := Some(reg));
      }
      locations := locations + [resLoc];
    }
    res := SarifResult(f.ruleID, SarifLevel(f.severity), f.message, locations);
  }

  ghost predicate Lists(rulesMap: set<string>, rules: seq<SarifRule>) {
    forall id :: id in rulesMap <==> HasRule(rules, id)
  }

  method UseRule(rulesMap: set<string>, rules: seq<SarifRule>, id: string)
    returns (rulesMap': set<string>, rules': seq<SarifRule>)
    requires Lists(rulesMap, rules)
    ensures Lists(rulesMap', rules')
    ensures rules' == if HasRule(rules, id) then rules else rules + [SarifRule(id, None)]
  {
    rulesMap', rules' := rulesMap, rules;
    if id !in rulesMap {
      HasRuleAppend(rules, id);
      rulesMap' := rulesMap + {id};
      rules' := rules + [SarifRule(id, None)];
    }
  }

  // What the loop has put out after n findings.
  ghost predicate Exported(fs: seq<Finding>, n: nat, rulesMap: set<string>, rules: seq<SarifRule>,
                           results: seq<SarifResult>)
    requires n <= |fs|
  {
    rules == RulesUsed(fs, n) && Lists(rulesMap, rules) && results == Map(ExportFinding, fs)[..n]
  }

  method ExportNext(fs: seq<Finding>, n: nat, rulesMap: set<string>, rules: seq<SarifRule>, results: seq<SarifResult>)
    returns (rulesMap': set<string>, rules': seq<SarifRule>, results': seq<SarifResult>)
    requires n < |fs| && Exported(fs, n, rulesMap, rules, results)
    ensures Exported(fs, n + 1, rulesMap', rules', results')
  {
    rulesMap', rules' := UseRule(rulesMap, rules, fs[n].ruleID);
    var res := ExportResult(fs[n]);
    results' := results + [res];
  }

  method ExportResults(fs: seq<Finding>) returns (rules: seq<SarifRule>, results: seq<SarifResult>)
    ensures results == Map(ExportFinding, fs)
    ensures rules == RulesUsed(fs, |fs|)
  {
    rules, results := [], [];
    var rulesMap: set<string> := {};
    for n := 0 to |fs|
      invariant Exported(fs, n, rulesMap, rules, results)
    {
      rulesMap, rules, results := ExportNext(fs, n, rulesMap, rules, results);
    }
  }

  lemma {:induction false} HasRuleAppend(rules: seq<SarifRule>, id: string)
    ensures forall i :: HasRule(rules + [SarifRule(id, None)], i) <==> HasRule(rules, i) || i == id
  {
    forall i | HasRule(rules, i) || i == id ensures HasRule(rules + [SarifRule(id, None)], i) {
      if HasRule(rules, i) {
        var r :| r in rules && r.id == i;
        assert r in rules + [SarifRule(id, None)];
      } else {
        assert SarifRule(id, None) in rules + [SarifRule(id, None)];
      }
    }
  }

  // ---- Findings by tool ----

  datatype Grouped = Grouped(findings: map<string, seq<Finding>>, versions: map<string, string>)

  function ToolName(tool: string): string { if tool == "" then DEFAULT_TOOL else tool }

  function AtTool(m: map<string, seq<Finding>>, tool: string): seq<Finding> {
    if tool in m then m[tool] else []
  }

  function AddRun(g: Grouped, run: RunOutcome): Grouped {
    var tool := ToolName(run.tool);
    Grouped(g.findings[tool := AtTool(g.findings, tool) + run.findings], g.versions[tool := run.toolVersion])
  }

  function GroupRuns(runs: seq<RunOutcome>, n: nat): Grouped
    requires n <= |runs|
  {
    if n == 0 then Grouped(map[], map[]) else AddRun(GroupRuns(runs, n - 1), runs[n - 1])
  }

  // The first tool a finding names.
  function PrimaryTool(f: Finding): string {
    ToolName(if Contains(f.tool, ",") then TrimSpace(SplitComma(f.tool)[0]) else f.tool)
  }

  function AddFinding(g: Grouped, f: Finding): Grouped {
    var tool := PrimaryTool(f);
    var versions := if tool in g.versions then g.versions else g.versions[tool := f.carried.toolVersion];
    if HasID(AtTool(g.findings, tool), f.id) then Grouped(g.findings, versions)
    else Grouped(g.findings[tool := AtTool(g.findings, tool) + [f]], versions)
  }

  function GroupFindings(fs: seq<Finding>, n: nat): Grouped
    requires n <= |fs|
  {
    if n == 0 then Grouped(map[], map[]) else AddFinding(GroupFindings(fs, n - 1), fs[n - 1])
  }

  function GroupReport(runs: seq<RunOutcome>, fs: seq<Finding>): Grouped {
    if runs != [] then GroupRuns(runs, |runs|) else GroupFindings(fs, |fs|)
  }

  method GroupByTool(runs: seq<RunOutcome>, fs: seq<Finding>)
    returns (findingsByTool: map<string, seq<Finding>>, versionByTool: map<string, string>)
    ensures Grouped(findingsByTool, versionByTool) == GroupReport(runs, fs)
  {
    findingsByTool, versionByTool := map[], map[];
    for n := 0 to |runs|
      invariant Grouped(findingsByTool, versionByTool) == GroupRuns(runs, n)
    {
      var toolName := runs[n].tool;
      if toolName == "" {
        toolName := DEFAULT_TOOL;
      }
      versionByTool := versionByTool[toolName := runs[n].toolVersion];
      findingsByTool := findingsByTool[toolName := AtTool(findingsByTool, toolName) + runs[n].findings];
    }
    if |runs| == 0 {
      for n := 0 to |fs|
        invariant Grouped(findingsByTool, versionByTool) == GroupFindings(fs, n)
      {
        var f := fs[n];
        var toolName := f.tool;
        if Contains(toolName, ",") {
          toolName := TrimSpace(SplitComma(toolName)[0]);
        }
        if toolName == "" {
          toolName := DEFAULT_TOOL;
        }
        if toolName !in versionByTool {
          versionByTool := versionByTool[toolName := f.carried.toolVersion];
        }
        var existing := AtTool(findingsByTool, toolName);
        var alreadyPresent := exists e | e in existing :: e.id == f.id;
        if !alreadyPresent {
          findingsByTool := findingsByTool[toolName := existing + [f]];
        }
      }
    }
  }

  // ---- The log ----

  ghost predicate Orders(order: seq<string>, keys: set<string>) {
    && (forall t :: t in order <==> t in keys)
    && (forall i, j | 0 <= i < |order| && 0 <= j < |order| && order[i] == order[j] :: i == j)
  }

  function VersionOf(g: Grouped, tool: string): string {
    if tool in g.versions then g.versions[tool] else ""
  }

  ghost predicate RunsInOrder(g: Grouped, order: seq<string>, log: seq<SarifRun>) {
    && |log| == |order|
    && forall i | 0 <= i < |log| :: log[i] == ExportRun(order[i], VersionOf(g, order[i]), AtTool(g.findings, order[i]))
  }

  // The runs come in any order, the order in which a map of tools happens to be walked; an empty
  // report exports as one run with nothing in it.
  ghost predicate IsExport(g: Grouped, log: seq<SarifRun>) {
    if g.findings == map[] then log == [SarifRun(DEFAULT_TOOL, "1.0.0", [], [])]
    else exists order :: Orders(order, g.findings.Keys) && RunsInOrder(g, order, log)
  }

  method Export(runs: seq<RunOutcome>, fs: seq<Finding>) returns (log: seq<SarifRun>)
    ensures IsExport(GroupReport(runs, fs), log)
  {
    var findingsByTool, versionByTool := GroupByTool(runs, fs);
    ghost var g := Grouped(findingsByTool, versionByTool);
    if |findingsByTool| == 0 {
      return [SarifRun(DEFAULT_TOOL, "1.0.0", [], [])];
    }
    log := [];
    ghost var order: seq<string> := [];
    var left := findingsByTool.Keys;
    while left != {}
      invariant left <= findingsByTool.Keys && Orders(order, findingsByTool.Keys - left) && RunsInOrder(g, order, log)
    {
      var toolName :| toolName in left;
      var toolVer := if toolName in versionByTool then versionByTool[toolName] else "";
      if toolVer == "" {
        toolVer := "1.0.0";
      }
      var rules, results := ExportResults(findingsByTool[toolName]);
      OrdersAppend(order, findingsByTool.Keys - left, toolName);
      log := log + [SarifRun(toolName, toolVer, rules, results)];
      order := order + [toolName];
      left := left - {toolName};
      assert findingsByTool.Keys - left == findingsByTool.Keys - (left + {toolName}) + {toolName};
    }
    assert findingsByTool.Keys - left == findingsByTool.Keys;
    assert findingsByTool != map[];
  }

  lemma {:induction false} OrdersAppend(order: seq<string>, keys: set<string>, t: string)
    requires Orders(order, keys) && t !in keys
    ensures Orders(order + [t], keys + {t})
  {
    forall i | 0 <= i < |order| ensures order[i] != t {
      assert order[i] in order;
    }
  }

  // ---- Nothing is left out ----

  // The findings of the runs of one tool, in order.
  function FindingsFor(runs: seq<RunOutcome>, n: nat, tool: string): seq<Finding>
    requires n <= |runs|
  {
    if n == 0 then []
    else FindingsFor(runs, n - 1, tool) + if ToolName(runs[n - 1].tool) == tool then runs[n - 1].findings else []
  }

  lemma {:induction false} AddRunAt(g: Grouped, run: RunOutcome, tool: string)
    ensures AtTool(AddRun(g, run).findings, tool)
         == AtTool(g.findings, tool) + if ToolName(run.tool) == tool then run.findings else []
  {
  }

  lemma {:induction false} GroupRunsExactly(runs: seq<RunOutcome>, n: nat, tool: string)
    requires n <= |runs|
    ensures AtTool(GroupRuns(runs, n).findings, tool) == FindingsFor(runs, n, tool)
    decreases n
  {
    if n > 0 {
      GroupRunsExactly(runs, n - 1, tool);
      AddRunAt(GroupRuns(runs, n - 1), runs[n - 1], tool);
    }
  }

  lemma {:induction false} GroupRunsTools(runs: seq<RunOutcome>, n: nat, k: nat)
    requires k < n <= |runs|
    ensures ToolName(runs[k].tool) in GroupRuns(runs, n).findings
    decreases n
  {
    if k < n - 1 { GroupRunsTools(runs, n - 1, k); }
  }

  lemma {:induction false} RunOfTool(runs: seq<RunOutcome>, order: seq<string>, log: seq<SarifRun>, i: nat)
    requires RunsInOrder(GroupRuns(runs, |runs|), order, log) && i < |log|
    ensures log[i].name == order[i]
    ensures log[i].results == Map(ExportFinding, FindingsFor(runs, |runs|, order[i]))
  {
    GroupRunsExactly(runs, |runs|, order[i]);
  }

  lemma {:induction false} ToolIsListed(runs: seq<RunOutcome>, order: seq<string>, k: nat) returns (i: nat)
    requires Orders(order, GroupRuns(runs, |runs|).findings.Keys) && k < |runs|
    ensures i < |order| && order[i] == ToolName(runs[k].tool)
  {
    var tool := ToolName(runs[k].tool);
    GroupRunsTools(runs, |runs|, k);
    assert tool in order;
    i :| 0 <= i < |order| && order[i] == tool;
  }

  lemma {:induction false} ExportOrder(runs: seq<RunOutcome>, fs: seq<Finding>, log: seq<SarifRun>)
    returns (order: seq<string>)
    requires runs != [] && IsExport(GroupReport(runs, fs), log)
    ensures Orders(order, GroupRuns(runs, |runs|).findings.Keys) && RunsInOrder(GroupRuns(runs, |runs|), order, log)
  {
    GroupRunsTools(runs, |runs|, 0);
    order :| Orders(order, GroupRuns(runs, |runs|).findings.Keys) && RunsInOrder(GroupRuns(runs, |runs|), order, log);
  }

  ghost predicate HasRunFor(log: seq<SarifRun>, tool: string) {
    exists i | 0 <= i < |log| :: log[i].name == tool
  }

  // Each tool of the runs has exactly one run in the log, and its results are all that tool's
  // findings, in order; no other run is there.
  lemma {:induction false} ExportExactly(runs: seq<RunOutcome>, fs: seq<Finding>, log: seq<SarifRun>)
    requires runs != [] && IsExport(GroupReport(runs, fs), log)
    ensures forall i, j | 0 <= i < j < |log| :: log[i].name != log[j].name
    ensures forall i | 0 <= i < |log| :: log[i].results == Map(ExportFinding, FindingsFor(runs, |runs|, log[i].name))
    ensures forall k | 0 <= k < |runs| :: HasRunFor(log, if runs[k].tool != "" then runs[k].tool else "code-clearance")
  {
    var order := ExportOrder(runs, fs, log);
    forall i | 0 <= i < |log|
      ensures log[i].name == order[i] && log[i].results == Map(ExportFinding, FindingsFor(runs, |runs|, log[i].name))
    {
      RunOfTool(runs, order, log, i);
    }
    forall k | 0 <= k < |runs| ensures HasRunFor(log, if runs[k].tool != "" then runs[k].tool else "code-clearance") {
      var i := ToolIsListed(runs, order, k);
      assert log[i].name == ToolName(runs[k].tool);
    }
  }

  // ---- Without runs ----

  ghost predicate OneOfEachID(fs: seq<Finding>) {
    forall i, j | 0 <= i < j < |fs| :: fs[i].id != fs[j].id
  }

  lemma {:induction false} AddFindingAt(g: Grouped, f: Finding, tool: string)
    ensures var before := AtTool(g.findings, tool);
            AtTool(AddFinding(g, f).findings, tool)
            == if PrimaryTool(f) == tool && !HasID(before, f.id) then before + [f] else before
  {
  }

  // A report without runs is grouped by the first tool each finding names. No tool has two findings of
  // one id,
  lemma {:induction false} GroupsAreDistinct(fs: seq<Finding>, n: nat, tool: string)
    requires n <= |fs|
    ensures OneOfEachID(AtTool(GroupFindings(fs, n).findings, tool))
    decreases n
  {
    if n > 0 {
      var before, f := AtTool(GroupFindings(fs, n - 1).findings, tool), fs[n - 1];
      GroupsAreDistinct(fs, n - 1, tool);
      AddFindingAt(GroupFindings(fs, n - 1), f, tool);
      if !HasID(before, f.id) { AppendKeepsDistinct(before, f); }
    }
  }

  lemma {:induction false} AppendKeepsDistinct(fs: seq<Finding>, f: Finding)
    requires OneOfEachID(fs) && !HasID(fs, f.id)
    ensures OneOfEachID(fs + [f])
  {
    forall i | 0 <= i < |fs| ensures fs[i].id != f.id {
      assert fs[i] in fs;
    }
  }

  // none has a finding that names another first,
  lemma {:induction false} GroupsHoldTheirOwn(fs: seq<Finding>, n: nat, tool: string, f: Finding)
    requires n <= |fs| && f in AtTool(GroupFindings(fs, n).findings, tool)
    ensures PrimaryTool(f) == tool && exists k | 0 <= k < n :: fs[k] == f
    decreases n
  {
    if n > 0 {
      AddFindingAt(GroupFindings(fs, n - 1), fs[n - 1], tool);
      if f in AtTool(GroupFindings(fs, n - 1).findings, tool) {
        GroupsHoldTheirOwn(fs, n - 1, tool, f);
      } else {
        assert fs[n - 1] == f;
      }
    }
  }

  // and no finding's id is missing from the tool it names first.
  lemma {:induction false} GroupsMissNoID(fs: seq<Finding>, n: nat, k: nat)
    requires k < n <= |fs|
    ensures HasID(AtTool(GroupFindings(fs, n).findings, PrimaryTool(fs[k])), fs[k].id)
    decreases n
  {
    var tool := PrimaryTool(fs[k]);
    var before := AtTool(GroupFindings(fs, n - 1).findings, tool);
    AddFindingAt(GroupFindings(fs, n - 1), fs[n - 1], tool);
    HasIDAppend(before, fs[n - 1]);
    if k < n - 1 { GroupsMissNoID(fs, n - 1, k); }
  }

  // ---- Versions ----

  // A tool's version is that of the last run of it.
  lemma {:induction false} VersionOfRuns(runs: seq<RunOutcome>, n: nat, k: nat, tool: string)
    requires k < n <= |runs| && ToolName(runs[k].tool) == tool
    requires forall j | k < j < n :: ToolName(runs[j].tool) != tool
    ensures VersionOf(GroupRuns(runs, n), tool) == runs[k].toolVersion
    decreases n
  {
    if k < n - 1 { VersionOfRuns(runs, n - 1, k, tool); }
  }

  lemma {:induction false} VersionStep(g: Grouped, f: Finding, tool: string)
    ensures tool in g.versions ==>
      tool in AddFinding(g, f).versions && AddFinding(g, f).versions[tool] == g.versions[tool]
    ensures tool !in g.versions && PrimaryTool(f) == tool ==>
      tool in AddFinding(g, f).versions && AddFinding(g, f).versions[tool] == f.carried.toolVersion
  {
  }

  // Without runs, that of the first finding that names it first.
  lemma {:induction false} VersionOfFindings(fs: seq<Finding>, n: nat, k: nat, tool: string)
    requires k < n <= |fs| && PrimaryTool(fs[k]) == tool && forall j | 0 <= j < k :: PrimaryTool(fs[j]) != tool
    ensures tool in GroupFindings(fs, n).versions && VersionOf(GroupFindings(fs, n), tool) == fs[k].carried.toolVersion
    decreases n
  {
    VersionStep(GroupFindings(fs, n - 1), fs[n - 1], tool);
    if k < n - 1 {
      VersionOfFindings(fs, n - 1, k, tool);
    } else {
      NoVersionYet(fs, k, tool);
    }
  }

  lemma {:induction false} NoVersionYet(fs: seq<Finding>, n: nat, tool: string)
    requires n <= |fs| && forall j | 0 <= j < n :: PrimaryTool(fs[j]) != tool
    ensures tool !in GroupFindings(fs, n).versions
    decreases n
  {
    if n > 0 { NoVersionYet(fs, n - 1, tool); }
  }
}
