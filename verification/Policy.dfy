// Evaluate: from a configuration and a report to a clearance verdict.
module Policy {
  import opened Options
  import opened Text
  import opened Sorting
  import opened Evidence

  datatype Outcome = Cleared | ClearedWithResidualRisk | Blocked | Incomplete

  // The verdict's reason, without its wording.
  datatype Reason = NoReason
                  | RequiredUnavailable(names: seq<string>)
                  | RequiredDidNotRun(names: seq<string>)
                  | RequiredFailed(names: seq<string>)
                  | DirtyTree
                  | BlockingPresent(ids: seq<string>)
                  | ResidualAccepted(count: nat)
                  | AllPassed

  datatype Cause = WasSkipped | ScannerCrashed | ExceededTimeout | ExecutableMissing | Stated(text: string)

  datatype UncoveredCheck = UncoveredCheck(tool: string, command: string, reason: Cause, exitCode: Option<int>)

  datatype UncoveredChecks = UncoveredChecks(
    skipped: seq<UncoveredCheck>, crashed: seq<UncoveredCheck>,
    timedOut: seq<UncoveredCheck>, unavailable: seq<UncoveredCheck>)

  datatype ResidualRiskItem = ResidualRiskItem(
    findingID: string, ruleID: string, tool: string, severity: Severity,
    reason: string, acceptedBy: string, expiresAt: string)

  datatype AcceptedRiskRule = AcceptedRiskRule(
    findingID: string, ruleID: string, tool: string, reason: string, expiresAt: string, owner: string)

  datatype Config = Config(
    required: seq<string>, blockingSeverities: seq<Severity>, allowDirty: bool, acceptedRisks: seq<AcceptedRiskRule>)

  datatype ReportValue = ReportValue(
    dirty: bool, outcome: Outcome, reason: Reason, runs: seq<RunOutcome>, findings: seq<Finding>,
    uncovered: UncoveredChecks, residualRisk: seq<ResidualRiskItem>, startedAt: string, completedAt: string)

  datatype Verdict = Verdict(
    outcome: Outcome, reason: Reason, blocking: seq<string>, residual: seq<ResidualRiskItem>, uncovered: UncoveredChecks)

  function RunKey(r: RunOutcome): Key { (r.tool, r.command) }
  function CheckKey(u: UncoveredCheck): Key { (u.tool, "") }
  function IDKey(f: Finding): Key { (f.id, "") }
  function ResidualKey(i: ResidualRiskItem): Key { (i.findingID, i.ruleID) }

  // ---- Uncovered checks ----

  function CheckOf(r: RunOutcome, cause: Cause): UncoveredCheck {
    UncoveredCheck(r.tool, r.command, cause, Some(r.exitCode))
  }

  function UnavailableCause(r: RunOutcome): Cause {
    if r.stderrTail != "" then Stated(r.stderrTail) else ExecutableMissing
  }

  function AddRun(u: UncoveredChecks, r: RunOutcome): UncoveredChecks {
    match r.status
    case Skipped => u.(skipped := u.skipped + [CheckOf(r, WasSkipped)])
    case Crashed => u.(crashed := u.crashed + [CheckOf(r, ScannerCrashed)])
    case TimedOut => u.(timedOut := u.timedOut + [CheckOf(r, ExceededTimeout)])
    case NotInstalled => u.(unavailable := u.unavailable + [CheckOf(r, UnavailableCause(r))])
    case Unavailable => u.(unavailable := u.unavailable + [CheckOf(r, UnavailableCause(r))])
    case _ => u
  }

  function RunChecks(runs: seq<RunOutcome>, n: nat): UncoveredChecks
    requires n <= |runs|
  {
    if n == 0 then UncoveredChecks([], [], [], []) else AddRun(RunChecks(runs, n - 1), runs[n - 1])
  }

  function JoinChecks(u: UncoveredChecks, v: UncoveredChecks): UncoveredChecks {
    UncoveredChecks(u.skipped + v.skipped, u.crashed + v.crashed, u.timedOut + v.timedOut, u.unavailable + v.unavailable)
  }

  function SortChecks(sort: Sorter, u: UncoveredChecks): UncoveredChecks {
    UncoveredChecks(SortBy(sort, CheckKey, u.skipped), SortBy(sort, CheckKey, u.crashed),
                    SortBy(sort, CheckKey, u.timedOut), SortBy(sort, CheckKey, u.unavailable))
  }

  // ---- Required adapters ----

  // runByTool: the last run of a tool.
  function LastRun(runs: seq<RunOutcome>, n: nat, tool: string): Option<RunOutcome>
    requires n <= |runs|
  {
    if n == 0 then None
    else if runs[n - 1].tool == tool then Some(runs[n - 1])
    else LastRun(runs, n - 1, tool)
  }

  datatype Standing = Met | NeverRan | NotAvailable | Failed

  function StandingOf(run: Option<RunOutcome>): Standing {
    match run
    case None => NeverRan
    case Some(r) =>
      match r.status
      case OK => Met
      case FindingsPresent => Met
      case Crashed => Failed
      case TimedOut => Failed
      case Skipped => NeverRan
      case _ => NotAvailable
  }

  // The required names, among the first n, that have a given standing.
  function Standings(runs: seq<RunOutcome>, names: seq<string>, n: nat, s: Standing): seq<string>
    requires n <= |names|
  {
    if n == 0 then []
    else
      Standings(runs, names, n - 1, s) +
      if StandingOf(LastRun(runs, |runs|, names[n - 1])) == s then [names[n - 1]] else []
  }

  // Names among the first n that equal an unavailable tool are added once.
  function NameUnavailable(acc: seq<string>, tool: string, names: seq<string>, n: nat): seq<string>
    requires n <= |names|
  {
    if n == 0 then acc
    else
      var before := NameUnavailable(acc, tool, names, n - 1);
      if tool == names[n - 1] && names[n - 1] !in before then before + [names[n - 1]] else before
  }

  function NameAllUnavailable(acc: seq<string>, checks: seq<UncoveredCheck>, n: nat, names: seq<string>): seq<string>
    requires n <= |checks|
  {
    if n == 0 then acc
    else NameUnavailable(NameAllUnavailable(acc, checks, n - 1, names), checks[n - 1].tool, names, |names|)
  }

  // ---- Findings ----

  // The first finding of each id, among the first n.
  function FirstOfEachID(fs: seq<Finding>, n: nat): seq<Finding>
    requires n <= |fs|
  {
    if n == 0 then []
    else
      var before := FirstOfEachID(fs, n - 1);
      if HasID(before, fs[n - 1].id) then before else before + [fs[n - 1]]
  }

  function FindingsOfRuns(runs: seq<RunOutcome>, n: nat): seq<Finding>
    requires n <= |runs|
  {
    if n == 0 then [] else FindingsOfRuns(runs, n - 1) + runs[n - 1].findings
  }

  function AllFindings(runs: seq<RunOutcome>, rep: ReportValue): seq<Finding> {
    var fs := if rep.findings != [] then rep.findings else FindingsOfRuns(runs, |runs|);
    FirstOfEachID(fs, |fs|)
  }

  function RefTime(rep: ReportValue): string {
    if rep.completedAt != "" then rep.completedAt
    else if rep.startedAt != "" then rep.startedAt
    else "2026-09-17T00:00:00Z"
  }

  // acceptedByFindingID and acceptedByRuleID: of several rules for one key the last counts.
  function RuleForFinding(rules: seq<AcceptedRiskRule>, n: nat, id: string): Option<AcceptedRiskRule>
    requires n <= |rules|
  {
    if n == 0 then None
    else if rules[n - 1].findingID != "" && rules[n - 1].findingID == id then Some(rules[n - 1])
    else RuleForFinding(rules, n - 1, id)
  }

  function RuleForRule(rules: seq<AcceptedRiskRule>, n: nat, id: string): Option<AcceptedRiskRule>
    requires n <= |rules|
  {
    if n == 0 then None
    else if rules[n - 1].ruleID != "" && rules[n - 1].ruleID == id then Some(rules[n - 1])
    else RuleForRule(rules, n - 1, id)
  }

  // The first of some ids that a rule accepts.
  function RuleForAny(rules: seq<AcceptedRiskRule>, ids: seq<string>): Option<AcceptedRiskRule>
    decreases |ids|
  {
    if ids == [] then None
    else
      var r := RuleForFinding(rules, |rules|, ids[0]);
      if r.Some? then r else RuleForAny(rules, ids[1..])
  }

  // Layered acceptance: own id, rule id, a duplicate's id, a related id, the challenge status.
  function Acceptance(rules: seq<AcceptedRiskRule>, f: Finding): Option<AcceptedRiskRule> {
    var own := RuleForFinding(rules, |rules|, f.id);
    if own.Some? then own else
    var rule := RuleForRule(rules, |rules|, f.ruleID);
    if rule.Some? then rule else
    var dup := RuleForAny(rules, f.duplicates);
    if dup.Some? then dup else
    var rel := RuleForAny(rules, f.related);
    if rel.Some? then rel else
    if f.challenge == AcceptedRisk then
      Some(AcceptedRiskRule(f.id, f.ruleID, f.tool, "accepted during review challenge", "9999-12-31T23:59:59Z", ""))
    else None
  }

  predicate Expired(rule: AcceptedRiskRule, refTime: string) {
    rule.expiresAt != "" && StrLess(rule.expiresAt, refTime)
  }

  datatype Disposition = Dropped | Blocks | Accepted(rule: AcceptedRiskRule) | Harmless

  function Dispose(cfg: Config, refTime: string, f: Finding): Disposition {
    if f.challenge == Rejected || f.challenge == Fixed then Dropped
    else
      var blocking := f.severity in cfg.blockingSeverities;
      match Acceptance(cfg.acceptedRisks, f)
      case None => if blocking then Blocks else Harmless
      case Some(rule) =>
        if !Expired(rule, refTime) then Accepted(rule)
        else if blocking then Blocks else Harmless
  }

  function ItemOf(f: Finding, rule: AcceptedRiskRule): ResidualRiskItem {
    ResidualRiskItem(f.id, f.ruleID, f.tool, f.severity, rule.reason, rule.owner, rule.expiresAt)
  }

  function BlockingIDs(cfg: Config, refTime: string, fs: seq<Finding>, n: nat): seq<string>
    requires n <= |fs|
  {
    if n == 0 then []
    else BlockingIDs(cfg, refTime, fs, n - 1) + if Dispose(cfg, refTime, fs[n - 1]).Blocks? then [fs[n - 1].id] else []
  }

  function ResidualItems(cfg: Config, refTime: string, fs: seq<Finding>, n: nat): seq<ResidualRiskItem>
    requires n <= |fs|
  {
    if n == 0 then []
    else
      var d := Dispose(cfg, refTime, fs[n - 1]);
      ResidualItems(cfg, refTime, fs, n - 1) + if d.Accepted? then [ItemOf(fs[n - 1], d.rule)] else []
  }

  // ---- The verdict ----

  // Runs in order of tool and command; the checks they and the report leave uncovered.
  function OrderedRuns(sort: Sorter, rep: ReportValue): seq<RunOutcome> { SortBy(sort, RunKey, rep.runs) }

  function Uncovered(sort: Sorter, rep: ReportValue): UncoveredChecks {
    var runs := OrderedRuns(sort, rep);
    JoinChecks(RunChecks(runs, |runs|), rep.uncovered)
  }

  function Lacking(sort: Sorter, cfg: Config, rep: ReportValue, s: Standing): seq<string> {
    var names := SortStrings(cfg.required);
    Standings(OrderedRuns(sort, rep), names, |names|, s)
  }

  function UnavailableNames(sort: Sorter, cfg: Config, rep: ReportValue): seq<string> {
    var checks := Uncovered(sort, rep).unavailable;
    NameAllUnavailable(Lacking(sort, cfg, rep, NotAvailable), checks, |checks|, SortStrings(cfg.required))
  }

  function OrderedFindings(sort: Sorter, rep: ReportValue): seq<Finding> {
    SortBy(sort, IDKey, AllFindings(OrderedRuns(sort, rep), rep))
  }

  function Blocking(sort: Sorter, cfg: Config, rep: ReportValue): seq<string> {
    var fs := OrderedFindings(sort, rep);
    SortStrings(BlockingIDs(cfg, RefTime(rep), fs, |fs|))
  }

  function Residual(sort: Sorter, cfg: Config, rep: ReportValue): seq<ResidualRiskItem> {
    var fs := OrderedFindings(sort, rep);
    SortBy(sort, ResidualKey, ResidualItems(cfg, RefTime(rep), fs, |fs|))
  }

  // Why the finding stage is not reached, if it is not.
  function Shortfall(sort: Sorter, cfg: Config, rep: ReportValue): Option<Verdict> {
    var sorted := SortChecks(sort, Uncovered(sort, rep));
    var unavailable := UnavailableNames(sort, cfg, rep);
    var missing, failed := Lacking(sort, cfg, rep, NeverRan), Lacking(sort, cfg, rep, Failed);
    if unavailable != [] then Some(Verdict(Incomplete, RequiredUnavailable(SortStrings(unavailable)), [], [], sorted))
    else if missing != [] then Some(Verdict(Incomplete, RequiredDidNotRun(SortStrings(missing)), [], [], sorted))
    else if failed != [] then Some(Verdict(Incomplete, RequiredFailed(SortStrings(failed)), [], [], sorted))
    else if !cfg.allowDirty && rep.dirty then Some(Verdict(Blocked, DirtyTree, [], [], sorted))
    else None
  }

  function Judgement(blocking: seq<string>, residual: seq<ResidualRiskItem>): (Outcome, Reason) {
    if |blocking| > 0 then (Blocked, BlockingPresent(blocking))
    else if |residual| > 0 then (ClearedWithResidualRisk, ResidualAccepted(|residual|))
    else (Cleared, AllPassed)
  }

  function VerdictOf(sort: Sorter, cfg: Config, rep: ReportValue): Verdict {
    var short := Shortfall(sort, cfg, rep);
    if short.Some? then short.value
    else
      var blocking, residual := Blocking(sort, cfg, rep), Residual(sort, cfg, rep);
      var (outcome, reason) := Judgement(blocking, residual);
      Verdict(outcome, reason, blocking, residual, SortChecks(sort, Uncovered(sort, rep)))
  }

  // ---- The loops of Evaluate ----

  method IndexRuns(runs: seq<RunOutcome>) returns (runByTool: map<string, RunOutcome>, u: UncoveredChecks)
    ensures u == RunChecks(runs, |runs|)
    ensures forall t :: LastRun(runs, |runs|, t) == if t in runByTool then Some(runByTool[t]) else None
  {
    runByTool, u := map[], UncoveredChecks([], [], [], []);
    for n := 0 to |runs|
      invariant u == RunChecks(runs, n)
      invariant forall t :: LastRun(runs, n, t) == if t in runByTool then Some(runByTool[t]) else None
    {
      var r := runs[n];
      runByTool := runByTool[r.tool := r];
      match r.status {
        case Skipped => u := u.(skipped := u.skipped + [UncoveredCheck(r.tool, r.command, WasSkipped, Some(r.exitCode))]);
        case Crashed => u := u.(crashed := u.crashed + [UncoveredCheck(r.tool, r.command, ScannerCrashed, Some(r.exitCode))]);
        case TimedOut => u := u.(timedOut := u.timedOut + [UncoveredCheck(r.tool, r.command, ExceededTimeout, Some(r.exitCode))]);
        case NotInstalled | Unavailable =>
          var reason := ExecutableMissing;
          if r.stderrTail != "" { reason := Stated(r.stderrTail); }
          u := u.(unavailable := u.unavailable + [UncoveredCheck(r.tool, r.command, reason, Some(r.exitCode))]);
        case OK | FindingsPresent | OtherStatus(_) =>
      }
    }
  }

  method CheckRequired(runs: seq<RunOutcome>, runByTool: map<string, RunOutcome>, names: seq<string>)
    returns (missing: seq<string>, unavailable: seq<string>, failed: seq<string>)
    requires forall t :: LastRun(runs, |runs|, t) == if t in runByTool then Some(runByTool[t]) else None
    ensures missing == Standings(runs, names, |names|, NeverRan)
    ensures unavailable == Standings(runs, names, |names|, NotAvailable)
    ensures failed == Standings(runs, names, |names|, Failed)
  {
    missing, unavailable, failed := [], [], [];
    for n := 0 to |names|
      invariant missing == Standings(runs, names, n, NeverRan)
      invariant unavailable == Standings(runs, names, n, NotAvailable)
      invariant failed == Standings(runs, names, n, Failed)
    {
      var name := names[n];
      assert LastRun(runs, |runs|, name) == if name in runByTool then Some(runByTool[name]) else None;
      if name !in runByTool {
        missing := missing + [name];
      } else {
        match runByTool[name].status {
          case NotInstalled | Unavailable => unavailable := unavailable + [name];
          case Crashed | TimedOut => failed := failed + [name];
          case Skipped => missing := missing + [name];
          case OK | FindingsPresent =>
          case OtherStatus(_) => unavailable := unavailable + [name];
        }
      }
    }
  }

  method NameRequired(checks: seq<UncoveredCheck>, names: seq<string>, acc: seq<string>) returns (r: seq<string>)
    ensures r == NameAllUnavailable(acc, checks, |checks|, names)
  {
    r := acc;
    for n := 0 to |checks|
      invariant r == NameAllUnavailable(acc, checks, n, names)
    {
      ghost var before := r;
      for m := 0 to |names|
        invariant r == NameUnavailable(before, checks[n].tool, names, m)
      {
        if checks[n].tool == names[m] {
          var found := names[m] in r;
          if !found {
            r := r + [names[m]];
          }
        }
      }
    }
  }

  method CollectFirst(fs: seq<Finding>) returns (out: seq<Finding>)
    ensures out == FirstOfEachID(fs, |fs|)
  {
    out := [];
    var seen: set<string> := {};
    for n := 0 to |fs|
      invariant out == FirstOfEachID(fs, n)
      invariant forall id :: id in seen <==> HasID(out, id)
    {
      if fs[n].id !in seen {
        seen := seen + {fs[n].id};
        HasIDAppend(out, fs[n]);
        out := out + [fs[n]];
      }
    }
  }

  method FlattenRuns(runs: seq<RunOutcome>) returns (fs: seq<Finding>)
    ensures fs == FindingsOfRuns(runs, |runs|)
  {
    fs := [];
    for n := 0 to |runs|
      invariant fs == FindingsOfRuns(runs, n)
    {
      fs := fs + runs[n].findings;
    }
  }

  method IndexRules(rules: seq<AcceptedRiskRule>)
    returns (byFinding: map<string, AcceptedRiskRule>, byRule: map<string, AcceptedRiskRule>)
    ensures forall id :: RuleForFinding(rules, |rules|, id) == if id in byFinding then Some(byFinding[id]) else None
    ensures forall id :: RuleForRule(rules, |rules|, id) == if id in byRule then Some(byRule[id]) else None
  {
    byFinding, byRule := map[], map[];
    for n := 0 to |rules|
      invariant forall id :: RuleForFinding(rules, n, id) == if id in byFinding then Some(byFinding[id]) else None
      invariant forall id :: RuleForRule(rules, n, id) == if id in byRule then Some(byRule[id]) else None
    {
      if rules[n].findingID != "" {
        byFinding := byFinding[rules[n].findingID := rules[n]];
      }
      if rules[n].ruleID != "" {
        byRule := byRule[rules[n].ruleID := rules[n]];
      }
    }
  }

  // The loop over duplicate or related ids, left at the first that a rule accepts.
  method FirstAccepted(rules: seq<AcceptedRiskRule>, byFinding: map<string, AcceptedRiskRule>, ids: seq<string>)
    returns (r: Option<AcceptedRiskRule>)
    requires forall id :: RuleForFinding(rules, |rules|, id) == if id in byFinding then Some(byFinding[id]) else None
    ensures r == RuleForAny(rules, ids)
  {
    for n := 0 to |ids|
      invariant RuleForAny(rules, ids) == RuleForAny(rules, ids[n..])
    {
      assert RuleForFinding(rules, |rules|, ids[n]) == if ids[n] in byFinding then Some(byFinding[ids[n]]) else None;
      assert ids[n..][1..] == ids[n + 1..];
      if ids[n] in byFinding {
        return Some(byFinding[ids[n]]);
      }
    }
    r := None;
  }

  method FindAcceptance(rules: seq<AcceptedRiskRule>, byFinding: map<string, AcceptedRiskRule>,
                        byRule: map<string, AcceptedRiskRule>, f: Finding) returns (r: Option<AcceptedRiskRule>)
    requires forall id :: RuleForFinding(rules, |rules|, id) == if id in byFinding then Some(byFinding[id]) else None
    requires forall id :: RuleForRule(rules, |rules|, id) == if id in byRule then Some(byRule[id]) else None
    ensures r == Acceptance(rules, f)
  {
    assert RuleForFinding(rules, |rules|, f.id) == if f.id in byFinding then Some(byFinding[f.id]) else None;
    assert RuleForRule(rules, |rules|, f.ruleID) == if f.ruleID in byRule then Some(byRule[f.ruleID]) else None;
    r := None;
    if f.id in byFinding {
      r := Some(byFinding[f.id]);
    } else if f.ruleID in byRule {
      r := Some(byRule[f.ruleID]);
    } else {
      r := FirstAccepted(rules, byFinding, f.duplicates);
      if r == None {
        r := FirstAccepted(rules, byFinding, f.related);
      }
    }
    if r == None && f.challenge == AcceptedRisk {
      r := Some(AcceptedRiskRule(f.id, f.ruleID, f.tool, "accepted during review challenge", "9999-12-31T23:59:59Z", ""));
    }
  }

  method JudgeFindings(cfg: Config, refTime: string, fs: seq<Finding>)
    returns (blocking: seq<string>, residual: seq<ResidualRiskItem>)
    ensures blocking == BlockingIDs(cfg, refTime, fs, |fs|)
    ensures residual == ResidualItems(cfg, refTime, fs, |fs|)
  {
    var byFinding, byRule := IndexRules(cfg.acceptedRisks);
    blocking, residual := [], [];
    for n := 0 to |fs|
      invariant blocking == BlockingIDs(cfg, refTime, fs, n)
      invariant residual == ResidualItems(cfg, refTime, fs, n)
    {
      var f := fs[n];
      if f.challenge != Rejected && f.challenge != Fixed {
        var accepted := FindAcceptance(cfg.acceptedRisks, byFinding, byRule, f);
        if accepted.Some? {
          if accepted.value.expiresAt != "" && StrLess(accepted.value.expiresAt, refTime) {
            if f.severity in cfg.blockingSeverities {
              blocking := blocking + [f.id];
            }
          } else {
            residual := residual + [ResidualRiskItem(f.id, f.ruleID, f.tool, f.severity,
              accepted.value.reason, accepted.value.owner, accepted.value.expiresAt)];
          }
        } else if f.severity in cfg.blockingSeverities {
          blocking := blocking + [f.id];
        }
      }
    }
  }

  // Coverage and the working tree: whether the verdict is settled before findings are looked at.
  method RequirementStage(sort: Sorter, cfg: Config, rep: ReportValue, runs: seq<RunOutcome>)
    returns (settled: Option<Verdict>, sorted: UncoveredChecks)
    requires runs == OrderedRuns(sort, rep)
    ensures settled == Shortfall(sort, cfg, rep) && sorted == SortChecks(sort, Uncovered(sort, rep))
  {
    var runByTool, u := IndexRuns(runs);
    u := UncoveredChecks(u.skipped + rep.uncovered.skipped, u.crashed + rep.uncovered.crashed,
                         u.timedOut + rep.uncovered.timedOut, u.unavailable + rep.uncovered.unavailable);
    assert u == Uncovered(sort, rep);
    var names := SortStrings(cfg.required);
    var missing, unavailable, failed := CheckRequired(runs, runByTool, names);
    unavailable := NameRequired(u.unavailable, names, unavailable);
    sorted := SortChecks(sort, u);
    settled := None;
    if |unavailable| > 0 {
      settled := Some(Verdict(Incomplete, RequiredUnavailable(SortStrings(unavailable)), [], [], sorted));
    } else if |missing| > 0 {
      settled := Some(Verdict(Incomplete, RequiredDidNotRun(SortStrings(missing)), [], [], sorted));
    } else if |failed| > 0 {
      settled := Some(Verdict(Incomplete, RequiredFailed(SortStrings(failed)), [], [], sorted));
    } else if !cfg.allowDirty && rep.dirty {
      settled := Some(Verdict(Blocked, DirtyTree, [], [], sorted));
    }
  }

  method FindingStage(sort: Sorter, cfg: Config, rep: ReportValue, runs: seq<RunOutcome>)
    returns (blocking: seq<string>, residual: seq<ResidualRiskItem>)
    requires runs == OrderedRuns(sort, rep)
    ensures blocking == Blocking(sort, cfg, rep) && residual == Residual(sort, cfg, rep)
  {
    var fs := rep.findings;
    if |rep.findings| == 0 {
      fs := FlattenRuns(runs);
    }
    fs := CollectFirst(fs);
    fs := SortBy(sort, IDKey, fs);
    assert fs == OrderedFindings(sort, rep);
    var refTime := rep.completedAt;
    if refTime == "" { refTime := rep.startedAt; }
    if refTime == "" { refTime := "2026-09-17T00:00:00Z"; }
    blocking, residual := JudgeFindings(cfg, refTime, fs);
    blocking := SortStrings(blocking);
    residual := SortBy(sort, ResidualKey, residual);
  }

  method Evaluate(sort: Sorter, cfg: Config, rep: ReportValue) returns (v: Verdict)
    ensures v == VerdictOf(sort, cfg, rep)
  {
    var runs := SortBy(sort, RunKey, rep.runs);
    var settled, sorted := RequirementStage(sort, cfg, rep, runs);
    if settled.Some? {
      return settled.value;
    }
    var blocking, residual := FindingStage(sort, cfg, rep, runs);
    if |blocking| > 0 {
      return Verdict(Blocked, BlockingPresent(blocking), blocking, residual, sorted);
    }
    if |residual| > 0 {
      return Verdict(ClearedWithResidualRisk, ResidualAccepted(|residual|), blocking, residual, sorted);
    }
    v := Verdict(Cleared, AllPassed, blocking, residual, sorted);
  }
}
