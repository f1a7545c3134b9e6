// What Evaluate says of each finding, each requirement and each uncovered check, told from the fields
// of the configuration and the report.
module PolicyFindings {
  import opened Options
  import opened Text
  import opened Sorting
  import opened Evidence
  import opened Policy
  import opened PolicyOutcome
  import opened PolicyOrder
  import opened PolicyShuffle

  // ---- The rule that governs a finding ----

  // Rule k is the last that names this finding id.
  ghost predicate LastForID(rules: seq<AcceptedRiskRule>, id: string, k: nat) {
    k < |rules| && id != "" && rules[k].findingID == id && forall j | k < j < |rules| :: rules[j].findingID != id
  }

  // Rule k is the last that names this scanner rule.
  ghost predicate LastForRule(rules: seq<AcceptedRiskRule>, ruleID: string, k: nat) {
    k < |rules| && ruleID != "" && rules[k].ruleID == ruleID && forall j | k < j < |rules| :: rules[j].ruleID != ruleID
  }

  ghost predicate NoneForID(rules: seq<AcceptedRiskRule>, id: string) {
    id == "" || forall j | 0 <= j < |rules| :: rules[j].findingID != id
  }

  ghost predicate NoneForRule(rules: seq<AcceptedRiskRule>, ruleID: string) {
    ruleID == "" || forall j | 0 <= j < |rules| :: rules[j].ruleID != ruleID
  }

  ghost predicate NoneForAny(rules: seq<AcceptedRiskRule>, ids: seq<string>) {
    forall i | 0 <= i < |ids| :: NoneForID(rules, ids[i])
  }

  // Rule k is the last that names the first of these ids that any rule names.
  ghost predicate FirstListed(rules: seq<AcceptedRiskRule>, ids: seq<string>, k: nat) {
    exists i | 0 <= i < |ids| :: LastForID(rules, ids[i], k) && NoneForAny(rules, ids[..i])
  }

  // The finding's id before its rule, its rule before its duplicates, its duplicates before what it is
  // related to.
  ghost predicate Governs(rules: seq<AcceptedRiskRule>, f: Finding, k: nat) {
    if !NoneForID(rules, f.id) then LastForID(rules, f.id, k)
    else if !NoneForRule(rules, f.ruleID) then LastForRule(rules, f.ruleID, k)
    else if !NoneForAny(rules, f.duplicates) then FirstListed(rules, f.duplicates, k)
    else FirstListed(rules, f.related, k)
  }

  lemma {:induction false} RuleForFindingIs(rules: seq<AcceptedRiskRule>, n: nat, id: string)
    requires n <= |rules|
    ensures match RuleForFinding(rules, n, id)
            case None => NoneForID(rules[..n], id)
            case Some(r) => exists k: nat | k < n :: rules[k] == r && LastForID(rules[..n], id, k)
    decreases n
  {
    if n > 0 {
      RuleForFindingIs(rules, n - 1, id);
      if rules[n - 1].findingID != "" && rules[n - 1].findingID == id {
        assert LastForID(rules[..n], id, n - 1);
      } else if RuleForFinding(rules, n - 1, id).Some? {
        var k: nat :| k < n - 1 && rules[k] == RuleForFinding(rules, n - 1, id).value && LastForID(rules[..n - 1], id, k);
        assert LastForID(rules[..n], id, k);
      }
    }
  }

  lemma {:induction false} RuleForRuleIs(rules: seq<AcceptedRiskRule>, n: nat, ruleID: string)
    requires n <= |rules|
    ensures match RuleForRule(rules, n, ruleID)
            case None => NoneForRule(rules[..n], ruleID)
            case Some(r) => exists k: nat | k < n :: rules[k] == r && LastForRule(rules[..n], ruleID, k)
    decreases n
  {
    if n > 0 {
      RuleForRuleIs(rules, n - 1, ruleID);
      if rules[n - 1].ruleID != "" && rules[n - 1].ruleID == ruleID {
        assert LastForRule(rules[..n], ruleID, n - 1);
      } else if RuleForRule(rules, n - 1, ruleID).Some? {
        var k: nat :| k < n - 1 && rules[k] == RuleForRule(rules, n - 1, ruleID).value
          && LastForRule(rules[..n - 1], ruleID, k);
        assert LastForRule(rules[..n], ruleID, k);
      }
    }
  }

  lemma {:induction false} OwnRule(rules: seq<AcceptedRiskRule>, id: string)
    ensures RuleForFinding(rules, |rules|, id) == None <==> NoneForID(rules, id)
    ensures forall k: nat | LastForID(rules, id, k) :: RuleForFinding(rules, |rules|, id) == Some(rules[k])
  {
    RuleForFindingIs(rules, |rules|, id);
    assert rules[..|rules|] == rules;
  }

  lemma {:induction false} OwnScannerRule(rules: seq<AcceptedRiskRule>, ruleID: string)
    ensures RuleForRule(rules, |rules|, ruleID) == None <==> NoneForRule(rules, ruleID)
    ensures forall k: nat | LastForRule(rules, ruleID, k) :: RuleForRule(rules, |rules|, ruleID) == Some(rules[k])
  {
    RuleForRuleIs(rules, |rules|, ruleID);
    assert rules[..|rules|] == rules;
  }

  lemma {:induction false} FirstListedTail(rules: seq<AcceptedRiskRule>, ids: seq<string>, k: nat)
    requires ids != [] && FirstListed(rules, ids, k)
    ensures LastForID(rules, ids[0], k) || (NoneForID(rules, ids[0]) && FirstListed(rules, ids[1..], k))
  {
    var i :| 0 <= i < |ids| && LastForID(rules, ids[i], k) && NoneForAny(rules, ids[..i]);
    if i > 0 {
      assert ids[..i][0] == ids[0];
      var front := ids[1..][..i - 1];
      forall j | 0 <= j < |front| ensures NoneForID(rules, front[j]) {
        assert ids[..i][j + 1] == front[j];
      }
      assert ids[1..][i - 1] == ids[i];
    }
  }

  lemma {:induction false} NoneForTail(rules: seq<AcceptedRiskRule>, ids: seq<string>)
    requires ids != []
    ensures NoneForAny(rules, ids) <==> NoneForID(rules, ids[0]) && NoneForAny(rules, ids[1..])
  {
    assert ids == [ids[0]] + ids[1..];
  }

  lemma {:induction false} ListedRule(rules: seq<AcceptedRiskRule>, ids: seq<string>)
    ensures RuleForAny(rules, ids) == None <==> NoneForAny(rules, ids)
    ensures forall k: nat | FirstListed(rules, ids, k) :: RuleForAny(rules, ids) == Some(rules[k])
    decreases |ids|
  {
    if ids != [] {
      OwnRule(rules, ids[0]);
      ListedRule(rules, ids[1..]);
      NoneForTail(rules, ids);
      forall k: nat | FirstListed(rules, ids, k) ensures RuleForAny(rules, ids) == Some(rules[k]) {
        FirstListedTail(rules, ids, k);
      }
    }
  }

  // The acceptance of a finding is the rule that governs it; where none does, its challenge status can
  // stand in for one.
  lemma {:induction false} AcceptanceGoverned(rules: seq<AcceptedRiskRule>, f: Finding)
    ensures forall k: nat | Governs(rules, f, k) :: k < |rules| && Acceptance(rules, f) == Some(rules[k])
    ensures Ungoverned(rules, f) ==>
      Acceptance(rules, f) ==
        if f.challenge == AcceptedRisk
        then Some(AcceptedRiskRule(f.id, f.ruleID, f.tool, "accepted during review challenge", "9999-12-31T23:59:59Z", ""))
        else None
  {
    OwnRule(rules, f.id);
    OwnScannerRule(rules, f.ruleID);
    ListedRule(rules, f.duplicates);
    ListedRule(rules, f.related);
    forall k: nat | FirstListed(rules, f.related, k) ensures !NoneForAny(rules, f.related) {
      var i :| 0 <= i < |f.related| && LastForID(rules, f.related[i], k) && NoneForAny(rules, f.related[..i]);
    }
  }

  ghost predicate Ungoverned(rules: seq<AcceptedRiskRule>, f: Finding) {
    && NoneForID(rules, f.id) && NoneForRule(rules, f.ruleID)
    && NoneForAny(rules, f.duplicates) && NoneForAny(rules, f.related)
  }

  // ---- What becomes of a judged finding ----

  // An acceptance with this expiry has run out: against the completion time, without one against the
  // start time, and without either against a fixed one.
  ghost predicate RunOut(rep: ReportValue, expiresAt: string) {
    && expiresAt != ""
    && (rep.completedAt != "" ==> StrLess(expiresAt, rep.completedAt))
    && (rep.completedAt == "" && rep.startedAt != "" ==> StrLess(expiresAt, rep.startedAt))
    && (rep.completedAt == "" && rep.startedAt == "" ==> StrLess(expiresAt, "2026-09-17T00:00:00Z"))
  }

  // The verdict names the finding as blocking, and as no residual risk.
  ghost predicate IsBlocked(v: Verdict, f: Finding) {
    f.id in v.blocking && forall i | i in v.residual :: i.findingID != f.id
  }

  // It lists it as a residual risk on these terms, once, and not as blocking.
  ghost predicate IsResidual(v: Verdict, f: Finding, reason: string, acceptedBy: string, expiresAt: string) {
    && f.id !in v.blocking
    && (forall i | i in v.residual && i.findingID == f.id ::
          i == ResidualRiskItem(f.id, f.ruleID, f.tool, f.severity, reason, acceptedBy, expiresAt))
    && exists i | i in v.residual :: i.findingID == f.id
  }

  ghost predicate IsPassedOver(v: Verdict, f: Finding) {
    f.id !in v.blocking && forall i | i in v.residual :: i.findingID != f.id
  }

  lemma {:induction false} ContributionShows(sort: Sorter, cfg: Config, rep: ReportValue, f: Finding)
    requires Shortfall(sort, cfg, rep) == None && f in OrderedFindings(sort, rep)
    ensures var v, c := VerdictOf(sort, cfg, rep), ContributionOf(cfg, RefTime(rep), f);
            && (f.id in v.blocking <==> c == BlockingID(f.id))
            && (forall i: ResidualRiskItem | i.findingID == f.id :: i in v.residual <==> c == RiskItem(i))
  {
    var v, c := VerdictOf(sort, cfg, rep), ContributionOf(cfg, RefTime(rep), f);
    BlockingIsPut(sort, cfg, rep, f.id);
    if f.id in v.blocking { PutByItsFinding(sort, cfg, rep, f, BlockingID(f.id)); }
    forall i: ResidualRiskItem | i.findingID == f.id ensures i in v.residual <==> c == RiskItem(i) {
      ResidualIsPut(sort, cfg, rep, i);
      if i in v.residual { PutByItsFinding(sort, cfg, rep, f, RiskItem(i)); }
    }
  }

  // Once the finding stage is reached, each judged finding is blocking, a residual risk or passed over:
  // passed over when it was challenged as rejected or fixed; a residual risk, on the terms of the rule that
  // governs it or of its challenge status, unless that has run out; else blocking if its severity is.
  lemma {:induction false} FindingJudgedExactly(sort: Sorter, cfg: Config, rep: ReportValue, f: Finding)
    requires Shortfall(sort, cfg, rep) == None && f in OrderedFindings(sort, rep)
    ensures var v := VerdictOf(sort, cfg, rep);
            if f.challenge == Rejected || f.challenge == Fixed then IsPassedOver(v, f)
            else if Ungoverned(cfg.acceptedRisks, f) && f.challenge == AcceptedRisk && !RunOut(rep, "9999-12-31T23:59:59Z")
              then IsResidual(v, f, "accepted during review challenge", "", "9999-12-31T23:59:59Z")
            else if Ungoverned(cfg.acceptedRisks, f)
              then if f.severity in cfg.blockingSeverities then IsBlocked(v, f) else IsPassedOver(v, f)
            else forall k: nat | Governs(cfg.acceptedRisks, f, k) ::
              var rule := cfg.acceptedRisks[k];
              if !RunOut(rep, rule.expiresAt) then IsResidual(v, f, rule.reason, rule.owner, rule.expiresAt)
              else if f.severity in cfg.blockingSeverities then IsBlocked(v, f) else IsPassedOver(v, f)
  {
    ContributionShows(sort, cfg, rep, f);
    AcceptanceGoverned(cfg.acceptedRisks, f);
    RunOutExactly(rep, "9999-12-31T23:59:59Z");
    forall k: nat | Governs(cfg.acceptedRisks, f, k)
      ensures RunOut(rep, cfg.acceptedRisks[k].expiresAt) == Expired(cfg.acceptedRisks[k], RefTime(rep))
    {
      RunOutExactly(rep, cfg.acceptedRisks[k].expiresAt);
    }
  }

  lemma {:induction false} RunOutExactly(rep: ReportValue, expiresAt: string)
    ensures RunOut(rep, expiresAt) <==> expiresAt != "" && StrLess(expiresAt, RefTime(rep))
  {
  }

  // Some rule governs a finding unless none names it in any way.
  lemma {:induction false} SomeRuleGoverns(rules: seq<AcceptedRiskRule>, f: Finding) returns (k: nat)
    requires !Ungoverned(rules, f)
    ensures Governs(rules, f, k)
  {
    if !NoneForID(rules, f.id) {
      k := LastOf(rules, f.id);
    } else if !NoneForRule(rules, f.ruleID) {
      RuleForRuleIs(rules, |rules|, f.ruleID);
      assert rules[..|rules|] == rules;
      k :| LastForRule(rules, f.ruleID, k);
    } else if !NoneForAny(rules, f.duplicates) {
      k := FirstListedOf(rules, f.duplicates);
    } else {
      k := FirstListedOf(rules, f.related);
    }
  }

  lemma {:induction false} LastOf(rules: seq<AcceptedRiskRule>, id: string) returns (k: nat)
    requires !NoneForID(rules, id)
    ensures LastForID(rules, id, k)
  {
    RuleForFindingIs(rules, |rules|, id);
    assert rules[..|rules|] == rules;
    k :| LastForID(rules, id, k);
  }

  lemma {:induction false} FirstListedOf(rules: seq<AcceptedRiskRule>, ids: seq<string>) returns (k: nat)
    requires !NoneForAny(rules, ids)
    ensures FirstListed(rules, ids, k)
    decreases |ids|
  {
    var last := |ids| - 1;
    if NoneForAny(rules, ids[..last]) {
      k := LastOf(rules, ids[last]);
    } else {
      k := FirstListedOf(rules, ids[..last]);
      var i :| 0 <= i < last && LastForID(rules, ids[..last][i], k) && NoneForAny(rules, ids[..last][..i]);
      assert ids[..last][..i] == ids[..i] && ids[..last][i] == ids[i];
    }
  }

  // ---- Which findings are judged ----

  // With findings in the report: the first of each id. With none: of each id the first in the first run,
  // by tool and command, that holds it.
  lemma {:induction false} JudgedExactly(sort: Sorter, rep: ReportValue, f: Finding)
    requires rep.findings != []
    ensures f in OrderedFindings(sort, rep) <==>
      exists m | 0 <= m < |rep.findings| :: rep.findings[m] == f && forall j | 0 <= j < m :: rep.findings[j].id != f.id
  {
    var fs := rep.findings;
    assert f in OrderedFindings(sort, rep) <==> f in FirstOfEachID(fs, |fs|);
    if f in FirstOfEachID(fs, |fs|) { var m := FirstOfItsID(fs, |fs|, f); }
    if m :| 0 <= m < |fs| && fs[m] == f && forall j | 0 <= j < m :: fs[j].id != f.id { FirstIsKept(fs, |fs|, m); }
  }

  lemma {:induction false} JudgedFromRuns(sort: Sorter, rep: ReportValue, f: Finding) returns (x: nat)
    requires rep.findings == [] && f in OrderedFindings(sort, rep)
    ensures var runs := OrderedRuns(sort, rep);
            && x < |runs| && f in runs[x].findings
            && forall y, g | 0 <= y < x && g in runs[y].findings :: g.id != f.id
  {
    x := FirstHolder(OrderedRuns(sort, rep), f);
    var runs := OrderedRuns(sort, rep);
    forall y, g | 0 <= y < x && g in runs[y].findings ensures g.id != f.id {
      assert !HasID(runs[y].findings, f.id);
    }
  }

  // ---- Which requirements are lacking, and why ----

  // The run of a tool that counts, if it has one.
  function Counting(sort: Sorter, rep: ReportValue, name: string): Option<RunOutcome> {
    var runs := OrderedRuns(sort, rep);
    LastRun(runs, |runs|, name)
  }

  // A required name that is reported unavailable, or whose run that counts ended in no way that is known.
  ghost predicate IsUnavailable(sort: Sorter, cfg: Config, rep: ReportValue, name: string) {
    && name in cfg.required
    && (|| (exists r | r in rep.runs :: r.tool == name && (r.status == NotInstalled || r.status == Unavailable))
        || (exists u | u in rep.uncovered.unavailable :: u.tool == name)
        || (var last := Counting(sort, rep, name);
            last.Some? && last.value.status !in {OK, FindingsPresent, Crashed, TimedOut, Skipped}))
  }

  ghost predicate DidNotRun(sort: Sorter, cfg: Config, rep: ReportValue, name: string) {
    && name in cfg.required
    && var last := Counting(sort, rep, name); last == None || last.value.status == Skipped
  }

  ghost predicate DidNotFinish(sort: Sorter, cfg: Config, rep: ReportValue, name: string) {
    && name in cfg.required
    && var last := Counting(sort, rep, name); last.Some? && last.value.status in {Crashed, TimedOut}
  }

  lemma {:induction false} LackingIs(sort: Sorter, cfg: Config, rep: ReportValue, name: string)
    ensures name in UnavailableNames(sort, cfg, rep) <==> IsUnavailable(sort, cfg, rep, name)
    ensures name in Lacking(sort, cfg, rep, NeverRan) <==> DidNotRun(sort, cfg, rep, name)
    ensures name in Lacking(sort, cfg, rep, Failed) <==> DidNotFinish(sort, cfg, rep, name)
  {
    var runs, names := OrderedRuns(sort, rep), SortStrings(cfg.required);
    SortStringsMembers(cfg.required);
    assert names[..|names|] == names;
    StandingsExact(runs, names, |names|, NeverRan, name);
    StandingsExact(runs, names, |names|, Failed, name);
    UnavailableNamesExactly(sort, cfg, rep, name);
    CountingUnavailable(sort, rep, name);
  }

  lemma {:induction false} CountingUnavailable(sort: Sorter, rep: ReportValue, name: string)
    ensures var last := Counting(sort, rep, name);
            last.Some? ==> last.value in rep.runs && last.value.tool == name
  {
    LastRunIsGreatest(sort, rep, name);
  }

  // These strings are the names, in order.
  ghost predicate Lists(names: seq<string>, of: string -> bool) {
    SortedStrings(names) && forall name :: name in names <==> of(name)
  }

  lemma {:induction false} NamesListed(names: seq<string>, of: string -> bool)
    requires forall name :: name in names <==> of(name)
    ensures Lists(SortStrings(names), of)
    ensures names == [] <==> forall name :: !of(name)
  {
    SortStringsMembers(names);
    if names != [] { assert of(names[0]); }
    if name :| of(name) { assert name in names; }
  }

  // The reason names, in order, exactly the required adapters that are unavailable; if none is, those that
  // did not run; if none, those that failed. After these come the dirty tree, the blocking findings, and
  // the accepted risks with their number.
  lemma {:induction false} ReasonExactly(sort: Sorter, cfg: Config, rep: ReportValue)
    ensures var v := VerdictOf(sort, cfg, rep);
            if exists name :: IsUnavailable(sort, cfg, rep, name) then
              v.reason.RequiredUnavailable? && Lists(v.reason.names, name => IsUnavailable(sort, cfg, rep, name))
            else if exists name :: DidNotRun(sort, cfg, rep, name) then
              v.reason.RequiredDidNotRun? && Lists(v.reason.names, name => DidNotRun(sort, cfg, rep, name))
            else if exists name :: DidNotFinish(sort, cfg, rep, name) then
              v.reason.RequiredFailed? && Lists(v.reason.names, name => DidNotFinish(sort, cfg, rep, name))
            else if !cfg.allowDirty && rep.dirty then v.reason == DirtyTree
            else if v.blocking != [] then v.reason == BlockingPresent(v.blocking)
            else if v.residual != [] then v.reason == ResidualAccepted(|v.residual|)
            else v.reason == AllPassed
  {
    forall name {
      LackingIs(sort, cfg, rep, name);
    }
    NamesListed(UnavailableNames(sort, cfg, rep), name => IsUnavailable(sort, cfg, rep, name));
    NamesListed(Lacking(sort, cfg, rep, NeverRan), name => DidNotRun(sort, cfg, rep, name));
    NamesListed(Lacking(sort, cfg, rep, Failed), name => DidNotFinish(sort, cfg, rep, name));
  }

  // ---- The uncovered checks ----

  ghost predicate IsCheck(r: RunOutcome, u: UncoveredCheck, status: RunStatus, reason: Cause) {
    r.status == status && u == UncoveredCheck(r.tool, r.command, reason, Some(r.exitCode))
  }

  ghost predicate IsUnavailableCheck(r: RunOutcome, u: UncoveredCheck) {
    && (r.status == NotInstalled || r.status == Unavailable)
    && u == UncoveredCheck(r.tool, r.command, if r.stderrTail == "" then ExecutableMissing else Stated(r.stderrTail), Some(r.exitCode))
  }

  ghost predicate SomeCheck(runs: seq<RunOutcome>, u: UncoveredCheck, status: RunStatus, reason: Cause) {
    exists r | r in runs :: IsCheck(r, u, status, reason)
  }

  ghost predicate SomeUnavailable(runs: seq<RunOutcome>, u: UncoveredCheck) {
    exists r | r in runs :: IsUnavailableCheck(r, u)
  }

  lemma {:induction false} SomeCheckAppend(runs: seq<RunOutcome>, r: RunOutcome, u: UncoveredCheck)
    ensures forall status, reason ::
      SomeCheck(runs + [r], u, status, reason) <==> SomeCheck(runs, u, status, reason) || IsCheck(r, u, status, reason)
    ensures SomeUnavailable(runs + [r], u) <==> SomeUnavailable(runs, u) || IsUnavailableCheck(r, u)
  {
    var all := runs + [r];
    assert r == all[|runs|] && forall q | q in runs :: q in all;
  }

  lemma {:induction false} RunChecksIs(runs: seq<RunOutcome>, n: nat, u: UncoveredCheck)
    requires n <= |runs|
    ensures var checks := RunChecks(runs, n);
            && (u in checks.skipped <==> SomeCheck(runs[..n], u, Skipped, WasSkipped))
            && (u in checks.crashed <==> SomeCheck(runs[..n], u, Crashed, ScannerCrashed))
            && (u in checks.timedOut <==> SomeCheck(runs[..n], u, TimedOut, ExceededTimeout))
            && (u in checks.unavailable <==> SomeUnavailable(runs[..n], u))
    decreases n
  {
    if n > 0 {
      RunChecksIs(runs, n - 1, u);
      SomeCheckAppend(runs[..n - 1], runs[n - 1], u);
      assert runs[..n] == runs[..n - 1] + [runs[n - 1]];
    }
  }

  lemma {:induction false} UncoveredIs(sort: Sorter, rep: ReportValue, u: UncoveredCheck)
    ensures var c := Uncovered(sort, rep);
            && (u in c.skipped <==> u in rep.uncovered.skipped || SomeCheck(rep.runs, u, Skipped, WasSkipped))
            && (u in c.crashed <==> u in rep.uncovered.crashed || SomeCheck(rep.runs, u, Crashed, ScannerCrashed))
            && (u in c.timedOut <==> u in rep.uncovered.timedOut || SomeCheck(rep.runs, u, TimedOut, ExceededTimeout))
            && (u in c.unavailable <==> u in rep.uncovered.unavailable || SomeUnavailable(rep.runs, u))
  {
    var runs := OrderedRuns(sort, rep);
    RunChecksIs(runs, |runs|, u);
    assert runs[..|runs|] == runs;
  }

  // Every verdict lists, in order of tool, the report's own uncovered checks and one for each run that was
  // skipped, crashed, ran out of time or was not available, each under its heading and with its reason.
  lemma {:induction false} UncoveredExactly(sort: Sorter, cfg: Config, rep: ReportValue, u: UncoveredCheck)
    ensures var c := VerdictOf(sort, cfg, rep).uncovered;
            && (u in c.skipped <==> u in rep.uncovered.skipped || SomeCheck(rep.runs, u, Skipped, WasSkipped))
            && (u in c.crashed <==> u in rep.uncovered.crashed || SomeCheck(rep.runs, u, Crashed, ScannerCrashed))
            && (u in c.timedOut <==> u in rep.uncovered.timedOut || SomeCheck(rep.runs, u, TimedOut, ExceededTimeout))
            && (u in c.unavailable <==> u in rep.uncovered.unavailable || SomeUnavailable(rep.runs, u))
  {
    UncoveredIs(sort, rep, u);
    assert VerdictOf(sort, cfg, rep).uncovered == SortChecks(sort, Uncovered(sort, rep));
  }

  // ---- In what order ----

  ghost predicate ByTool(checks: seq<UncoveredCheck>) {
    forall i, j | 0 <= i < j < |checks| :: StrLe(checks[i].tool, checks[j].tool)
  }

  lemma {:induction false} ChecksByTool(sort: Sorter, checks: seq<UncoveredCheck>)
    ensures ByTool(SortBy(sort, CheckKey, checks))
  {
    var r := SortBy(sort, CheckKey, checks);
    forall i, j | 0 <= i < j < |r| ensures StrLe(r[i].tool, r[j].tool) {
      assert KeyLe(CheckKey(r[i]), CheckKey(r[j]));
      StrLeTotal(r[i].tool, r[j].tool);
    }
  }

  // Runs are taken by tool and then by command.
  lemma {:induction false} RunsByToolAndCommand(sort: Sorter, rep: ReportValue, i: nat, j: nat)
    requires i < j < |OrderedRuns(sort, rep)|
    ensures var r, s := OrderedRuns(sort, rep)[i], OrderedRuns(sort, rep)[j];
            StrLess(r.tool, s.tool) || (r.tool == s.tool && StrLe(r.command, s.command))
  {
    var runs := OrderedRuns(sort, rep);
    assert KeyLe(RunKey(runs[i]), RunKey(runs[j]));
  }

  // A verdict lists blocking ids in order, residual risks by finding, and uncovered checks by tool.
  lemma {:induction false} VerdictInOrder(sort: Sorter, cfg: Config, rep: ReportValue)
    ensures var v := VerdictOf(sort, cfg, rep);
            && Ascending(v.blocking)
            && (forall i, j | 0 <= i < j < |v.residual| :: StrLess(v.residual[i].findingID, v.residual[j].findingID))
            && ByTool(v.uncovered.skipped) && ByTool(v.uncovered.crashed)
            && ByTool(v.uncovered.timedOut) && ByTool(v.uncovered.unavailable)
  {
    var u := Uncovered(sort, rep);
    ChecksByTool(sort, u.skipped);
    ChecksByTool(sort, u.crashed);
    ChecksByTool(sort, u.timedOut);
    ChecksByTool(sort, u.unavailable);
    assert VerdictOf(sort, cfg, rep).uncovered == SortChecks(sort, u);
    VerdictListsAscend(sort, cfg, rep);
    ResidualByFinding(sort, cfg, rep);
  }

  lemma {:induction false} ResidualByFinding(sort: Sorter, cfg: Config, rep: ReportValue)
    ensures var r := Residual(sort, cfg, rep); forall i, j | 0 <= i < j < |r| :: StrLess(r[i].findingID, r[j].findingID)
  {
    var fs, r := OrderedFindings(sort, rep), Residual(sort, cfg, rep);
    var items := ResidualItems(cfg, RefTime(rep), fs, |fs|);
    OrderedFindingsDistinct(sort, rep);
    AscendingIsDistinct(fs);
    ResidualFindingsDistinct(cfg, RefTime(rep), fs, |fs|);
    SortByKeepsDistinct(sort, ResidualKey, FindingKeyOf, items);
    forall i, j | 0 <= i < j < |r| ensures StrLess(r[i].findingID, r[j].findingID) {
      assert KeyLe(ResidualKey(r[i]), ResidualKey(r[j]));
      assert FindingKeyOf(r[i]) != FindingKeyOf(r[j]);
    }
  }

  function FindingKeyOf(i: ResidualRiskItem): Key { (i.findingID, "") }

  lemma {:induction false} ResidualFindingsDistinct(cfg: Config, refTime: string, fs: seq<Finding>, n: nat)
    requires n <= |fs| && DistinctBy(IDKey, fs)
    ensures DistinctBy(FindingKeyOf, ResidualItems(cfg, refTime, fs, n))
    decreases n
  {
    ResidualItemsDistinct(cfg, refTime, fs, n);
    if n > 0 {
      ResidualFindingsDistinct(cfg, refTime, fs, n - 1);
      ResidualItemsDistinct(cfg, refTime, fs, n - 1);
      var before := ResidualItems(cfg, refTime, fs, n - 1);
      forall i | 0 <= i < |before| ensures before[i].findingID != fs[n - 1].id {
        assert before[i] in before;
        var k :| 0 <= k < n - 1 && fs[k].id == before[i].findingID;
        assert IDKey(fs[k]) != IDKey(fs[n - 1]);
      }
    }
  }
}
