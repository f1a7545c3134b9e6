// What Evaluate's outcome means, stated about the configuration and the report alone.
module PolicyOutcome {
  import opened Options
  import opened Text
  import opened Sorting
  import opened Evidence
  import opened Policy

  // ---- The last run of a tool ----

  lemma {:induction false} LastRunOrigin(runs: seq<RunOutcome>, n: nat, tool: string)
    requires n <= |runs|
    ensures var l := LastRun(runs, n, tool);
            match l
            case None => forall k | 0 <= k < n :: runs[k].tool != tool
            case Some(r) => r.tool == tool && exists i | 0 <= i < n :: runs[i] == r && forall k | i < k < n :: runs[k].tool != tool
    decreases n
  {
    if n > 0 && runs[n - 1].tool != tool { LastRunOrigin(runs, n - 1, tool); }
  }

  // Of a tool's runs, the one that counts has the greatest command.
  lemma {:induction false} LastRunIsGreatest(sort: Sorter, rep: ReportValue, tool: string)
    ensures var runs := OrderedRuns(sort, rep);
            match LastRun(runs, |runs|, tool)
            case None => forall r | r in rep.runs :: r.tool != tool
            case Some(last) =>
              last in rep.runs && last.tool == tool &&
              forall r | r in rep.runs && r.tool == tool :: StrLe(r.command, last.command)
  {
    var runs := OrderedRuns(sort, rep);
    LastRunOrigin(runs, |runs|, tool);
    match LastRun(runs, |runs|, tool)
    case None =>
      forall r | r in rep.runs ensures r.tool != tool {
        assert r in runs;
      }
    case Some(last) =>
      var i :| 0 <= i < |runs| && runs[i] == last && forall k | i < k < |runs| :: runs[k].tool != tool;
      assert runs[i] in rep.runs;
      forall r | r in rep.runs && r.tool == tool ensures StrLe(r.command, last.command) {
        assert r in runs;
        var j :| 0 <= j < |runs| && runs[j] == r;
        if j < i { assert KeyLe(RunKey(runs[j]), RunKey(runs[i])); }
        StrLeTotal(r.command, r.command);
      }
  }

  // ---- Required adapters ----

  ghost predicate ReportedUnavailable(rep: ReportValue, name: string) {
    || (exists r | r in rep.runs :: r.tool == name && (r.status == NotInstalled || r.status == Unavailable))
    || (exists u | u in rep.uncovered.unavailable :: u.tool == name)
  }

  // The run of an adapter that counts ended with status ok or ok-findings.
  ghost predicate RanToCompletion(sort: Sorter, rep: ReportValue, name: string) {
    var runs := OrderedRuns(sort, rep);
    var last := LastRun(runs, |runs|, name);
    last.Some? && (last.value.status == OK || last.value.status == FindingsPresent)
  }

  ghost predicate Satisfied(sort: Sorter, rep: ReportValue, name: string) {
    !ReportedUnavailable(rep, name) && RanToCompletion(sort, rep, name)
  }

  lemma {:induction false} StandingsExact(runs: seq<RunOutcome>, names: seq<string>, n: nat, s: Standing,
                                          name: string)
    requires n <= |names|
    ensures name in Standings(runs, names, n, s)
       <==> name in names[..n] && StandingOf(LastRun(runs, |runs|, name)) == s
    decreases n
  {
    if n > 0 {
      StandingsExact(runs, names, n - 1, s, name);
      assert names[..n] == names[..n - 1] + [names[n - 1]];
    }
  }

  lemma {:induction false} NameUnavailableExact(acc: seq<string>, tool: string, names: seq<string>, n: nat)
    requires n <= |names|
    ensures NameUnavailable(acc, tool, names, n) == if tool in names[..n] && tool !in acc then acc + [tool] else acc
    decreases n
  {
    if n > 0 {
      NameUnavailableExact(acc, tool, names, n - 1);
      assert names[..n] == names[..n - 1] + [names[n - 1]];
    }
  }

  ghost predicate Named(checks: seq<UncoveredCheck>, n: nat, name: string)
    requires n <= |checks|
  {
    exists k | 0 <= k < n :: checks[k].tool == name
  }

  lemma {:induction false} NameAllExact(acc: seq<string>, checks: seq<UncoveredCheck>, n: nat, names: seq<string>,
                                        name: string)
    requires n <= |checks|
    ensures name in NameAllUnavailable(acc, checks, n, names) <==> name in acc || (name in names && Named(checks, n, name))
    decreases n
  {
    if n > 0 {
      NameAllExact(acc, checks, n - 1, names, name);
      NameUnavailableExact(NameAllUnavailable(acc, checks, n - 1, names), checks[n - 1].tool, names, |names|);
      assert names[..|names|] == names;
    }
  }

  lemma {:induction false} RunChecksUnavailable(runs: seq<RunOutcome>, n: nat, name: string)
    requires n <= |runs|
    ensures var u := RunChecks(runs, n).unavailable;
            Named(u, |u|, name) <==>
              exists k | 0 <= k < n :: runs[k].tool == name && (runs[k].status == NotInstalled || runs[k].status == Unavailable)
    decreases n
  {
    if n > 0 {
      RunChecksUnavailable(runs, n - 1, name);
      var before, after := RunChecks(runs, n - 1).unavailable, RunChecks(runs, n).unavailable;
      assert before <= after;
      if Named(before, |before|, name) {
        var k :| 0 <= k < |before| && before[k].tool == name;
        assert after[k].tool == name;
      }
      if |after| > |before| { assert after[|before|].tool == runs[n - 1].tool; }
    }
  }

  lemma {:induction false} NamedAppend(a: seq<UncoveredCheck>, b: seq<UncoveredCheck>, name: string)
    ensures Named(a + b, |a + b|, name) <==> Named(a, |a|, name) || Named(b, |b|, name)
  {
    var u := a + b;
    if k :| 0 <= k < |a| && a[k].tool == name { assert u[k].tool == name; }
    if k :| 0 <= k < |b| && b[k].tool == name { assert u[|a| + k].tool == name; }
    if k :| 0 <= k < |u| && u[k].tool == name {
      if k < |a| { assert a[k].tool == name; } else { assert b[k - |a|].tool == name; }
    }
  }

  lemma {:induction false} NamedMember(checks: seq<UncoveredCheck>, name: string)
    ensures Named(checks, |checks|, name) <==> exists u | u in checks :: u.tool == name
  {
    if u :| u in checks && u.tool == name {
      var k :| 0 <= k < |checks| && checks[k] == u;
      assert checks[k].tool == name;
    }
  }

  lemma {:induction false} RunsNamed(sort: Sorter, rep: ReportValue, name: string)
    ensures var runs := OrderedRuns(sort, rep);
            var u := RunChecks(runs, |runs|).unavailable;
            Named(u, |u|, name) <==>
              exists r | r in rep.runs :: r.tool == name && (r.status == NotInstalled || r.status == Unavailable)
  {
    var runs := OrderedRuns(sort, rep);
    RunChecksUnavailable(runs, |runs|, name);
    if r :| r in rep.runs && r.tool == name && (r.status == NotInstalled || r.status == Unavailable) {
      assert r in runs;
      var k :| 0 <= k < |runs| && runs[k] == r;
    }
    if k :| 0 <= k < |runs| && runs[k].tool == name && (runs[k].status == NotInstalled || runs[k].status == Unavailable) {
      assert runs[k] in rep.runs;
    }
  }

  lemma {:induction false} UncoveredNamesUnavailable(sort: Sorter, rep: ReportValue, name: string)
    ensures var u := Uncovered(sort, rep).unavailable; Named(u, |u|, name) <==> ReportedUnavailable(rep, name)
  {
    var runs := OrderedRuns(sort, rep);
    NamedAppend(RunChecks(runs, |runs|).unavailable, rep.uncovered.unavailable, name);
    NamedMember(rep.uncovered.unavailable, name);
    RunsNamed(sort, rep, name);
  }

  // ---- Incomplete ----

  ghost predicate SomeLacking(sort: Sorter, cfg: Config, rep: ReportValue, name: string) {
    || name in UnavailableNames(sort, cfg, rep)
    || name in Lacking(sort, cfg, rep, NeverRan)
    || name in Lacking(sort, cfg, rep, Failed)
  }

  lemma {:induction false} LackingExactly(sort: Sorter, cfg: Config, rep: ReportValue, name: string)
    ensures SomeLacking(sort, cfg, rep, name) <==> name in cfg.required && !Satisfied(sort, rep, name)
  {
    var runs, names := OrderedRuns(sort, rep), SortStrings(cfg.required);
    var checks := Uncovered(sort, rep).unavailable;
    SortStringsMembers(cfg.required);
    assert names[..|names|] == names;
    StandingsExact(runs, names, |names|, NotAvailable, name);
    StandingsExact(runs, names, |names|, NeverRan, name);
    StandingsExact(runs, names, |names|, Failed, name);
    NameAllExact(Lacking(sort, cfg, rep, NotAvailable), checks, |checks|, names, name);
    UncoveredNamesUnavailable(sort, rep, name);
  }

  ghost predicate AnyLacking(sort: Sorter, cfg: Config, rep: ReportValue) {
    || UnavailableNames(sort, cfg, rep) != []
    || Lacking(sort, cfg, rep, NeverRan) != []
    || Lacking(sort, cfg, rep, Failed) != []
  }

  lemma {:induction false} AnyLackingExactly(sort: Sorter, cfg: Config, rep: ReportValue)
    ensures AnyLacking(sort, cfg, rep) <==> exists name :: SomeLacking(sort, cfg, rep, name)
  {
    var u, m, f := UnavailableNames(sort, cfg, rep), Lacking(sort, cfg, rep, NeverRan), Lacking(sort, cfg, rep, Failed);
    if u != [] { assert SomeLacking(sort, cfg, rep, u[0]); }
    if m != [] { assert SomeLacking(sort, cfg, rep, m[0]); }
    if f != [] { assert SomeLacking(sort, cfg, rep, f[0]); }
  }

  lemma {:induction false} IncompleteWhenLacking(sort: Sorter, cfg: Config, rep: ReportValue)
    ensures VerdictOf(sort, cfg, rep).outcome == Incomplete <==> AnyLacking(sort, cfg, rep)
  {
  }

  // The verdict is incomplete exactly when a required adapter is unavailable, did not run, or did not
  // run to completion: nothing else about the report can make it so, and nothing can outweigh it.
  lemma {:induction false} IncompleteExactly(sort: Sorter, cfg: Config, rep: ReportValue)
    ensures VerdictOf(sort, cfg, rep).outcome == Incomplete
       <==> exists name | name in cfg.required :: !Satisfied(sort, rep, name)
  {
    IncompleteWhenLacking(sort, cfg, rep);
    AnyLackingExactly(sort, cfg, rep);
    forall name ensures SomeLacking(sort, cfg, rep, name) <==> name in cfg.required && !Satisfied(sort, rep, name) {
      LackingExactly(sort, cfg, rep, name);
    }
  }

  // The names given as unavailable are exactly the required adapters that are so.
  lemma {:induction false} UnavailableNamesExactly(sort: Sorter, cfg: Config, rep: ReportValue, name: string)
    ensures name in UnavailableNames(sort, cfg, rep) <==>
            name in cfg.required &&
            (ReportedUnavailable(rep, name) ||
             var runs := OrderedRuns(sort, rep); StandingOf(LastRun(runs, |runs|, name)) == NotAvailable)
  {
    var runs, names := OrderedRuns(sort, rep), SortStrings(cfg.required);
    var checks := Uncovered(sort, rep).unavailable;
    SortStringsMembers(cfg.required);
    assert names[..|names|] == names;
    StandingsExact(runs, names, |names|, NotAvailable, name);
    NameAllExact(Lacking(sort, cfg, rep, NotAvailable), checks, |checks|, names, name);
    UncoveredNamesUnavailable(sort, rep, name);
  }

  // ---- Acceptance ----

  predicate NamesID(rule: AcceptedRiskRule, id: string) { rule.findingID != "" && rule.findingID == id }
  predicate NamesRule(rule: AcceptedRiskRule, id: string) { rule.ruleID != "" && rule.ruleID == id }

  ghost predicate SomeNamesID(rules: seq<AcceptedRiskRule>, id: string) {
    exists k | 0 <= k < |rules| :: NamesID(rules[k], id)
  }

  ghost predicate SomeNamesRule(rules: seq<AcceptedRiskRule>, id: string) {
    exists k | 0 <= k < |rules| :: NamesRule(rules[k], id)
  }

  ghost predicate LastNamingID(rules: seq<AcceptedRiskRule>, k: nat, n: nat, id: string)
    requires k < n <= |rules|
  {
    NamesID(rules[k], id) && forall j | k < j < n :: !NamesID(rules[j], id)
  }

  lemma {:induction false} RuleForFindingExact(rules: seq<AcceptedRiskRule>, n: nat, id: string)
    requires n <= |rules|
    ensures match RuleForFinding(rules, n, id)
            case None => forall k | 0 <= k < n :: !NamesID(rules[k], id)
            case Some(r) => exists k | 0 <= k < n :: rules[k] == r && LastNamingID(rules, k, n, id)
    decreases n
  {
    if n > 0 {
      RuleForFindingExact(rules, n - 1, id);
      if NamesID(rules[n - 1], id) {
        assert LastNamingID(rules, n - 1, n, id);
      } else if RuleForFinding(rules, n - 1, id).Some? {
        var k :| 0 <= k < n - 1 && rules[k] == RuleForFinding(rules, n - 1, id).value && LastNamingID(rules, k, n - 1, id);
        assert LastNamingID(rules, k, n, id);
      }
    }
  }

  lemma {:induction false} RuleForRuleExact(rules: seq<AcceptedRiskRule>, n: nat, id: string)
    requires n <= |rules|
    ensures match RuleForRule(rules, n, id)
            case None => forall k | 0 <= k < n :: !NamesRule(rules[k], id)
            case Some(r) => r in rules && NamesRule(r, id)
    decreases n
  {
    if n > 0 { RuleForRuleExact(rules, n - 1, id); }
  }

  lemma {:induction false} RuleForAnyExact(rules: seq<AcceptedRiskRule>, ids: seq<string>)
    ensures match RuleForAny(rules, ids)
            case None => forall i | 0 <= i < |ids| :: !SomeNamesID(rules, ids[i])
            case Some(r) => r in rules && r.findingID in ids && r.findingID != ""
    decreases |ids|
  {
    if ids != [] {
      RuleForFindingExact(rules, |rules|, ids[0]);
      RuleForAnyExact(rules, ids[1..]);
      if RuleForAny(rules, ids) == None {
        forall i | 0 <= i < |ids| ensures !SomeNamesID(rules, ids[i]) {
          if i > 0 { assert ids[i] == ids[1..][i - 1]; }
        }
      }
    }
  }

  // Some rule accepts the finding, by its id, its rule, or an id it lists as duplicate or related.
  ghost predicate AcceptedBySome(rules: seq<AcceptedRiskRule>, f: Finding) {
    || SomeNamesID(rules, f.id) || SomeNamesRule(rules, f.ruleID)
    || (exists i | 0 <= i < |f.duplicates| :: SomeNamesID(rules, f.duplicates[i]))
    || (exists i | 0 <= i < |f.related| :: SomeNamesID(rules, f.related[i]))
  }

  // A finding is accepted exactly when some rule accepts it or its challenge status says so. A rule
  // that names its own id goes before every other, one that names its rule before those that name a
  // listed id, and the challenge status counts only when no rule does.
  lemma {:induction false} AcceptanceExactly(rules: seq<AcceptedRiskRule>, f: Finding)
    ensures Acceptance(rules, f).Some? <==> AcceptedBySome(rules, f) || f.challenge == AcceptedRisk
    ensures SomeNamesID(rules, f.id) ==> Acceptance(rules, f).Some? && NamesID(Acceptance(rules, f).value, f.id)
    ensures !SomeNamesID(rules, f.id) && SomeNamesRule(rules, f.ruleID) ==>
      Acceptance(rules, f).Some? && NamesRule(Acceptance(rules, f).value, f.ruleID)
    ensures AcceptedBySome(rules, f) ==> Acceptance(rules, f).Some? && Acceptance(rules, f).value in rules
  {
    RuleForFindingExact(rules, |rules|, f.id);
    RuleForRuleExact(rules, |rules|, f.ruleID);
    RuleForAnyExact(rules, f.duplicates);
    RuleForAnyExact(rules, f.related);
    var own := RuleForFinding(rules, |rules|, f.id);
    if own.Some? {
      var k :| 0 <= k < |rules| && rules[k] == own.value && LastNamingID(rules, k, |rules|, f.id);
      assert NamesID(rules[k], f.id);
    }
    if RuleForAny(rules, f.duplicates).Some? { ListedRuleNames(rules, f.duplicates); }
    if RuleForAny(rules, f.related).Some? { ListedRuleNames(rules, f.related); }
    var rule := RuleForRule(rules, |rules|, f.ruleID);
    if rule.Some? {
      var k :| 0 <= k < |rules| && rules[k] == rule.value;
      assert NamesRule(rules[k], f.ruleID);
    }
  }

  lemma {:induction false} ListedRuleNames(rules: seq<AcceptedRiskRule>, ids: seq<string>)
    requires RuleForAny(rules, ids).Some?
    ensures exists i | 0 <= i < |ids| :: SomeNamesID(rules, ids[i])
  {
    RuleForAnyExact(rules, ids);
    var r := RuleForAny(rules, ids).value;
    var k :| 0 <= k < |rules| && rules[k] == r;
    var i :| 0 <= i < |ids| && ids[i] == r.findingID;
    assert NamesID(rules[k], ids[i]);
  }

  // A finding blocks exactly when it is not rejected or fixed, its severity is a blocking one, and it
  // has no acceptance or one that has expired.
  lemma {:induction false} BlocksExactly(cfg: Config, refTime: string, f: Finding)
    ensures Dispose(cfg, refTime, f) == Blocks <==>
      && f.challenge != Rejected && f.challenge != Fixed && f.severity in cfg.blockingSeverities
      && (AcceptedBySome(cfg.acceptedRisks, f) || f.challenge == AcceptedRisk ==>
            Acceptance(cfg.acceptedRisks, f).Some? && Expired(Acceptance(cfg.acceptedRisks, f).value, refTime))
  {
    AcceptanceExactly(cfg.acceptedRisks, f);
  }

  // ---- The finding stage ----

  lemma {:induction false} BlockingIDsExact(cfg: Config, refTime: string, fs: seq<Finding>, n: nat, id: string)
    requires n <= |fs|
    ensures id in BlockingIDs(cfg, refTime, fs, n)
       <==> exists k | 0 <= k < n :: fs[k].id == id && Dispose(cfg, refTime, fs[k]) == Blocks
    decreases n
  {
    if n > 0 { BlockingIDsExact(cfg, refTime, fs, n - 1, id); }
  }

  lemma {:induction false} ResidualItemsExact(cfg: Config, refTime: string, fs: seq<Finding>, n: nat,
                                              i: ResidualRiskItem)
    requires n <= |fs|
    ensures i in ResidualItems(cfg, refTime, fs, n)
       <==> exists k | 0 <= k < n :: HasItem(cfg, refTime, fs[k], i)
    decreases n
  {
    if n > 0 { ResidualItemsExact(cfg, refTime, fs, n - 1, i); }
  }

  ghost predicate HasItem(cfg: Config, refTime: string, f: Finding, i: ResidualRiskItem) {
    var d := Dispose(cfg, refTime, f);
    d.Accepted? && i == ItemOf(f, d.rule)
  }

  lemma {:induction false} BlockingExactly(sort: Sorter, cfg: Config, rep: ReportValue, id: string)
    ensures id in Blocking(sort, cfg, rep)
       <==> exists f | f in OrderedFindings(sort, rep) :: f.id == id && Dispose(cfg, RefTime(rep), f) == Blocks
  {
    var fs := OrderedFindings(sort, rep);
    BlockingIDsExact(cfg, RefTime(rep), fs, |fs|, id);
    SortStringsMembers(BlockingIDs(cfg, RefTime(rep), fs, |fs|));
    if f :| f in fs && f.id == id && Dispose(cfg, RefTime(rep), f) == Blocks {
      var k :| 0 <= k < |fs| && fs[k] == f;
      assert fs[k].id == id && Dispose(cfg, RefTime(rep), fs[k]) == Blocks;
    }
  }

  lemma {:induction false} ResidualExactly(sort: Sorter, cfg: Config, rep: ReportValue, i: ResidualRiskItem)
    ensures i in Residual(sort, cfg, rep)
       <==> exists f | f in OrderedFindings(sort, rep) :: HasItem(cfg, RefTime(rep), f, i)
  {
    var fs := OrderedFindings(sort, rep);
    ResidualItemsExact(cfg, RefTime(rep), fs, |fs|, i);
    if f :| f in fs && HasItem(cfg, RefTime(rep), f, i) {
      var k :| 0 <= k < |fs| && fs[k] == f;
      assert HasItem(cfg, RefTime(rep), fs[k], i);
    }
  }

  ghost predicate AllSatisfied(sort: Sorter, cfg: Config, rep: ReportValue) {
    forall name | name in cfg.required :: Satisfied(sort, rep, name)
  }

  // Every required adapter satisfied, and the working tree allowed: the verdict turns on findings.
  ghost predicate ReachesFindings(sort: Sorter, cfg: Config, rep: ReportValue) {
    AllSatisfied(sort, cfg, rep) && (cfg.allowDirty || !rep.dirty)
  }

  ghost predicate AnyBlocks(sort: Sorter, cfg: Config, rep: ReportValue) {
    exists f | f in OrderedFindings(sort, rep) :: Dispose(cfg, RefTime(rep), f) == Blocks
  }

  ghost predicate AnyAccepted(sort: Sorter, cfg: Config, rep: ReportValue) {
    exists f | f in OrderedFindings(sort, rep) :: Dispose(cfg, RefTime(rep), f).Accepted?
  }

  lemma {:induction false} BlockingEmptyExactly(sort: Sorter, cfg: Config, rep: ReportValue)
    ensures Blocking(sort, cfg, rep) != [] <==> AnyBlocks(sort, cfg, rep)
  {
    var b := Blocking(sort, cfg, rep);
    if b != [] { BlockingExactly(sort, cfg, rep, b[0]); }
    if f :| f in OrderedFindings(sort, rep) && Dispose(cfg, RefTime(rep), f) == Blocks {
      BlockingExactly(sort, cfg, rep, f.id);
    }
  }

  lemma {:induction false} ResidualEmptyExactly(sort: Sorter, cfg: Config, rep: ReportValue)
    ensures Residual(sort, cfg, rep) != [] <==> AnyAccepted(sort, cfg, rep)
  {
    var r := Residual(sort, cfg, rep);
    if r != [] { ResidualExactly(sort, cfg, rep, r[0]); }
    if f :| f in OrderedFindings(sort, rep) && Dispose(cfg, RefTime(rep), f).Accepted? {
      var i := ItemOf(f, Dispose(cfg, RefTime(rep), f).rule);
      assert HasItem(cfg, RefTime(rep), f, i);
      ResidualExactly(sort, cfg, rep, i);
    }
  }

  lemma {:induction false} ReachesFindingsExactly(sort: Sorter, cfg: Config, rep: ReportValue)
    ensures Shortfall(sort, cfg, rep) == None <==> ReachesFindings(sort, cfg, rep)
  {
    IncompleteExactly(sort, cfg, rep);
    if Shortfall(sort, cfg, rep) == None {
      assert VerdictOf(sort, cfg, rep).outcome != Incomplete;
    }
  }

  lemma {:induction false} IncompleteUnlessSatisfied(sort: Sorter, cfg: Config, rep: ReportValue)
    ensures VerdictOf(sort, cfg, rep).outcome == Incomplete <==> !AllSatisfied(sort, cfg, rep)
  {
    IncompleteExactly(sort, cfg, rep);
  }

  lemma {:induction false} OutcomeByStage(sort: Sorter, cfg: Config, rep: ReportValue)
    ensures var outcome, short := VerdictOf(sort, cfg, rep).outcome, Shortfall(sort, cfg, rep);
            if short.Some? then outcome == Incomplete || outcome == Blocked
            else if Blocking(sort, cfg, rep) != [] then outcome == Blocked
            else if Residual(sort, cfg, rep) != [] then outcome == ClearedWithResidualRisk
            else outcome == Cleared
  {
  }

  // The four outcomes, each characterised: requirements first, then the working tree, then findings
  // that block, then accepted risks.
  lemma {:induction false} OutcomeExactly(sort: Sorter, cfg: Config, rep: ReportValue)
    ensures var outcome := VerdictOf(sort, cfg, rep).outcome;
            var satisfied := AllSatisfied(sort, cfg, rep);
            var allowed := cfg.allowDirty || !rep.dirty;
            && (outcome == Incomplete <==> !satisfied)
            && (outcome == Blocked <==> satisfied && (!allowed || AnyBlocks(sort, cfg, rep)))
            && (outcome == ClearedWithResidualRisk <==>
                satisfied && allowed && !AnyBlocks(sort, cfg, rep) && AnyAccepted(sort, cfg, rep))
            && (outcome == Cleared <==>
                satisfied && allowed && !AnyBlocks(sort, cfg, rep) && !AnyAccepted(sort, cfg, rep))
  {
    IncompleteUnlessSatisfied(sort, cfg, rep);
    ReachesFindingsExactly(sort, cfg, rep);
    BlockingEmptyExactly(sort, cfg, rep);
    ResidualEmptyExactly(sort, cfg, rep);
    OutcomeByStage(sort, cfg, rep);
  }

  // ---- The ledger ----

  function Tally(cfg: Config, refTime: string, fs: seq<Finding>, n: nat, d: Disposition): nat
    requires n <= |fs|
  {
    if n == 0 then 0
    else Tally(cfg, refTime, fs, n - 1, d) + if Dispose(cfg, refTime, fs[n - 1]) == d then 1 else 0
  }

  lemma {:induction false} TallyAddsUp(cfg: Config, refTime: string, fs: seq<Finding>, n: nat)
    requires n <= |fs|
    ensures n == |BlockingIDs(cfg, refTime, fs, n)| + |ResidualItems(cfg, refTime, fs, n)|
               + Tally(cfg, refTime, fs, n, Dropped) + Tally(cfg, refTime, fs, n, Harmless)
    decreases n
  {
    if n > 0 { TallyAddsUp(cfg, refTime, fs, n - 1); }
  }

  lemma {:induction false} FirstOfEachIDExact(fs: seq<Finding>, n: nat)
    requires n <= |fs|
    ensures var r := FirstOfEachID(fs, n);
            && (forall i, j | 0 <= i < j < |r| :: r[i].id != r[j].id)
            && (forall f | f in r :: f in fs[..n])
            && (forall k | 0 <= k < n :: HasID(r, fs[k].id))
    decreases n
  {
    if n > 0 {
      FirstOfEachIDExact(fs, n - 1);
      var before, r := FirstOfEachID(fs, n - 1), FirstOfEachID(fs, n);
      assert fs[..n] == fs[..n - 1] + [fs[n - 1]];
      HasIDAppend(before, fs[n - 1]);
    }
  }

  lemma {:induction false} FirstOfDistinct(fs: seq<Finding>, n: nat)
    requires n <= |fs| && forall i, j | 0 <= i < j < |fs| :: fs[i].id != fs[j].id
    ensures FirstOfEachID(fs, n) == fs[..n]
    decreases n
  {
    if n > 0 {
      FirstOfDistinct(fs, n - 1);
      assert fs[..n] == fs[..n - 1] + [fs[n - 1]];
      var last := n - 1;
      forall k | 0 <= k < last ensures fs[k].id != fs[last].id {
      }
      assert !HasID(fs[..last], fs[last].id);
    }
  }

  lemma {:induction false} OrderedFindingsDistinct(sort: Sorter, rep: ReportValue)
    ensures AscendingBy(IDKey, OrderedFindings(sort, rep))
  {
    var runs := OrderedRuns(sort, rep);
    var fs := if rep.findings != [] then rep.findings else FindingsOfRuns(runs, |runs|);
    FirstOfEachIDExact(fs, |fs|);
    assert DistinctBy(IDKey, AllFindings(runs, rep));
    SortByAscends(sort, IDKey, AllFindings(runs, rep));
  }

  lemma {:induction false} BlockingLength(sort: Sorter, cfg: Config, rep: ReportValue)
    ensures var fs := OrderedFindings(sort, rep);
            |Blocking(sort, cfg, rep)| == |BlockingIDs(cfg, RefTime(rep), fs, |fs|)|
  {
    var fs := OrderedFindings(sort, rep);
    var ids := BlockingIDs(cfg, RefTime(rep), fs, |fs|);
    assert |multiset(SortStrings(ids))| == |multiset(ids)|;
  }

  // Each distinct finding is dropped, blocking, accepted or harmless, and the four counts add up.
  lemma {:induction false} LedgerAddsUp(sort: Sorter, cfg: Config, rep: ReportValue)
    ensures var fs := OrderedFindings(sort, rep);
            && AscendingBy(IDKey, fs)
            && |fs| == |Blocking(sort, cfg, rep)| + |Residual(sort, cfg, rep)|
                     + Tally(cfg, RefTime(rep), fs, |fs|, Dropped) + Tally(cfg, RefTime(rep), fs, |fs|, Harmless)
  {
    var fs := OrderedFindings(sort, rep);
    OrderedFindingsDistinct(sort, rep);
    TallyAddsUp(cfg, RefTime(rep), fs, |fs|);
    BlockingLength(sort, cfg, rep);
  }

  // ---- Time ----

  lemma {:induction false} ExpiryIsForever(rule: AcceptedRiskRule, earlier: string, later: string)
    requires StrLe(earlier, later) && Expired(rule, earlier)
    ensures Expired(rule, later)
  {
    StrLeTransitive(rule.expiresAt, earlier, later);
    StrLeTotal(rule.expiresAt, earlier);
  }

  lemma {:induction false} DispositionOverTime(cfg: Config, earlier: string, later: string, f: Finding)
    requires StrLe(earlier, later)
    ensures Dispose(cfg, earlier, f) == Blocks ==> Dispose(cfg, later, f) == Blocks
    ensures Dispose(cfg, later, f).Accepted? ==> Dispose(cfg, earlier, f) == Dispose(cfg, later, f)
    ensures Dispose(cfg, later, f) == Blocks ==> Dispose(cfg, earlier, f) == Blocks || Dispose(cfg, earlier, f).Accepted?
  {
    var a := Acceptance(cfg.acceptedRisks, f);
    if a.Some? && Expired(a.value, earlier) { ExpiryIsForever(a.value, earlier, later); }
  }

  // As time passes, acceptances only lapse: blocking findings stay, accepted risks only leave, a
  // blocked report stays blocked, a cleared one stays cleared, an incomplete one stays incomplete.
  lemma {:induction false} VerdictOverTime(sort: Sorter, cfg: Config, rep: ReportValue, startedAt: string,
                                           completedAt: string)
    requires StrLe(RefTime(rep), RefTime(rep.(startedAt := startedAt, completedAt := completedAt)))
    ensures var later := rep.(startedAt := startedAt, completedAt := completedAt);
            var v, v' := VerdictOf(sort, cfg, rep), VerdictOf(sort, cfg, later);
            && (forall id | id in v.blocking :: id in v'.blocking)
            && (forall i | i in v'.residual :: i in v.residual)
            && (v.outcome == Incomplete <==> v'.outcome == Incomplete)
            && (v.outcome == Blocked ==> v'.outcome == Blocked)
            && (v.outcome == Cleared ==> v'.outcome == Cleared)
  {
    var later := rep.(startedAt := startedAt, completedAt := completedAt);
    assert Shortfall(sort, cfg, rep) == Shortfall(sort, cfg, later);
    assert OrderedFindings(sort, rep) == OrderedFindings(sort, later);
    FindingsOverTime(sort, cfg, rep, later);
  }

  lemma {:induction false} FindingsOverTime(sort: Sorter, cfg: Config, rep: ReportValue, later: ReportValue)
    requires OrderedFindings(sort, rep) == OrderedFindings(sort, later) && StrLe(RefTime(rep), RefTime(later))
    ensures forall id | id in Blocking(sort, cfg, rep) :: id in Blocking(sort, cfg, later)
    ensures forall i | i in Residual(sort, cfg, later) :: i in Residual(sort, cfg, rep)
    ensures Blocking(sort, cfg, rep) != [] ==> Blocking(sort, cfg, later) != []
    ensures Blocking(sort, cfg, rep) == [] && Residual(sort, cfg, rep) == [] ==>
      Blocking(sort, cfg, later) == [] && Residual(sort, cfg, later) == []
  {
    forall id | id in Blocking(sort, cfg, rep) ensures id in Blocking(sort, cfg, later) {
      BlockingCarriesOver(sort, cfg, rep, later, id);
    }
    forall i | i in Residual(sort, cfg, later) ensures i in Residual(sort, cfg, rep) {
      ResidualCarriesBack(sort, cfg, rep, later, i);
    }
    if Blocking(sort, cfg, rep) != [] {
      assert Blocking(sort, cfg, rep)[0] in Blocking(sort, cfg, later);
    } else if Residual(sort, cfg, rep) == [] {
      StaysCleared(sort, cfg, rep, later);
    }
  }

  lemma {:induction false} BlockingCarriesOver(sort: Sorter, cfg: Config, rep: ReportValue, later: ReportValue,
                                               id: string)
    requires OrderedFindings(sort, rep) == OrderedFindings(sort, later) && StrLe(RefTime(rep), RefTime(later))
    requires id in Blocking(sort, cfg, rep)
    ensures id in Blocking(sort, cfg, later)
  {
    BlockingExactly(sort, cfg, rep, id);
    var f :| f in OrderedFindings(sort, rep) && f.id == id && Dispose(cfg, RefTime(rep), f) == Blocks;
    DispositionOverTime(cfg, RefTime(rep), RefTime(later), f);
    BlockingExactly(sort, cfg, later, id);
  }

  lemma {:induction false} ResidualCarriesBack(sort: Sorter, cfg: Config, rep: ReportValue, later: ReportValue,
                                               i: ResidualRiskItem)
    requires OrderedFindings(sort, rep) == OrderedFindings(sort, later) && StrLe(RefTime(rep), RefTime(later))
    requires i in Residual(sort, cfg, later)
    ensures i in Residual(sort, cfg, rep)
  {
    ResidualExactly(sort, cfg, later, i);
    var f :| f in OrderedFindings(sort, later) && HasItem(cfg, RefTime(later), f, i);
    DispositionOverTime(cfg, RefTime(rep), RefTime(later), f);
    assert HasItem(cfg, RefTime(rep), f, i);
    ResidualExactly(sort, cfg, rep, i);
  }

  lemma {:induction false} StaysCleared(sort: Sorter, cfg: Config, rep: ReportValue, later: ReportValue)
    requires OrderedFindings(sort, rep) == OrderedFindings(sort, later) && StrLe(RefTime(rep), RefTime(later))
    requires Blocking(sort, cfg, rep) == [] && Residual(sort, cfg, rep) == []
    ensures Blocking(sort, cfg, later) == [] && Residual(sort, cfg, later) == []
  {
    BlockingEmptyExactly(sort, cfg, rep);
    ResidualEmptyExactly(sort, cfg, rep);
    BlockingEmptyExactly(sort, cfg, later);
    ResidualEmptyExactly(sort, cfg, later);
    if f :| f in OrderedFindings(sort, later) && Dispose(cfg, RefTime(later), f) == Blocks {
      DispositionOverTime(cfg, RefTime(rep), RefTime(later), f);
    }
    if f :| f in OrderedFindings(sort, later) && Dispose(cfg, RefTime(later), f).Accepted? {
      DispositionOverTime(cfg, RefTime(rep), RefTime(later), f);
    }
  }
}
