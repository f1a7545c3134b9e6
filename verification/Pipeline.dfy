// Correlation and evaluation together: what becomes of a record's severity.
module Pipeline {
  import opened Options
  import opened Sorting
  import opened Evidence
  import opened Merge
  import opened Components
  import opened Correlate
  import opened CorrelateOrder
  import opened Policy
  import opened PolicyOutcome
  import CO = CorrelateOrder
  import PO = PolicyOrder
  import PS = PolicyShuffle
  import D = Deduplicate
  import L = DeduplicateLedger
  import opened DeduplicateSeverity

  // ---- Severity ----

  // Whatever ranks at least as high as a blocking severity blocks too.
  ghost predicate UpwardClosed(blocking: seq<Severity>) {
    forall s, t | s in blocking && SeverityRank(t) >= SeverityRank(s) :: t in blocking
  }

  // The default configuration blocks critical and high.
  lemma {:induction false} DefaultUpwardClosed()
    ensures UpwardClosed([Critical, High])
  {
  }

  // The finding that stands for record k.
  ghost function Representative(w: Web, k: nat): Finding
    requires k < |w.refs|
  {
    Merged(GroupOf(w, k))
  }

  lemma {:induction false} SeverityOfComponent(w: Web, k: nat)
    requires k < |w.refs|
    ensures SeverityRank(w.refs[k].finding.severity) <= SeverityRank(Representative(w, k).severity)
  {
    InSortedComponent(w, k, k);
    var g := GroupOf(w, k);
    var i :| 0 <= i < |g| && g[i] == w.refs[k].finding;
    MergedKeepsEvidence(g, i);
  }

  // Every correlated finding is judged, since no two share an id.
  lemma {:induction false} CorrelatedIsJudged(env: Env, refs: seq<Ref>, findings: seq<Finding>, rep: ReportValue,
                                              c: Finding)
    requires IDsPresent(refs) && IsFindingList(WebOf(env, refs), findings) && rep.findings == findings && c in findings
    ensures c in OrderedFindings(env.sort, rep)
  {
    FindingIDsAscend(env, refs, findings);
    FirstOfDistinct(findings, |findings|);
    assert AllFindings(OrderedRuns(env.sort, rep), rep) == findings[..|findings|] == findings;
  }

  ghost predicate ComesToJudgement(v: Verdict, c: Finding) {
    || c.id in v.blocking
    || (exists i | i in v.residual :: i.findingID == c.id)
    || c.challenge == Rejected || c.challenge == Fixed
  }

  lemma {:induction false} BlockingSeverityIsJudged(sort: Sorter, cfg: Config, rep: ReportValue, c: Finding)
    requires Shortfall(sort, cfg, rep) == None && c in OrderedFindings(sort, rep) && c.severity in cfg.blockingSeverities
    ensures ComesToJudgement(VerdictOf(sort, cfg, rep), c)
  {
    BlockingExactly(sort, cfg, rep, c.id);
    if Dispose(cfg, RefTime(rep), c).Accepted? {
      var i := ItemOf(c, Dispose(cfg, RefTime(rep), c).rule);
      assert HasItem(cfg, RefTime(rep), c, i);
      ResidualExactly(sort, cfg, rep, i);
    }
  }

  // Every record of blocking severity that survives deduplication comes to judgement: the finding
  // that stands for it blocks, or is an accepted risk, or was challenged as rejected or fixed.
  lemma {:induction false} SeverityReachesVerdict(env: Env, cfg: Config, runs: seq<RunOutcome>,
                                                  findings: seq<Finding>, updated: seq<RunOutcome>,
                                                  rep: ReportValue, k: nat)
    requires IsCorrelation(env, runs, findings, updated) && IDsPresent(WebOfRuns(env, runs).refs)
    requires rep.findings == findings && UpwardClosed(cfg.blockingSeverities)
    requires Shortfall(env.sort, cfg, rep) == None
    requires k < |WebOfRuns(env, runs).refs|
    requires WebOfRuns(env, runs).refs[k].finding.severity in cfg.blockingSeverities
    ensures var c := Representative(WebOfRuns(env, runs), k);
            c in findings && ComesToJudgement(VerdictOf(env.sort, cfg, rep), c)
  {
    var w := WebOfRuns(env, runs);
    var c := Representative(w, k);
    assert IsMergedOf(w, k, c);
    ListedExactly(w, findings, c);
    SeverityOfComponent(w, k);
    CorrelatedIsJudged(env, w.refs, findings, rep, c);
    BlockingSeverityIsJudged(env.sort, cfg, rep, c);
  }

  // A critical record makes the finding that stands for it critical, so where critical blocks, whatever
  // else does, that finding comes to judgement.
  lemma {:induction false} CriticalReachesVerdict(env: Env, cfg: Config, runs: seq<RunOutcome>, findings: seq<Finding>,
                                                  updated: seq<RunOutcome>, rep: ReportValue, k: nat)
    requires IsCorrelation(env, runs, findings, updated) && IDsPresent(WebOfRuns(env, runs).refs)
    requires rep.findings == findings && Critical in cfg.blockingSeverities
    requires Shortfall(env.sort, cfg, rep) == None
    requires k < |WebOfRuns(env, runs).refs| && WebOfRuns(env, runs).refs[k].finding.severity == Critical
    ensures var c := Representative(WebOfRuns(env, runs), k);
            c in findings && c.severity == Critical && ComesToJudgement(VerdictOf(env.sort, cfg, rep), c)
  {
    var w := WebOfRuns(env, runs);
    var g, c := GroupOf(w, k), Representative(w, k);
    InSortedComponent(w, k, k);
    var i :| 0 <= i < |g| && g[i] == w.refs[k].finding;
    MergedSeverityExactly(g);
    assert IsMergedOf(w, k, c);
    ListedExactly(w, findings, c);
    CorrelatedIsJudged(env, w.refs, findings, rep, c);
    BlockingSeverityIsJudged(env.sort, cfg, rep, c);
  }

  lemma {:induction false} ClearedHoldsNothing(sort: Sorter, cfg: Config, rep: ReportValue)
    requires VerdictOf(sort, cfg, rep).outcome == Cleared
    ensures Shortfall(sort, cfg, rep) == None
    ensures VerdictOf(sort, cfg, rep).blocking == [] && VerdictOf(sort, cfg, rep).residual == []
  {
  }

  lemma {:induction false} JudgedByNothing(v: Verdict, c: Finding)
    requires ComesToJudgement(v, c) && v.blocking == [] && v.residual == []
    ensures c.challenge == Rejected || c.challenge == Fixed
  {
  }

  // So a cleared report leaves no such record, except under a finding challenged as rejected or fixed.
  lemma {:induction false} ClearedLeavesNothing(env: Env, cfg: Config, runs: seq<RunOutcome>, findings: seq<Finding>,
                             updated: seq<RunOutcome>, rep: ReportValue, k: nat)
    requires IsCorrelation(env, runs, findings, updated) && IDsPresent(WebOfRuns(env, runs).refs)
    requires rep.findings == findings && UpwardClosed(cfg.blockingSeverities)
    requires VerdictOf(env.sort, cfg, rep).outcome == Cleared
    requires k < |WebOfRuns(env, runs).refs|
    requires WebOfRuns(env, runs).refs[k].finding.severity in cfg.blockingSeverities
    ensures var c := Representative(WebOfRuns(env, runs), k); c.challenge == Rejected || c.challenge == Fixed
  {
    ClearedHoldsNothing(env.sort, cfg, rep);
    SeverityReachesVerdict(env, cfg, runs, findings, updated, rep, k);
    JudgedByNothing(VerdictOf(env.sort, cfg, rep), Representative(WebOfRuns(env, runs), k));
  }

  // ---- From the records that went in ----

  // A run's finding and the deduplicated record that stands for it.
  lemma {:induction false} SurvivingRecord(env: Env, runs: seq<RunOutcome>, r: nat, k: nat) returns (m: nat)
    requires r < |runs| && k < |runs[r].findings|
    ensures var refs, fs := WebOfRuns(env, runs).refs, runs[r].findings;
            m < |refs| && refs[m] == Ref(r, Keeper(env, fs, k), Survivor(env, fs, k))
  {
    m := PositionOf(DeduplicatedRuns(env, runs), r, Keeper(env, runs[r].findings, k));
  }

  ghost predicate IDsGiven(runs: seq<RunOutcome>) {
    forall r, k | 0 <= r < |runs| && 0 <= k < |runs[r].findings| :: runs[r].findings[k].id != ""
  }

  lemma {:induction false} GivenIDsArePresent(env: Env, runs: seq<RunOutcome>)
    requires IDsGiven(runs)
    ensures IDsPresent(WebOfRuns(env, runs).refs)
  {
    var refs, deduped := WebOfRuns(env, runs).refs, DeduplicatedRuns(env, runs);
    RefsExact(deduped, |deduped|);
    forall m | 0 <= m < |refs| ensures refs[m].finding.id != "" {
      var r, i := refs[m].runIdx, refs[m].findIdx;
      assert refs[m] in refs && IsRefOf(deduped, refs[m]);
      L.SurvivorIsItsHead(env, runs[r].findings, i);
    }
  }

  // c is what the component of the record that survives of a run's finding merges into.
  ghost predicate StandsFor(env: Env, runs: seq<RunOutcome>, r: nat, k: nat, c: Finding)
    requires r < |runs| && k < |runs[r].findings|
  {
    var w, fs := WebOfRuns(env, runs), runs[r].findings;
    exists m | 0 <= m < |w.refs| :: w.refs[m] == Ref(r, Keeper(env, fs, k), Survivor(env, fs, k)) && c == Representative(w, m)
  }

  // Every finding a scan collected that has a blocking severity comes to judgement, if deduplication
  // leaves a survivor that ranks as high in its place: some listed finding stands for it, ranks at
  // least as high, and blocks, or is an accepted risk, or was challenged as rejected or fixed.
  lemma {:induction false} InputReachesVerdict(env: Env, cfg: Config, runs: seq<RunOutcome>, findings: seq<Finding>,
                                               updated: seq<RunOutcome>, rep: ReportValue, r: nat, k: nat)
    returns (c: Finding)
    requires IsCorrelation(env, runs, findings, updated) && IDsGiven(runs)
    requires rep.findings == findings && UpwardClosed(cfg.blockingSeverities)
    requires Shortfall(env.sort, cfg, rep) == None
    requires r < |runs| && k < |runs[r].findings|
    requires Rank(runs[r].findings[k]) <= Rank(Survivor(env, runs[r].findings, k))
    requires runs[r].findings[k].severity in cfg.blockingSeverities
    ensures StandsFor(env, runs, r, k, c) && c in findings && Rank(runs[r].findings[k]) <= Rank(c)
    ensures ComesToJudgement(VerdictOf(env.sort, cfg, rep), c)
  {
    var m := SurvivingRecord(env, runs, r, k);
    c := Representative(WebOfRuns(env, runs), m);
    GivenIDsArePresent(env, runs);
    assert Survivor(env, runs[r].findings, k).severity in cfg.blockingSeverities;
    SeverityOfComponent(WebOfRuns(env, runs), m);
    SeverityReachesVerdict(env, cfg, runs, findings, updated, rep, m);
  }

  lemma {:induction false} ClearedLeavesNoInput(env: Env, cfg: Config, runs: seq<RunOutcome>, findings: seq<Finding>,
                                                updated: seq<RunOutcome>, rep: ReportValue, r: nat, k: nat)
    returns (c: Finding)
    requires IsCorrelation(env, runs, findings, updated) && IDsGiven(runs)
    requires rep.findings == findings && UpwardClosed(cfg.blockingSeverities)
    requires VerdictOf(env.sort, cfg, rep).outcome == Cleared
    requires r < |runs| && k < |runs[r].findings|
    requires Rank(runs[r].findings[k]) <= Rank(Survivor(env, runs[r].findings, k))
    requires runs[r].findings[k].severity in cfg.blockingSeverities
    ensures StandsFor(env, runs, r, k, c) && c in findings && Rank(runs[r].findings[k]) <= Rank(c)
    ensures c.challenge == Rejected || c.challenge == Fixed
  {
    ClearedHoldsNothing(env.sort, cfg, rep);
    c := InputReachesVerdict(env, cfg, runs, findings, updated, rep, r, k);
    JudgedByNothing(VerdictOf(env.sort, cfg, rep), c);
  }

  // Some finding that was challenged as rejected or fixed stands for a run's finding.
  ghost predicate Dismissed(env: Env, runs: seq<RunOutcome>, findings: seq<Finding>, r: nat, k: nat)
    requires r < |runs| && k < |runs[r].findings|
  {
    exists c | c in findings :: StandsFor(env, runs, r, k, c) && (c.challenge == Rejected || c.challenge == Fixed)
  }

  // So when every run lists its findings by falling severity, a cleared report has every finding of
  // blocking severity that went in dismissed.
  lemma {:induction false} ClearedWhenFalling(env: Env, cfg: Config, runs: seq<RunOutcome>, findings: seq<Finding>,
                                              updated: seq<RunOutcome>, rep: ReportValue)
    requires IsCorrelation(env, runs, findings, updated) && IDsGiven(runs)
    requires rep.findings == findings && UpwardClosed(cfg.blockingSeverities)
    requires VerdictOf(env.sort, cfg, rep).outcome == Cleared
    requires forall r | 0 <= r < |runs| :: RanksFall(runs[r].findings)
    ensures forall r, k | 0 <= r < |runs| && 0 <= k < |runs[r].findings| ::
      runs[r].findings[k].severity in cfg.blockingSeverities ==> Dismissed(env, runs, findings, r, k)
  {
    forall r, k | 0 <= r < |runs| && 0 <= k < |runs[r].findings| && runs[r].findings[k].severity in cfg.blockingSeverities
      ensures Dismissed(env, runs, findings, r, k)
    {
      FallingRanksAreKept(env, runs[r].findings);
      var c := ClearedLeavesNoInput(env, cfg, runs, findings, updated, rep, r, k);
    }
  }

  lemma {:induction false} SeverityIsARecords(w: Web, x: nat, c: Finding) returns (k: nat)
    requires IsMergedOf(w, x, c)
    ensures k < |w.refs| && w.refs[k].finding.severity == c.severity
  {
    var g := GroupOf(w, x);
    MergedKeepsEvidence(g, 0);
    var i :| 0 <= i < |g| && g[i].severity == Merged(g).severity;
    k := SortedComponentOrigin(w, x, i);
  }

  lemma {:induction false} ListedSeverityIsARecords(w: Web, findings: seq<Finding>, c: Finding) returns (k: nat)
    requires IsFindingList(w, findings) && c in findings
    ensures k < |w.refs| && w.refs[k].finding.severity == c.severity
  {
    ListedExactly(w, findings, c);
    var x :| IsMergedOf(w, x, c);
    k := SeverityIsARecords(w, x, c);
  }

  lemma {:induction false} OnlySurvivor(env: Env, fs: seq<Finding>) returns (only: Finding)
    requires fs != [] && fs[0].id != "" && OfOneID(fs, fs[0].id)
    ensures D.Deduplicated(env, fs) == [only] && only.severity == fs[0].severity
  {
    OneIDKeepsFirstExactly(env, fs);
    only := D.Deduplicated(env, fs)[0];
  }

  lemma {:induction false} RecordsOfOneRun(env: Env, run: RunOutcome, only: Finding, k: nat)
    requires D.Deduplicated(env, run.findings) == [only] && k < |WebOfRuns(env, [run]).refs|
    ensures WebOfRuns(env, [run]).refs[k].finding == only
  {
    var refs, deduped := WebOfRuns(env, [run]).refs, DeduplicatedRuns(env, [run]);
    RefsExact(deduped, |deduped|);
    assert refs[k] in refs && IsRefOf(deduped, refs[k]);
  }

  // In other orders a severity can be lost. Of a run whose findings share one id, the first one's severity is
  // all that is left after correlation.
  lemma {:induction false} FirstSeverityIsLeft(env: Env, run: RunOutcome, findings: seq<Finding>,
                                               updated: seq<RunOutcome>, c: Finding)
    requires IsCorrelation(env, [run], findings, updated) && c in findings
    requires run.findings != [] && run.findings[0].id != "" && OfOneID(run.findings, run.findings[0].id)
    ensures c.severity == run.findings[0].severity
  {
    var only := OnlySurvivor(env, run.findings);
    var k := ListedSeverityIsARecords(WebOfRuns(env, [run]), findings, c);
    RecordsOfOneRun(env, run, only, k);
  }

  lemma {:induction false} PairIsOfOneID(fs: seq<Finding>)
    requires |fs| == 2 && fs[0].id == fs[1].id
    ensures OfOneID(fs, fs[0].id)
  {
  }

  // A low finding listed first hides a critical one of its id.
  lemma {:induction false} DeduplicationCanHideCritical(env: Env, run: RunOutcome, findings: seq<Finding>,
                                                        updated: seq<RunOutcome>, c: Finding)
    requires |run.findings| == 2 && run.findings[0].id == run.findings[1].id != ""
    requires run.findings[0].severity == Low && run.findings[1].severity == Critical
    requires IsCorrelation(env, [run], findings, updated) && c in findings
    ensures c.severity == Low
  {
    PairIsOfOneID(run.findings);
    FirstSeverityIsLeft(env, run, findings, updated, c);
  }

  // ---- The order of a scan's runs ----

  lemma {:induction false} LinkingKeepsKeys(env: Env, runs: seq<RunOutcome>, findings: seq<Finding>,
                                            updated: seq<RunOutcome>)
    requires IsCorrelation(env, runs, findings, updated) && DistinctBy(RunKey, runs)
    ensures |updated| == |runs| && DistinctBy(RunKey, updated)
  {
    var deduped := DeduplicatedRuns(env, runs);
    assert SameShape(deduped, updated);
    forall i | 0 <= i < |runs| ensures RunKey(updated[i]) == RunKey(runs[i]) {
      assert RunKey(deduped[i]) == RunKey(runs[i]);
    }
    forall i, j | 0 <= i < j < |updated| ensures RunKey(updated[i]) != RunKey(updated[j]) {
      assert RunKey(runs[i]) != RunKey(runs[j]);
    }
  }

  // What the order of the runs leaves alone as a whole, from the scan to the verdict: correlation and
  // evaluation together give the same verdict when no two runs share a tool and a command, and the same
  // decision whenever evaluation cannot be swayed by order.
  lemma {:induction false} RunOrderReachesNoVerdict(env: Env, cfg: Config, runs: seq<RunOutcome>, p: seq<nat>,
                                                    findings: seq<Finding>, updated: seq<RunOutcome>,
                                                    findings': seq<Finding>, updated': seq<RunOutcome>,
                                                    rep: ReportValue)
    requires IsPermutation(p, |runs|)
    requires var refs := WebOfRuns(env, runs).refs; IDsPresent(refs) && KeysDistinct(refs) && OrderFree(env, refs)
    requires IsCorrelation(env, runs, findings, updated) && IsCorrelation(env, Permute(p, runs), findings', updated')
    requires rep.findings == findings && rep.runs == updated
    ensures var rep' := rep.(findings := findings', runs := updated');
            && (DistinctBy(RunKey, runs) ==> VerdictOf(env.sort, cfg, rep') == VerdictOf(env.sort, cfg, rep))
            && (PS.OrderCannotMatter(cfg, rep) ==>
                  PS.DecisionOf(env.sort, cfg, rep') == PS.DecisionOf(env.sort, cfg, rep))
  {
    CO.RunOrderIrrelevant(env, runs, p, findings, updated, findings', updated');
    CO.RunOrderCarriesRecords(env, runs, p, updated, updated');
    var rep' := rep.(findings := findings', runs := updated');
    assert rep' == rep.(runs := Permute(p, rep.runs));
    if DistinctBy(RunKey, runs) {
      LinkingKeepsKeys(env, runs, findings, updated);
      PO.RunOrderIrrelevant(env.sort, cfg, rep, p);
    }
    if PS.OrderCannotMatter(cfg, rep) {
      PS.RunsInOrder(rep, p);
      PS.SameDecision(env.sort, cfg, rep, rep');
    }
  }
}
