// The report that the pipeline rewrites in place: correlation, then the verdict.
module Report {
  import opened Sorting
  import opened Evidence
  import opened Policy
  import opened PolicyOrder
  import opened Correlate

  class Report {
    var dirty: bool
    var outcome: Outcome
    var reason: Reason
    var runs: seq<RunOutcome>
    var findings: seq<Finding>
    var uncovered: UncoveredChecks
    var residualRisk: seq<ResidualRiskItem>
    var startedAt: string
    var completedAt: string

    constructor (value: ReportValue)
      ensures Value() == value
    {
      dirty, outcome, reason := value.dirty, value.outcome, value.reason;
      runs, findings := value.runs, value.findings;
      uncovered, residualRisk := value.uncovered, value.residualRisk;
      startedAt, completedAt := value.startedAt, value.completedAt;
    }

    function Value(): ReportValue
      reads this
    {
      ReportValue(dirty, outcome, reason, runs, findings, uncovered, residualRisk, startedAt, completedAt)
    }

    method TakeVerdict(v: Verdict)
      modifies this
      ensures Value() == Applied(old(Value()), v)
    {
      outcome := v.outcome;
      reason := v.reason;
      residualRisk := v.residual;
      uncovered := v.uncovered;
    }
  }

  // CorrelateReport: the records of the runs become correlated findings, and are linked to each other.
  method CorrelateReport(env: Env, report: Report?)
    modifies report
    ensures report != null ==>
      && IsCorrelation(env, old(report.runs), report.findings, report.runs)
      && report.Value() == old(report.Value()).(findings := report.findings, runs := report.runs)
  {
    if report == null {
      return;
    }
    var findings, updatedRuns := CorrelateRuns(env, report.runs);
    report.findings := findings;
    report.runs := updatedRuns;
  }

  // ApplyVerdict: the verdict's outcome, reason, residual risk and uncovered checks replace the report's.
  method ApplyVerdict(sort: Sorter, cfg: Config, rep: Report)
    modifies rep
    ensures rep.Value() == Applied(old(rep.Value()), VerdictOf(sort, cfg, old(rep.Value())))
    ensures var v := VerdictOf(sort, cfg, old(rep.Value()));
            && rep.outcome == v.outcome && rep.reason == v.reason && rep.residualRisk == v.residual
            && rep.uncovered == v.uncovered && rep.dirty == old(rep.dirty) && rep.runs == old(rep.runs)
            && rep.findings == old(rep.findings) && rep.startedAt == old(rep.startedAt) && rep.completedAt == old(rep.completedAt)
  {
    var v := Evaluate(sort, cfg, rep.Value());
    rep.TakeVerdict(v);
  }
}
