// From SARIF logs to the verdict: moving every line of the logs leaves the verdict as it was.
module LogShift {
  import opened Evidence
  import opened Sarif
  import opened NormalizeLedger
  import opened SarifShift
  import opened SarifRepeats
  import opened Policy
  import opened LineShift
  import opened Correlate
  import CO = CorrelateOrder
  import P = Pipeline

  // What a scanner's adapter reads: its log, and what it knows of the tool.
  datatype Feed = Feed(lib: Lib, src: Source, log: seq<SarifRun>)

  function FindingsIn(feed: Feed): seq<Finding> { Normalized(feed.lib, feed.src, feed.log) }

  // The runs of a scan, each with the findings read from its log.
  function Scanned(runs: seq<RunOutcome>, feeds: seq<Feed>): (r: seq<RunOutcome>)
    requires |runs| == |feeds|
    ensures |r| == |runs| && forall i | 0 <= i < |runs| :: r[i] == runs[i].(findings := FindingsIn(feeds[i]))
  {
    seq(|runs|, i requires 0 <= i < |runs| => runs[i].(findings := FindingsIn(feeds[i])))
  }

  function MoveFeeds(d: int, feeds: seq<Feed>): (r: seq<Feed>)
    ensures |r| == |feeds| && forall i | 0 <= i < |feeds| :: r[i] == feeds[i].(log := MapLog(ShiftBy(d), feeds[i].log))
  {
    seq(|feeds|, i requires 0 <= i < |feeds| => feeds[i].(log := MapLog(ShiftBy(d), feeds[i].log)))
  }

  lemma {:induction false} ScannedMoved(d: int, runs: seq<RunOutcome>, feeds: seq<Feed>)
    requires |runs| == |feeds| && forall i | 0 <= i < |feeds| :: PlaceBlind(feeds[i].lib)
    ensures Scanned(runs, MoveFeeds(d, feeds)) == MoveRuns(d, Scanned(runs, feeds))
  {
    forall i | 0 <= i < |runs| ensures Scanned(runs, MoveFeeds(d, feeds))[i] == MoveRuns(d, Scanned(runs, feeds))[i] {
      NormalizedMoved(feeds[i].lib, d, feeds[i].src, feeds[i].log);
    }
  }

  // Every finding that is read has an id.
  lemma {:induction false} ReadIDs(feed: Feed, k: nat)
    requires k < |FindingsIn(feed)|
    ensures FindingsIn(feed)[k].id != ""
  {
    CandidatesFingerprinted(feed.lib, feed.src, feed.log);
    NormalizedExactly(feed.lib, feed.src, feed.log);
  }

  lemma {:induction false} MovedIDs(d: int, runs: seq<RunOutcome>)
    requires P.IDsGiven(runs)
    ensures P.IDsGiven(MoveRuns(d, runs))
  {
    var moved := MoveRuns(d, runs);
    forall r, k | 0 <= r < |moved| && 0 <= k < |moved[r].findings| ensures moved[r].findings[k].id != "" {
      assert moved[r].findings[k] == MoveFinding(d, runs[r].findings[k]);
    }
  }

  // However the map of groups is walked in either scan: the findings and the linked runs of the moved
  // logs are those of the logs, moved, and the verdict is the same, whole.
  lemma {:induction false} MovedLogsSameVerdict(env: Env, cfg: Config, d: int, runs: seq<RunOutcome>, feeds: seq<Feed>,
                                                findings: seq<Finding>, updated: seq<RunOutcome>,
                                                findings': seq<Finding>, updated': seq<RunOutcome>, rep: ReportValue)
    requires |runs| == |feeds| && forall i | 0 <= i < |feeds| :: PlaceBlind(feeds[i].lib)
    requires IsCorrelation(env, Scanned(runs, feeds), findings, updated)
    requires IsCorrelation(env, Scanned(runs, MoveFeeds(d, feeds)), findings', updated')
    requires rep.findings == findings && rep.runs == updated
    ensures findings' == MoveFindings(d, findings) && updated' == MoveRuns(d, updated)
    ensures VerdictOf(env.sort, cfg, rep.(findings := findings', runs := updated')) == VerdictOf(env.sort, cfg, rep)
  {
    var scanned := Scanned(runs, feeds);
    var moved := MoveRuns(d, scanned);
    ScannedMoved(d, runs, feeds);
    CorrelationMoved(env, d, scanned, findings, updated);
    forall r, k | 0 <= r < |scanned| && 0 <= k < |scanned[r].findings| ensures scanned[r].findings[k].id != "" {
      ReadIDs(feeds[r], k);
    }
    MovedIDs(d, scanned);
    OneCorrelation(env, moved, MoveFindings(d, findings), MoveRuns(d, updated), findings', updated');
    VerdictMoved(env.sort, cfg, d, rep);
    assert MoveReport(d, rep) == rep.(findings := findings', runs := updated');
  }

  // Findings that carry ids correlate in one way.
  lemma {:induction false} OneCorrelation(env: Env, runs: seq<RunOutcome>, findings: seq<Finding>,
                                          updated: seq<RunOutcome>, findings': seq<Finding>, updated': seq<RunOutcome>)
    requires P.IDsGiven(runs)
    requires IsCorrelation(env, runs, findings, updated) && IsCorrelation(env, runs, findings', updated')
    ensures findings == findings' && updated == updated'
  {
    P.GivenIDsArePresent(env, runs);
    var w := WebOfRuns(env, runs);
    CO.GroupOrderIrrelevant(env, w.refs, findings, findings');
    CO.LinkedUnique(w, DeduplicatedRuns(env, runs), updated, updated');
  }
}
