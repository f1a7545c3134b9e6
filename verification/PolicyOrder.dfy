// What Evaluate does not depend on, and applying it twice.
module PolicyOrder {
  import opened Options
  import opened Text
  import opened Sorting
  import opened Evidence
  import opened Policy
  import opened PolicyOutcome

  // ---- Runs in another order ----

  lemma {:induction false} OrderedRunsOfPermuted(sort: Sorter, rep: ReportValue, p: seq<nat>)
    requires IsPermutation(p, |rep.runs|) && DistinctBy(RunKey, rep.runs)
    ensures OrderedRuns(sort, rep.(runs := Permute(p, rep.runs))) == OrderedRuns(sort, rep)
  {
    PermuteDistinct(RunKey, p, rep.runs);
    PermuteMembers(p, rep.runs);
    SortByUnique(sort, RunKey, Permute(p, rep.runs), rep.runs);
  }

  // What of a report the verdict reads.
  lemma {:induction false} SameInputsSameVerdict(sort: Sorter, cfg: Config, rep: ReportValue, rep': ReportValue)
    requires OrderedRuns(sort, rep) == OrderedRuns(sort, rep') && rep.uncovered == rep'.uncovered
    requires rep.dirty == rep'.dirty && RefTime(rep) == RefTime(rep')
    ensures Shortfall(sort, cfg, rep) == Shortfall(sort, cfg, rep')
    ensures Blocking(sort, cfg, rep) == Blocking(sort, cfg, rep') && Residual(sort, cfg, rep) == Residual(sort, cfg, rep') ==>
      VerdictOf(sort, cfg, rep) == VerdictOf(sort, cfg, rep')
  {
    assert Uncovered(sort, rep) == Uncovered(sort, rep');
    assert UnavailableNames(sort, cfg, rep) == UnavailableNames(sort, cfg, rep');
    assert Lacking(sort, cfg, rep, NeverRan) == Lacking(sort, cfg, rep', NeverRan);
    assert Lacking(sort, cfg, rep, Failed) == Lacking(sort, cfg, rep', Failed);
  }

  lemma {:induction false} SameFindingsSameLists(sort: Sorter, cfg: Config, rep: ReportValue, rep': ReportValue)
    requires OrderedFindings(sort, rep) == OrderedFindings(sort, rep') && RefTime(rep) == RefTime(rep')
    ensures Blocking(sort, cfg, rep) == Blocking(sort, cfg, rep') && Residual(sort, cfg, rep) == Residual(sort, cfg, rep')
  {
  }

  // When no two runs share a tool and a command, their order makes no difference to the verdict.
  lemma {:induction false} RunOrderIrrelevant(sort: Sorter, cfg: Config, rep: ReportValue, p: seq<nat>)
    requires IsPermutation(p, |rep.runs|) && DistinctBy(RunKey, rep.runs)
    ensures VerdictOf(sort, cfg, rep.(runs := Permute(p, rep.runs))) == VerdictOf(sort, cfg, rep)
  {
    var rep' := rep.(runs := Permute(p, rep.runs));
    OrderedRunsOfPermuted(sort, rep, p);
    assert OrderedFindings(sort, rep') == OrderedFindings(sort, rep);
    SameFindingsSameLists(sort, cfg, rep', rep);
    SameInputsSameVerdict(sort, cfg, rep', rep);
  }

  // ---- Findings in another order ----

  // What a finding puts into a verdict.
  datatype Contribution = Nothing | BlockingID(id: string) | RiskItem(item: ResidualRiskItem)

  function ContributionOf(cfg: Config, refTime: string, f: Finding): Contribution {
    match Dispose(cfg, refTime, f)
    case Blocks => BlockingID(f.id)
    case Accepted(rule) => RiskItem(ItemOf(f, rule))
    case _ => Nothing
  }

  // Findings of one id put the same into the verdict.
  ghost predicate IDsAgree(cfg: Config, refTime: string, fs: seq<Finding>) {
    forall f, g | f in fs && g in fs && f.id == g.id :: ContributionOf(cfg, refTime, f) == ContributionOf(cfg, refTime, g)
  }

  lemma {:induction false} ContributionCases(cfg: Config, refTime: string, f: Finding)
    ensures forall id :: ContributionOf(cfg, refTime, f) == BlockingID(id) <==> f.id == id && Dispose(cfg, refTime, f) == Blocks
    ensures forall i :: ContributionOf(cfg, refTime, f) == RiskItem(i) <==> HasItem(cfg, refTime, f, i)
  {
  }

  // What some judged finding puts into the verdict.
  ghost predicate Puts(sort: Sorter, cfg: Config, rep: ReportValue, c: Contribution) {
    exists f | f in OrderedFindings(sort, rep) :: ContributionOf(cfg, RefTime(rep), f) == c
  }

  lemma {:induction false} BlockingIsPut(sort: Sorter, cfg: Config, rep: ReportValue, id: string)
    ensures id in Blocking(sort, cfg, rep) <==> Puts(sort, cfg, rep, BlockingID(id))
  {
    BlockingExactly(sort, cfg, rep, id);
    forall f | f in OrderedFindings(sort, rep)
      ensures ContributionOf(cfg, RefTime(rep), f) == BlockingID(id) <==> f.id == id && Dispose(cfg, RefTime(rep), f) == Blocks
    {
      ContributionCases(cfg, RefTime(rep), f);
    }
  }

  lemma {:induction false} ResidualIsPut(sort: Sorter, cfg: Config, rep: ReportValue, i: ResidualRiskItem)
    ensures i in Residual(sort, cfg, rep) <==> Puts(sort, cfg, rep, RiskItem(i))
  {
    ResidualExactly(sort, cfg, rep, i);
    forall f | f in OrderedFindings(sort, rep)
      ensures ContributionOf(cfg, RefTime(rep), f) == RiskItem(i) <==> HasItem(cfg, RefTime(rep), f, i)
    {
      ContributionCases(cfg, RefTime(rep), f);
    }
  }

  // ---- Both lists are strictly in order ----

  lemma {:induction false} BlockingIDsDistinct(cfg: Config, refTime: string, fs: seq<Finding>, n: nat)
    requires n <= |fs| && DistinctBy(IDKey, fs)
    ensures DistinctStrings(BlockingIDs(cfg, refTime, fs, n))
    ensures forall id | id in BlockingIDs(cfg, refTime, fs, n) :: exists k | 0 <= k < n :: fs[k].id == id
    decreases n
  {
    if n > 0 {
      BlockingIDsDistinct(cfg, refTime, fs, n - 1);
      var before := BlockingIDs(cfg, refTime, fs, n - 1);
      forall i | 0 <= i < |before| ensures before[i] != fs[n - 1].id {
        assert before[i] in before;
        var k :| 0 <= k < n - 1 && fs[k].id == before[i];
        assert IDKey(fs[k]) != IDKey(fs[n - 1]);
      }
    }
  }

  lemma {:induction false} ResidualItemsDistinct(cfg: Config, refTime: string, fs: seq<Finding>, n: nat)
    requires n <= |fs| && DistinctBy(IDKey, fs)
    ensures DistinctBy(ResidualKey, ResidualItems(cfg, refTime, fs, n))
    ensures forall i | i in ResidualItems(cfg, refTime, fs, n) :: exists k | 0 <= k < n :: fs[k].id == i.findingID
    decreases n
  {
    if n > 0 {
      ResidualItemsDistinct(cfg, refTime, fs, n - 1);
      var before := ResidualItems(cfg, refTime, fs, n - 1);
      forall i | 0 <= i < |before| ensures before[i].findingID != fs[n - 1].id {
        assert before[i] in before;
        var k :| 0 <= k < n - 1 && fs[k].id == before[i].findingID;
        assert IDKey(fs[k]) != IDKey(fs[n - 1]);
      }
    }
  }

  lemma {:induction false} AscendingIsDistinct(fs: seq<Finding>)
    requires AscendingBy(IDKey, fs)
    ensures DistinctBy(IDKey, fs)
  {
    forall i, j | 0 <= i < j < |fs| ensures IDKey(fs[i]) != IDKey(fs[j]) {
      assert KeyLess(IDKey(fs[i]), IDKey(fs[j]));
    }
  }

  lemma {:induction false} VerdictListsAscend(sort: Sorter, cfg: Config, rep: ReportValue)
    ensures Ascending(Blocking(sort, cfg, rep)) && AscendingBy(ResidualKey, Residual(sort, cfg, rep))
  {
    var fs := OrderedFindings(sort, rep);
    OrderedFindingsDistinct(sort, rep);
    AscendingIsDistinct(fs);
    BlockingIDsDistinct(cfg, RefTime(rep), fs, |fs|);
    ResidualItemsDistinct(cfg, RefTime(rep), fs, |fs|);
    SortedDistinctAscends(BlockingIDs(cfg, RefTime(rep), fs, |fs|));
    SortByAscends(sort, ResidualKey, ResidualItems(cfg, RefTime(rep), fs, |fs|));
  }

  // What is put into the verdict determines its lists.
  lemma {:induction false} SamePutsSameLists(sort: Sorter, cfg: Config, rep: ReportValue, rep': ReportValue)
    requires forall c :: Puts(sort, cfg, rep, c) <==> Puts(sort, cfg, rep', c)
    ensures Blocking(sort, cfg, rep) == Blocking(sort, cfg, rep') && Residual(sort, cfg, rep) == Residual(sort, cfg, rep')
  {
    forall id ensures id in Blocking(sort, cfg, rep) <==> id in Blocking(sort, cfg, rep') {
      BlockingIsPut(sort, cfg, rep, id);
      BlockingIsPut(sort, cfg, rep', id);
    }
    forall i ensures i in Residual(sort, cfg, rep) <==> i in Residual(sort, cfg, rep') {
      ResidualIsPut(sort, cfg, rep, i);
      ResidualIsPut(sort, cfg, rep', i);
    }
    VerdictListsAscend(sort, cfg, rep);
    VerdictListsAscend(sort, cfg, rep');
    AscendingUnique(Blocking(sort, cfg, rep), Blocking(sort, cfg, rep'));
    AscendingByUnique(ResidualKey, Residual(sort, cfg, rep), Residual(sort, cfg, rep'));
  }

  // Every finding judged in the one report puts what the one of its id in the other puts.
  ghost predicate MatchedIn(sort: Sorter, cfg: Config, rep: ReportValue, rep': ReportValue) {
    forall f | f in OrderedFindings(sort, rep) :: Puts(sort, cfg, rep', ContributionOf(cfg, RefTime(rep), f))
  }

  lemma {:induction false} MatchedSameLists(sort: Sorter, cfg: Config, rep: ReportValue, rep': ReportValue)
    requires MatchedIn(sort, cfg, rep, rep') && MatchedIn(sort, cfg, rep', rep)
    ensures Blocking(sort, cfg, rep) == Blocking(sort, cfg, rep') && Residual(sort, cfg, rep) == Residual(sort, cfg, rep')
  {
    forall c ensures Puts(sort, cfg, rep, c) <==> Puts(sort, cfg, rep', c) {
      if f :| f in OrderedFindings(sort, rep) && ContributionOf(cfg, RefTime(rep), f) == c {
        assert Puts(sort, cfg, rep', ContributionOf(cfg, RefTime(rep), f));
      }
      if f :| f in OrderedFindings(sort, rep') && ContributionOf(cfg, RefTime(rep'), f) == c {
        assert Puts(sort, cfg, rep, ContributionOf(cfg, RefTime(rep'), f));
      }
    }
    SamePutsSameLists(sort, cfg, rep, rep');
  }

  // ---- The order of findings ----

  lemma {:induction false} OrderedFindingsOf(sort: Sorter, rep: ReportValue)
    requires rep.findings != []
    ensures var out := OrderedFindings(sort, rep);
            && (forall f | f in out :: f in rep.findings)
            && (forall f | f in rep.findings :: HasID(out, f.id))
  {
    var fs, runs := rep.findings, OrderedRuns(sort, rep);
    FirstOfEachIDExact(fs, |fs|);
    var first, out := FirstOfEachID(fs, |fs|), OrderedFindings(sort, rep);
    assert fs[..|fs|] == fs;
    forall f | f in fs ensures HasID(out, f.id) {
      var k :| 0 <= k < |fs| && fs[k] == f;
      assert HasID(first, fs[k].id);
      var g :| g in first && g.id == f.id;
      assert g in out;
    }
  }

  lemma {:induction false} AgreeingMatch(sort: Sorter, cfg: Config, rep: ReportValue, rep': ReportValue)
    requires rep.findings != [] && RefTime(rep) == RefTime(rep') && IDsAgree(cfg, RefTime(rep), rep.findings)
    requires forall f :: f in rep.findings <==> f in rep'.findings
    ensures MatchedIn(sort, cfg, rep, rep')
  {
    assert rep.findings[0] in rep'.findings;
    OrderedFindingsOf(sort, rep);
    OrderedFindingsOf(sort, rep');
    forall f | f in OrderedFindings(sort, rep) ensures Puts(sort, cfg, rep', ContributionOf(cfg, RefTime(rep), f)) {
      assert f in rep'.findings && HasID(OrderedFindings(sort, rep'), f.id);
      var g :| g in OrderedFindings(sort, rep') && g.id == f.id;
      assert g in rep.findings;
    }
  }

  lemma {:induction false} FindingOrderIrrelevant(sort: Sorter, cfg: Config, rep: ReportValue, p: seq<nat>)
    requires IsPermutation(p, |rep.findings|) && IDsAgree(cfg, RefTime(rep), rep.findings)
    ensures VerdictOf(sort, cfg, rep.(findings := Permute(p, rep.findings))) == VerdictOf(sort, cfg, rep)
  {
    var rep' := rep.(findings := Permute(p, rep.findings));
    if rep.findings == [] {
      assert rep'.findings == rep.findings;
    } else {
      PermuteMembers(p, rep.findings);
      AgreeingMatch(sort, cfg, rep, rep');
      AgreeingMatch(sort, cfg, rep', rep);
      MatchedSameLists(sort, cfg, rep, rep');
      SameInputsSameVerdict(sort, cfg, rep', rep);
    }
  }

  // Findings with distinct ids, as CorrelateRuns leaves them when records carry ids, always agree.
  lemma {:induction false} DistinctIDsAgree(cfg: Config, refTime: string, fs: seq<Finding>)
    requires DistinctBy(IDKey, fs)
    ensures IDsAgree(cfg, refTime, fs)
  {
    forall f, g | f in fs && g in fs && f.id == g.id ensures f == g {
      var i :| 0 <= i < |fs| && fs[i] == f;
      var j :| 0 <= j < |fs| && fs[j] == g;
      assert IDKey(fs[i]) == IDKey(fs[j]);
    }
  }

  // ---- When ids disagree the order shows ----

  // Position k first, then the rest in order.
  function FrontFirst(n: nat, k: nat): seq<nat>
    requires k < n
  {
    seq(n, i requires 0 <= i < n => if i == 0 then k else if i <= k then i - 1 else i)
  }

  lemma {:induction false} FrontFirstPermutes(n: nat, k: nat)
    requires k < n
    ensures IsPermutation(FrontFirst(n, k), n)
  {
    var p := FrontFirst(n, k);
    forall m: nat | m < n ensures m in p {
      var i := if m == k then 0 else if m < k then m + 1 else m;
      assert p[i] == m;
    }
  }

  lemma {:induction false} FirstStays(fs: seq<Finding>, n: nat)
    requires 0 < n <= |fs|
    ensures fs[0] in FirstOfEachID(fs, n)
    decreases n
  {
    if n > 1 { FirstStays(fs, n - 1); } else { assert FirstOfEachID(fs, 0) == []; }
  }

  lemma {:induction false} SameIDSameFinding(fs: seq<Finding>, f: Finding, g: Finding)
    requires DistinctBy(IDKey, fs) && f in fs && g in fs && f.id == g.id
    ensures f == g
  {
    var i :| 0 <= i < |fs| && fs[i] == f;
    var j :| 0 <= j < |fs| && fs[j] == g;
    assert IDKey(fs[i]) == IDKey(fs[j]);
  }

  function IDNamed(c: Contribution): Option<string> {
    match c
    case Nothing => None
    case BlockingID(id) => Some(id)
    case RiskItem(i) => Some(i.findingID)
  }

  // What is put under an id is put by the one judged finding of that id.
  lemma {:induction false} PutByItsFinding(sort: Sorter, cfg: Config, rep: ReportValue, f: Finding, c: Contribution)
    requires f in OrderedFindings(sort, rep) && Puts(sort, cfg, rep, c) && IDNamed(c) == Some(f.id)
    ensures ContributionOf(cfg, RefTime(rep), f) == c
  {
    var g :| g in OrderedFindings(sort, rep) && ContributionOf(cfg, RefTime(rep), g) == c;
    OrderedFindingsDistinct(sort, rep);
    AscendingIsDistinct(OrderedFindings(sort, rep));
    SameIDSameFinding(OrderedFindings(sort, rep), f, g);
  }

  ghost predicate FindingOrderFree(sort: Sorter, cfg: Config, rep: ReportValue) {
    forall p | IsPermutation(p, |rep.findings|) ::
      VerdictOf(sort, cfg, rep.(findings := Permute(p, rep.findings))) == VerdictOf(sort, cfg, rep)
  }

  lemma {:induction false} PutInOther(sort: Sorter, cfg: Config, rep: ReportValue, rep': ReportValue, f: Finding)
    requires f in OrderedFindings(sort, rep) && ContributionOf(cfg, RefTime(rep), f) != Nothing
    requires Blocking(sort, cfg, rep) == Blocking(sort, cfg, rep') && Residual(sort, cfg, rep) == Residual(sort, cfg, rep')
    ensures var c := ContributionOf(cfg, RefTime(rep), f); Puts(sort, cfg, rep', c) && IDNamed(c) == Some(f.id)
  {
    match ContributionOf(cfg, RefTime(rep), f)
    case BlockingID(id) => BlockingIsPut(sort, cfg, rep, id); BlockingIsPut(sort, cfg, rep', id);
    case RiskItem(i) => ResidualIsPut(sort, cfg, rep, i); ResidualIsPut(sort, cfg, rep', i);
  }

  // Two reports with the same lists in their verdicts were given the same by the findings of one id.
  lemma {:induction false} SameListsAgree(sort: Sorter, cfg: Config, rep: ReportValue, rep': ReportValue, f: Finding,
                                          g: Finding)
    requires f in OrderedFindings(sort, rep) && g in OrderedFindings(sort, rep') && f.id == g.id
    requires Blocking(sort, cfg, rep) == Blocking(sort, cfg, rep') && Residual(sort, cfg, rep) == Residual(sort, cfg, rep')
    ensures ContributionOf(cfg, RefTime(rep), f) == ContributionOf(cfg, RefTime(rep'), g)
  {
    var c, d := ContributionOf(cfg, RefTime(rep), f), ContributionOf(cfg, RefTime(rep'), g);
    if c != Nothing {
      PutInOther(sort, cfg, rep, rep', f);
      PutByItsFinding(sort, cfg, rep', g, c);
    }
    if d != Nothing {
      PutInOther(sort, cfg, rep', rep, g);
      PutByItsFinding(sort, cfg, rep, f, d);
    }
  }

  function WithFront(rep: ReportValue, k: nat): ReportValue
    requires k < |rep.findings|
  {
    rep.(findings := Permute(FrontFirst(|rep.findings|, k), rep.findings))
  }

  lemma {:induction false} FrontListsSame(sort: Sorter, cfg: Config, rep: ReportValue, k: nat)
    requires Shortfall(sort, cfg, rep) == None && FindingOrderFree(sort, cfg, rep) && k < |rep.findings|
    ensures var front := WithFront(rep, k);
            && rep.findings[k] in OrderedFindings(sort, front) && RefTime(front) == RefTime(rep)
            && Blocking(sort, cfg, front) == Blocking(sort, cfg, rep)
            && Residual(sort, cfg, front) == Residual(sort, cfg, rep)
  {
    var front := WithFront(rep, k);
    FrontFirstPermutes(|rep.findings|, k);
    FirstStays(front.findings, |front.findings|);
    SameInputsSameVerdict(sort, cfg, front, rep);
    assert VerdictOf(sort, cfg, front) == VerdictOf(sort, cfg, rep);
  }

  lemma {:induction false} OrderFreeAgrees(sort: Sorter, cfg: Config, rep: ReportValue, i: nat, j: nat)
    requires Shortfall(sort, cfg, rep) == None && FindingOrderFree(sort, cfg, rep)
    requires i < |rep.findings| && j < |rep.findings| && rep.findings[i].id == rep.findings[j].id
    ensures ContributionOf(cfg, RefTime(rep), rep.findings[i]) == ContributionOf(cfg, RefTime(rep), rep.findings[j])
  {
    FrontListsSame(sort, cfg, rep, i);
    FrontListsSame(sort, cfg, rep, j);
    SameListsAgree(sort, cfg, WithFront(rep, i), WithFront(rep, j), rep.findings[i], rep.findings[j]);
  }

  // Once the finding stage is reached, the verdict is free of the order of findings exactly when
  // findings of one id agree on what they put into it.
  lemma {:induction false} FindingOrderIrrelevantExactly(sort: Sorter, cfg: Config, rep: ReportValue)
    requires Shortfall(sort, cfg, rep) == None
    ensures FindingOrderFree(sort, cfg, rep) <==> IDsAgree(cfg, RefTime(rep), rep.findings)
  {
    if IDsAgree(cfg, RefTime(rep), rep.findings) {
      forall p | IsPermutation(p, |rep.findings|)
        ensures VerdictOf(sort, cfg, rep.(findings := Permute(p, rep.findings))) == VerdictOf(sort, cfg, rep)
      {
        FindingOrderIrrelevant(sort, cfg, rep, p);
      }
    }
    if FindingOrderFree(sort, cfg, rep) {
      forall f, g | f in rep.findings && g in rep.findings && f.id == g.id
        ensures ContributionOf(cfg, RefTime(rep), f) == ContributionOf(cfg, RefTime(rep), g)
      {
        var i: nat :| i < |rep.findings| && rep.findings[i] == f;
        var j: nat :| j < |rep.findings| && rep.findings[j] == g;
        OrderFreeAgrees(sort, cfg, rep, i, j);
      }
    }
  }

  // ---- Orders that do show ----

  function PlainFinding(id: string, severity: Severity): Finding {
    Finding(id, "", "", "", severity, [], "", "", "", "", "", "", "", UnknownConfidence, "", Unreviewed,
            ReviewerTool, "", [], [], 0, Carried("", "", "", "", "", "", "", ""))
  }

  function PlainReport(runs: seq<RunOutcome>, findings: seq<Finding>): ReportValue {
    ReportValue(false, Incomplete, NoReason, runs, findings, UncoveredChecks([], [], [], []), [], "", "")
  }

  const CRITICAL_BLOCKS := Config([], [Critical], true, [])

  lemma {:induction false} SeverityDecides(refTime: string, f: Finding)
    requires f.challenge == Unreviewed && f.duplicates == [] && f.related == []
    ensures ContributionOf(CRITICAL_BLOCKS, refTime, f) == if f.severity == Critical then BlockingID(f.id) else Nothing
  {
    assert Acceptance([], f) == None;
    assert CRITICAL_BLOCKS.acceptedRisks == [];
  }

  // One id carried by a critical and a low finding: which is listed first decides the verdict.
  lemma {:induction false} FindingOrderCanMatter(sort: Sorter)
    ensures var rep := PlainReport([], [PlainFinding("a", Critical), PlainFinding("a", Low)]);
            Shortfall(sort, CRITICAL_BLOCKS, rep) == None && !FindingOrderFree(sort, CRITICAL_BLOCKS, rep)
  {
    var f, g := PlainFinding("a", Critical), PlainFinding("a", Low);
    var rep := PlainReport([], [f, g]);
    ReachesFindingsExactly(sort, CRITICAL_BLOCKS, rep);
    SeverityDecides(RefTime(rep), f);
    SeverityDecides(RefTime(rep), g);
    assert f == rep.findings[0] && g == rep.findings[1];
    assert !IDsAgree(CRITICAL_BLOCKS, RefTime(rep), rep.findings);
    FindingOrderIrrelevantExactly(sort, CRITICAL_BLOCKS, rep);
  }

  lemma {:induction false} LastOfTwo(sort: Sorter, a: RunOutcome, b: RunOutcome)
    requires RunKey(a) == RunKey(b)
    ensures var ab, ba := OrderedRuns(sort, PlainReport([a, b], [])), OrderedRuns(sort, PlainReport([b, a], []));
            || (LastRun(ab, |ab|, a.tool) == Some(a) && LastRun(ba, |ba|, a.tool) == Some(b))
            || (LastRun(ab, |ab|, a.tool) == Some(b) && LastRun(ba, |ba|, a.tool) == Some(a))
  {
    assert Map(RunKey, [a, b]) == Map(RunKey, [b, a]) == [RunKey(a), RunKey(a)];
    var p := sort([RunKey(a), RunKey(a)]);
    assert Arranges([RunKey(a), RunKey(a)], p);
    assert p[1] == 0 || p[1] == 1;
  }

  lemma {:induction false} NotReported(a: RunOutcome, b: RunOutcome, tool: string)
    requires a.status != NotInstalled && a.status != Unavailable && b.status != NotInstalled && b.status != Unavailable
    ensures !ReportedUnavailable(PlainReport([a, b], []), tool)
  {
  }

  // With one required tool, not reported unavailable, its last run decides.
  lemma {:induction false} LastRunDecides(sort: Sorter, rep: ReportValue, tool: string, last: RunOutcome)
    requires !ReportedUnavailable(rep, tool)
    requires var runs := OrderedRuns(sort, rep); LastRun(runs, |runs|, tool) == Some(last)
    ensures VerdictOf(sort, Config([tool], [], true, []), rep).outcome == Incomplete
       <==> last.status != OK && last.status != FindingsPresent
  {
    var cfg := Config([tool], [], true, []);
    IncompleteExactly(sort, cfg, rep);
    assert forall name | name in cfg.required :: name == tool;
    assert tool in cfg.required;
    assert Satisfied(sort, rep, tool) <==> RanToCompletion(sort, rep, tool);
  }

  // Two runs of one required tool under one command, one completed and one crashed: swapping them
  // turns an incomplete verdict into one that is not, whatever the sort does with equal keys.
  lemma {:induction false} RunOrderMattersOnEqualKeys(sort: Sorter, a: RunOutcome, b: RunOutcome)
    requires RunKey(a) == RunKey(b) && a.status == OK && b.status == Crashed
    ensures var cfg := Config([a.tool], [], true, []);
            (VerdictOf(sort, cfg, PlainReport([a, b], [])).outcome == Incomplete)
            != (VerdictOf(sort, cfg, PlainReport([b, a], [])).outcome == Incomplete)
  {
    var ab, ba := PlainReport([a, b], []), PlainReport([b, a], []);
    NotReported(a, b, a.tool);
    NotReported(b, a, a.tool);
    LastOfTwo(sort, a, b);
    var runs := OrderedRuns(sort, ab);
    if LastRun(runs, |runs|, a.tool) == Some(a) {
      LastRunDecides(sort, ab, a.tool, a);
      LastRunDecides(sort, ba, a.tool, b);
    } else {
      LastRunDecides(sort, ab, a.tool, b);
      LastRunDecides(sort, ba, a.tool, a);
    }
  }

  // ---- Applying a verdict twice ----

  function Applied(rep: ReportValue, v: Verdict): ReportValue {
    rep.(outcome := v.outcome, reason := v.reason, residualRisk := v.residual, uncovered := v.uncovered)
  }

  // Required names that an unavailable check names, beyond those already listed.
  ghost function Extra(acc: seq<string>, checks: seq<UncoveredCheck>, n: nat, names: seq<string>): set<string>
    requires n <= |checks|
  {
    set s | s in names && s !in acc && Named(checks, n, s)
  }

  lemma {:induction false} CountOne(before: seq<string>, acc: seq<string>, e: set<string>, tool: string)
    requires multiset(before) == multiset(acc) + multiset(e)
    ensures tool in before <==> tool in acc || tool in e
    ensures tool !in e ==> multiset(before + [tool]) == multiset(acc) + multiset(e + {tool})
  {
    assert tool in before <==> tool in multiset(before);
  }

  lemma {:induction false} NameAllCounts(acc: seq<string>, checks: seq<UncoveredCheck>, n: nat, names: seq<string>)
    requires n <= |checks|
    ensures multiset(NameAllUnavailable(acc, checks, n, names)) == multiset(acc) + multiset(Extra(acc, checks, n, names))
    decreases n
  {
    if n == 0 {
      assert Extra(acc, checks, 0, names) == {};
    } else {
      var before, tool := NameAllUnavailable(acc, checks, n - 1, names), checks[n - 1].tool;
      NameAllCounts(acc, checks, n - 1, names);
      NameUnavailableExact(before, tool, names, |names|);
      assert names[..|names|] == names;
      ExtraStep(acc, checks, n - 1, names);
      CountOne(before, acc, Extra(acc, checks, n - 1, names), tool);
    }
  }

  lemma {:induction false} ExtraStep(acc: seq<string>, checks: seq<UncoveredCheck>, n: nat, names: seq<string>)
    requires n < |checks|
    ensures var tool, e := checks[n].tool, Extra(acc, checks, n, names);
            Extra(acc, checks, n + 1, names) == if tool in names && tool !in acc && tool !in e then e + {tool} else e
  {
    var tool, e, e' := checks[n].tool, Extra(acc, checks, n, names), Extra(acc, checks, n + 1, names);
    forall s ensures Named(checks, n + 1, s) <==> Named(checks, n, s) || s == tool {
    }
    assert forall s :: s in e' <==> s in e || (s == tool && tool in names && tool !in acc);
  }

  lemma {:induction false} SameNamesSameList(acc: seq<string>, a: seq<UncoveredCheck>, b: seq<UncoveredCheck>,
                                             names: seq<string>)
    requires forall s :: Named(a, |a|, s) <==> Named(b, |b|, s)
    ensures SortStrings(NameAllUnavailable(acc, a, |a|, names)) == SortStrings(NameAllUnavailable(acc, b, |b|, names))
    ensures NameAllUnavailable(acc, a, |a|, names) == [] <==> NameAllUnavailable(acc, b, |b|, names) == []
  {
    var r, q := NameAllUnavailable(acc, a, |a|, names), NameAllUnavailable(acc, b, |b|, names);
    assert Extra(acc, a, |a|, names) == Extra(acc, b, |b|, names);
    NameAllCounts(acc, a, |a|, names);
    NameAllCounts(acc, b, |b|, names);
    SortedArrangementUnique(SortStrings(r), SortStrings(q));
    assert |multiset(r)| == |r| && |multiset(q)| == |q|;
  }

  lemma {:induction false} ReappliedNames(sort: Sorter, cfg: Config, rep: ReportValue, name: string)
    ensures var again := Applied(rep, VerdictOf(sort, cfg, rep));
            var a, b := Uncovered(sort, rep).unavailable, Uncovered(sort, again).unavailable;
            Named(a, |a|, name) <==> Named(b, |b|, name)
  {
    var again := Applied(rep, VerdictOf(sort, cfg, rep));
    var runs := OrderedRuns(sort, rep);
    var own, a := RunChecks(runs, |runs|).unavailable, Uncovered(sort, rep).unavailable;
    assert VerdictOf(sort, cfg, rep).uncovered == SortChecks(sort, Uncovered(sort, rep));
    assert again.uncovered.unavailable == SortBy(sort, CheckKey, a);
    NamedAppend(own, rep.uncovered.unavailable, name);
    NamedAppend(own, SortBy(sort, CheckKey, a), name);
    NamedMember(a, name);
    NamedMember(SortBy(sort, CheckKey, a), name);
  }

  // A verdict applied again keeps its outcome, its reason, its blocking findings and its residual
  // risk, although each time the uncovered checks of the runs are merged in once more.
  lemma {:induction false} ApplyTwice(sort: Sorter, cfg: Config, rep: ReportValue)
    ensures var v := VerdictOf(sort, cfg, rep);
            var v' := VerdictOf(sort, cfg, Applied(rep, v));
            v'.outcome == v.outcome && v'.reason == v.reason && v'.blocking == v.blocking && v'.residual == v.residual
  {
    var again := Applied(rep, VerdictOf(sort, cfg, rep));
    var names := SortStrings(cfg.required);
    var a, b := Uncovered(sort, rep).unavailable, Uncovered(sort, again).unavailable;
    forall s ensures Named(a, |a|, s) <==> Named(b, |b|, s) {
      ReappliedNames(sort, cfg, rep, s);
    }
    SameNamesSameList(Lacking(sort, cfg, rep, NotAvailable), a, b, names);
    assert OrderedRuns(sort, again) == OrderedRuns(sort, rep);
    assert OrderedFindings(sort, again) == OrderedFindings(sort, rep);
    assert Blocking(sort, cfg, again) == Blocking(sort, cfg, rep);
    assert Residual(sort, cfg, again) == Residual(sort, cfg, rep);
    SameShortfall(sort, cfg, rep, again);
  }

  lemma {:induction false} SameShortfall(sort: Sorter, cfg: Config, rep: ReportValue, again: ReportValue)
    requires again.runs == rep.runs && again.dirty == rep.dirty
    requires SortStrings(UnavailableNames(sort, cfg, again)) == SortStrings(UnavailableNames(sort, cfg, rep))
    requires UnavailableNames(sort, cfg, again) == [] <==> UnavailableNames(sort, cfg, rep) == []
    ensures match (Shortfall(sort, cfg, rep), Shortfall(sort, cfg, again))
            case (None, None) => true
            case (Some(v), Some(v')) =>
              v.outcome == v'.outcome && v.reason == v'.reason && v.blocking == v'.blocking && v.residual == v'.residual
            case _ => false
  {
    assert OrderedRuns(sort, again) == OrderedRuns(sort, rep);
    assert Lacking(sort, cfg, again, NeverRan) == Lacking(sort, cfg, rep, NeverRan);
    assert Lacking(sort, cfg, again, Failed) == Lacking(sort, cfg, rep, Failed);
  }
}
