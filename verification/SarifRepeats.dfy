// What Normalize drops: later results of a fingerprint it has seen, identical or not.
module SarifRepeats {
  import opened Options
  import opened Evidence
  import opened Fingerprints
  import opened Sarif
  import opened NormalizeLedger
  import opened SarifRoundTrip
  import opened SarifShift

  // ---- When only copies are dropped ----

  // Pointers as their values: every parsed result has its own.
  function Unaddressed(p: IntPtr): IntPtr {
    match p
    case Nil => Nil
    case At(_, value) => At(0, value)
  }

  const BY_VALUE := PlaceMap(Unaddressed, Unaddressed)

  predicate SameButIndex(f: Finding, g: Finding) {
    MapFinding(BY_VALUE, g) == MapFinding(BY_VALUE, f).(rawIndex := g.rawIndex)
  }

  // What the fingerprint reads.
  predicate SameContent(sha: Digest, f: Finding, g: Finding) {
    f.tool == g.tool && f.ruleID == g.ruleID && AnchorPath(f) == AnchorPath(g) && Anchor(sha, f) == Anchor(sha, g)
  }

  // No two of these findings with different contents have one fingerprint.
  ghost predicate NoCollision(sha: Digest, fs: seq<Finding>) {
    forall i, j | 0 <= i < |fs| && 0 <= j < |fs| && FingerprintOf(sha, fs[i]) == FingerprintOf(sha, fs[j]) ::
      SameContent(sha, fs[i], fs[j])
  }

  // Every finding is the kept one of its id over again, but for its index.
  ghost predicate DropsOnlyCopies(fs: seq<Finding>) {
    forall j, k | 0 <= j < |Firsts(fs, |fs|)| && 0 <= k < |fs| && fs[Firsts(fs, |fs|)[j]].id == fs[k].id ::
      SameButIndex(fs[Firsts(fs, |fs|)[j]], fs[k])
  }

  ghost predicate ContentDecides(sha: Digest, fs: seq<Finding>) {
    forall i, j | 0 <= i < |fs| && 0 <= j < |fs| && SameContent(sha, fs[i], fs[j]) :: SameButIndex(fs[i], fs[j])
  }

  ghost predicate Fingerprinted(sha: Digest, fs: seq<Finding>) {
    forall i | 0 <= i < |fs| :: fs[i].id == FingerprintOf(sha, fs[i])
  }

  lemma {:induction false} CandidatesFingerprinted(lib: Lib, src: Source, log: seq<SarifRun>)
    ensures Fingerprinted(lib.sha, Candidates(lib, src, log))
  {
    var all := Candidates(lib, src, log);
    forall i | 0 <= i < |all| ensures all[i].id == FingerprintOf(lib.sha, all[i]) {
      var r, j := JoinedOrigin(Parts(lib, src, log), |log|, i);
      FindingParts(lib, src, log[r].results[j], RuleByID(log[r].rules, |log[r].rules|), j);
    }
  }

  lemma {:induction false} CopiesExactly(sha: Digest, fs: seq<Finding>)
    requires Fingerprinted(sha, fs) && NoCollision(sha, fs)
    ensures DropsOnlyCopies(fs) <==> ContentDecides(sha, fs)
  {
    if DropsOnlyCopies(fs) {
      forall i, j | 0 <= i < |fs| && 0 <= j < |fs| && SameContent(sha, fs[i], fs[j]) ensures SameButIndex(fs[i], fs[j]) {
        var at := FirstsFind(fs, |fs|, i);
        assert SameButIndex(fs[Firsts(fs, |fs|)[at]], fs[i]) && SameButIndex(fs[Firsts(fs, |fs|)[at]], fs[j]);
      }
    }
  }

  // Normalize drops nothing but copies exactly when results that agree on rule, path and content anchor
  // agree on everything but their index and the addresses of their places, as long as the digest tells different contents apart.
  lemma {:induction false} DropsOnlyCopiesExactly(lib: Lib, src: Source, log: seq<SarifRun>)
    requires NoCollision(lib.sha, Candidates(lib, src, log))
    ensures DropsOnlyCopies(Candidates(lib, src, log)) <==> ContentDecides(lib.sha, Candidates(lib, src, log))
  {
    CandidatesFingerprinted(lib, src, log);
    CopiesExactly(lib.sha, Candidates(lib, src, log));
  }

  // ---- When more is dropped ----

  lemma {:induction false} RedactionKeepsIndex(lib: Lib, f: Finding, i: nat, n: nat)
    requires n <= |f.locations|
    ensures RedactLocations(lib, f.(rawIndex := i), n) == RedactLocations(lib, f, n).(rawIndex := i)
    decreases n
  {
    if n > 0 { RedactionKeepsIndex(lib, f, i, n - 1); }
  }

  lemma {:induction false} IndexPlaysNoPart(lib: Lib, src: Source, res: SarifResult, rules: map<string, SarifRule>,
                                            i: nat, j: nat)
    ensures FindingOf(lib, src, res, rules, j) == FindingOf(lib, src, res, rules, i).(rawIndex := j)
  {
    var f := RedactTexts(lib, Draft(lib, src, res, rules, i));
    assert RedactTexts(lib, Draft(lib, src, res, rules, j)) == f.(rawIndex := j);
    RedactionKeepsIndex(lib, f, j, |f.locations|);
    var r := Redacted(lib, Draft(lib, src, res, rules, i));
    FingerprintReads(lib.sha, r.(rawIndex := j), r);
  }

  // Results that differ in their places alone.
  predicate SameButPlaces(res: SarifResult, res': SarifResult) { MapResult(NOWHERE, res) == MapResult(NOWHERE, res') }

  // Results that differ in the addresses of their pointers alone, as two parsed from one text do.
  predicate SameByValue(res: SarifResult, res': SarifResult) { MapResult(BY_VALUE, res) == MapResult(BY_VALUE, res') }

  lemma {:induction false} FindingKeepsPlaces(lib: Lib, src: Source, res: SarifResult, rules: map<string, SarifRule>,
                                              i: nat, k: nat)
    requires k < |res.locations|
    ensures var ls := FindingOf(lib, src, res, rules, i).locations;
            && |ls| == |res.locations|
            && var l, read := ls[k], LocationOf(lib, res.locations[k]);
               && l.startLine == read.startLine && l.startColumn == read.startColumn
               && l.endLine == read.endLine && l.endColumn == read.endColumn
  {
    FindingParts(lib, src, res, rules, i);
  }

  // Findings of two results that differ in their places alone differ in their indices and places alone.
  lemma {:induction false} SameButPlacesFindings(lib: Lib, src: Source, res: SarifResult, res': SarifResult,
                                                 rules: map<string, SarifRule>, i: nat, j: nat)
    requires PlaceBlind(lib) && SameButPlaces(res, res')
    ensures var f, g := FindingOf(lib, src, res, rules, i), FindingOf(lib, src, res', rules, j);
            && MapFinding(NOWHERE, g) == MapFinding(NOWHERE, f).(rawIndex := j) && g.id == f.id
  {
    FindingOfMapped(lib, NOWHERE, src, res, rules, i);
    FindingOfMapped(lib, NOWHERE, src, res', rules, j);
    IndexPlaysNoPart(lib, src, MapResult(NOWHERE, res), rules, i, j);
  }

  lemma {:induction false} SameValuesSameFinding(lib: Lib, src: Source, res: SarifResult, res': SarifResult,
                                                 rules: map<string, SarifRule>, i: nat, j: nat)
    requires PlaceBlind(lib) && SameByValue(res, res')
    ensures SameButIndex(FindingOf(lib, src, res, rules, i), FindingOf(lib, src, res', rules, j))
  {
    FindingOfMapped(lib, BY_VALUE, src, res, rules, i);
    FindingOfMapped(lib, BY_VALUE, src, res', rules, j);
    IndexPlaysNoPart(lib, src, MapResult(BY_VALUE, res), rules, i, j);
    assert FindingOf(lib, src, res', rules, j).rawIndex == j;
  }

  lemma {:induction false} SameFindingSameValues(lib: Lib, src: Source, res: SarifResult, res': SarifResult,
                                                 rules: map<string, SarifRule>, i: nat, j: nat)
    requires SameButPlaces(res, res')
    requires SameButIndex(FindingOf(lib, src, res, rules, i), FindingOf(lib, src, res', rules, j))
    ensures SameByValue(res, res')
  {
    var f, g := FindingOf(lib, src, res, rules, i), FindingOf(lib, src, res', rules, j);
    assert MapFinding(BY_VALUE, f).locations == MapFinding(BY_VALUE, g).locations;
    assert |MapResult(NOWHERE, res).locations| == |MapResult(NOWHERE, res').locations|;
    forall k | 0 <= k < |res.locations| ensures MapResLoc(BY_VALUE, res.locations[k]) == MapResLoc(BY_VALUE, res'.locations[k]) {
      FindingKeepsPlaces(lib, src, res, rules, i, k);
      FindingKeepsPlaces(lib, src, res', rules, j, k);
      assert MapFinding(BY_VALUE, f).locations[k] == MapFinding(BY_VALUE, g).locations[k];
      assert MapResult(NOWHERE, res).locations[k] == MapResult(NOWHERE, res').locations[k];
    }
    assert MapResult(BY_VALUE, res).locations == MapResult(BY_VALUE, res').locations;
  }

  // Of two results of a run that differ in their places alone the second is never kept, and it is a copy
  // of the first exactly when the values of their places are equal too.
  lemma {:induction false} RepeatedContentIsAbsorbed(lib: Lib, src: Source, run: SarifRun, k: nat, m: nat)
    requires PlaceBlind(lib) && k < m < |run.results| && SameButPlaces(run.results[k], run.results[m])
    ensures var fs := RunCandidates(lib, src, run);
            && fs[k].id == fs[m].id && m !in Firsts(fs, |fs|)
            && (SameButIndex(fs[k], fs[m]) <==> SameByValue(run.results[k], run.results[m]))
  {
    var fs, rules := RunCandidates(lib, src, run), RuleByID(run.rules, |run.rules|);
    SameButPlacesFindings(lib, src, run.results[k], run.results[m], rules, k, m);
    FirstsExact(fs, |fs|);
    assert SeenBefore(fs, m, fs[m].id);
    if SameByValue(run.results[k], run.results[m]) {
      SameValuesSameFinding(lib, src, run.results[k], run.results[m], rules, k, m);
    }
    if SameButIndex(fs[k], fs[m]) {
      SameFindingSameValues(lib, src, run.results[k], run.results[m], rules, k, m);
    }
  }

  function ResultAt(line: IntPtr): SarifResult {
    SarifResult("rule", "", "text", [ResLoc("a.go", Some(Region(line, Nil, Nil, Nil, None)))])
  }

  // One message twice in one file, at lines 1 and 2, as parsed: one finding is left, and it is at line 1.
  lemma {:induction false} SecondOccurrenceIsLost(lib: Lib, src: Source)
    requires PlaceBlind(lib)
    ensures var run := SarifRun("tool", "", [], [ResultAt(At(0, 1)), ResultAt(At(1, 2))]);
            var out := Normalized(lib, src, [run]);
            && |out| == 1 && |out[0].locations| == 1 && out[0].locations[0].startLine == At(0, 1)
            && !DropsOnlyCopies(Candidates(lib, src, [run]))
  {
    var run := SarifRun("tool", "", [], [ResultAt(At(0, 1)), ResultAt(At(1, 2))]);
    LinesTellResults(At(0, 1), At(1, 2));
    RepeatedContentIsAbsorbed(lib, src, run, 0, 1);
    RunOfTwo(lib, src, run);
    FindingKeepsPlaces(lib, src, run.results[0], RuleByID(run.rules, 0), 0, 0);
  }

  // A log of one run of two results of one id, the second not a copy.
  lemma {:induction false} RunOfTwo(lib: Lib, src: Source, run: SarifRun)
    requires |run.results| == 2
    requires var fs := RunCandidates(lib, src, run); fs[0].id == fs[1].id && !SameButIndex(fs[0], fs[1])
    ensures var out := Normalized(lib, src, [run]);
            |out| == 1 && out[0].locations == RunCandidates(lib, src, run)[0].locations
            && !DropsOnlyCopies(Candidates(lib, src, [run]))
  {
    var fs, parts := RunCandidates(lib, src, run), Parts(lib, src, [run]);
    NormalizedExactly(lib, src, [run]);
    assert Joined(parts, 1) == Joined(parts, 0) + parts[0] == fs;
    TwoOfOneID(fs);
  }

  lemma {:induction false} LinesTellResults(p: IntPtr, q: IntPtr)
    requires Unaddressed(p) != Unaddressed(q)
    ensures SameButPlaces(ResultAt(p), ResultAt(q)) && !SameByValue(ResultAt(p), ResultAt(q))
  {
    assert MapResult(NOWHERE, ResultAt(p)).locations[0] == MapResult(NOWHERE, ResultAt(q)).locations[0];
    assert MapResult(BY_VALUE, ResultAt(p)).locations[0] != MapResult(BY_VALUE, ResultAt(q)).locations[0];
  }

  lemma {:induction false} TwoOfOneID(fs: seq<Finding>)
    requires |fs| == 2 && fs[0].id == fs[1].id && !SameButIndex(fs[0], fs[1])
    ensures |Condensed(fs, 2)| == 1 && Condensed(fs, 2)[0].locations == fs[0].locations && !DropsOnlyCopies(fs)
  {
    assert Firsts(fs, 0) == [];
    assert !SeenBefore(fs, 0, fs[0].id);
    assert Firsts(fs, 1) == [0];
    assert SeenBefore(fs, 1, fs[1].id);
    assert Firsts(fs, 2) == [0] + [] == [0];
    assert !SameButIndex(fs[Firsts(fs, 2)[0]], fs[1]);
  }
}
