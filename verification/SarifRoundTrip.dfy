// Normalize, export, normalize again: what comes back.
module SarifRoundTrip {
  import opened Options
  import opened Sorting
  import opened Evidence
  import opened Fingerprints
  import opened Sarif
  import opened SarifExport
  import opened NormalizeLedger

  // ---- One location ----

  // A location comes back from export as it was exactly when its hash is that of its snippet, none
  // when it has none, and it has a start line or a snippet if it has any place in the file at all.
  lemma {:induction false} LocationRoundTripExactly(lib: Lib, l: Location)
    ensures LocationOf(lib, ExportLocation(l)) == l <==>
      && l.snippetHash == (if l.snippet == "" then "" else lib.sha(l.snippet))
      && (l.startLine.At? || l.snippet != "" || (l.startLine == l.startColumn == l.endLine == l.endColumn == Nil))
  {
  }

  // What redaction makes of a location that Normalize has just read.
  function RedactedLocation(lib: Lib, l: Location): Location {
    if l.snippet == "" then l else l.(snippet := lib.redact(l.snippet), snippetHash := lib.sha(lib.redact(l.snippet)))
  }

  // ---- What redaction makes of a draft ----

  // Hashes as Normalize leaves them: every snippet hashed, and the finding's hash set if any is.
  ghost predicate Hashed(lib: Lib, f: Finding) {
    forall k | 0 <= k < |f.locations| && f.locations[k].snippet != "" ::
      f.locations[k].snippetHash == lib.sha(f.locations[k].snippet) && f.snippetHash != ""
  }

  function RedactedHash(lib: Lib, f: Finding): string {
    if f.locations != [] && f.locations[0].snippet != "" && lib.redact(f.locations[0].snippet) != f.locations[0].snippet
    then lib.sha(lib.redact(f.locations[0].snippet)) else f.snippetHash
  }

  lemma {:induction false} RedactAtExactly(lib: Lib, f: Finding, i: nat)
    requires i < |f.locations|
    requires f.locations[i].snippet != "" ==>
      f.locations[i].snippetHash == lib.sha(f.locations[i].snippet) && f.snippetHash != ""
    ensures var r := RedactAt(lib, f, i);
            && r == f.(locations := f.locations[i := RedactedLocation(lib, f.locations[i])], snippetHash := r.snippetHash)
            && r.snippetHash == (if i == 0 then RedactedHash(lib, f) else f.snippetHash)
  {
    assert f.locations[i := f.locations[i]] == f.locations;
  }

  // r is f with the first n of its locations redacted.
  ghost predicate RedactedUpTo(lib: Lib, f: Finding, r: Finding, n: nat)
    requires n <= |f.locations|
  {
    && |r.locations| == |f.locations|
    && r == f.(locations := r.locations, snippetHash := r.snippetHash)
    && (forall k | 0 <= k < n :: r.locations[k] == RedactedLocation(lib, f.locations[k]))
    && (forall k | n <= k < |f.locations| :: r.locations[k] == f.locations[k])
    && r.snippetHash == (if n == 0 then f.snippetHash else RedactedHash(lib, f))
  }

  lemma {:induction false} RedactedHashSet(lib: Lib, f: Finding)
    requires Hashed(lib, f) && f.snippetHash != ""
    ensures RedactedHash(lib, f) != ""
  {
    assert |lib.sha(lib.redact(if f.locations != [] then f.locations[0].snippet else ""))| == 64;
  }

  // Redacting one location more.
  lemma {:induction false} RedactNext(lib: Lib, f: Finding, before: Finding, n: nat)
    requires n < |f.locations| && Hashed(lib, f) && RedactedUpTo(lib, f, before, n)
    ensures RedactedUpTo(lib, f, RedactAt(lib, before, n), n + 1)
  {
    assert before.locations[n] == f.locations[n];
    if f.locations[n].snippet != "" { RedactedHashSet(lib, f); }
    RedactAtExactly(lib, before, n);
  }

  lemma {:induction false} RedactLocationsExactly(lib: Lib, f: Finding, n: nat)
    requires n <= |f.locations| && Hashed(lib, f)
    ensures RedactedUpTo(lib, f, RedactLocations(lib, f, n), n)
    decreases n
  {
    if n > 0 {
      RedactLocationsExactly(lib, f, n - 1);
      RedactNext(lib, f, RedactLocations(lib, f, n - 1), n - 1);
    }
  }

  lemma {:induction false} FirstHash(ls: seq<Location>, n: nat)
    requires n <= |ls|
    ensures FirstNonEmpty(HashOf, ls, n) == "" <==> forall k | 0 <= k < n :: ls[k].snippetHash == ""
    decreases n
  {
    if n > 0 { FirstHash(ls, n - 1); }
  }

  lemma {:induction false} DraftHashed(lib: Lib, src: Source, res: SarifResult, rules: map<string, SarifRule>, i: nat)
    ensures Hashed(lib, RedactTexts(lib, Draft(lib, src, res, rules, i)))
  {
    var f := Draft(lib, src, res, rules, i);
    FirstHash(f.locations, |f.locations|);
    forall k | 0 <= k < |f.locations| && f.locations[k].snippet != ""
      ensures f.locations[k].snippetHash == lib.sha(f.locations[k].snippet) && f.snippetHash != ""
    {
      assert f.locations[k] == LocationOf(lib, res.locations[k]);
      assert |f.locations[k].snippetHash| == 64;
    }
  }

  function RedactedLocations(lib: Lib, ls: seq<Location>): (r: seq<Location>)
    ensures |r| == |ls| && forall k | 0 <= k < |ls| :: r[k] == RedactedLocation(lib, ls[k])
  {
    seq(|ls|, k requires 0 <= k < |ls| => RedactedLocation(lib, ls[k]))
  }

  // A finding as Normalize makes it, in terms of its draft: the parts that identify it.
  lemma {:induction false} FindingParts(lib: Lib, src: Source, res: SarifResult, rules: map<string, SarifRule>,
                                        i: nat)
    ensures var d, f := Draft(lib, src, res, rules, i), FindingOf(lib, src, res, rules, i);
            && f.tool == src.tool && f.ruleID == res.ruleID && f.message == lib.redact(res.text) && f.matched == ""
            && f.scopePath == d.scopePath
            && f.locations == RedactedLocations(lib, d.locations)
            && f.snippetHash == RedactedHash(lib, d)
            && (d.snippetHash == "" ==> f.snippet == lib.redact(""))
            && f.id == FingerprintOf(lib.sha, f)
  {
    var d := Draft(lib, src, res, rules, i);
    var t := RedactTexts(lib, d);
    DraftHashed(lib, src, res, rules, i);
    RedactLocationsExactly(lib, t, |t.locations|);
    var r := RedactLocations(lib, t, |t.locations|);
    assert r.locations == RedactedLocations(lib, d.locations);
    if d.snippetHash == "" {
      assert forall k | 0 <= k < |t.locations| :: t.locations[k].snippet == "";
    }
  }

  // ---- One result ----

  // A result's location that survives: no empty snippet, none that redaction empties or would change
  // a second time, and a start line or a snippet wherever there is any line or column.
  predicate Kept(lib: Lib, loc: ResLoc) {
    match loc.region
    case None => true
    case Some(r) =>
      match r.snippet
      case None => r.startLine.At? || (r.startLine == r.startColumn == r.endLine == r.endColumn == Nil)
      case Some(text) => text != "" && lib.redact(text) != "" && lib.redact(lib.redact(text)) == lib.redact(text)
  }

  predicate HasSnippet(loc: ResLoc) { loc.region.Some? && loc.region.value.snippet.Some? }

  // Redaction leaves the result's first snippet alone, unless that is at its first location.
  predicate FirstSnippetSafe(lib: Lib, locs: seq<ResLoc>) {
    forall k | 0 < k < |locs| && HasSnippet(locs[k]) ::
      (exists j | 0 <= j < k :: HasSnippet(locs[j])) || lib.redact(locs[k].region.value.snippet.value) == locs[k].region.value.snippet.value
  }

  ghost predicate Preservable(lib: Lib, res: SarifResult) {
    && lib.redact(lib.redact(res.text)) == lib.redact(res.text)
    && (forall k | 0 <= k < |res.locations| :: Kept(lib, res.locations[k]))
    && FirstSnippetSafe(lib, res.locations)
  }

  // Exported and read again, a kept location is as Normalize first left it, and redaction has nothing left to do.
  lemma {:induction false} KeptReturns(lib: Lib, loc: ResLoc)
    requires Kept(lib, loc)
    ensures var l := RedactedLocation(lib, LocationOf(lib, loc));
            LocationOf(lib, ExportLocation(l)) == l && RedactedLocation(lib, l) == l
            && l.uri == loc.uri && (l.snippetHash == "" <==> !HasSnippet(loc))
  {
    var l := RedactedLocation(lib, LocationOf(lib, loc));
    LocationRoundTripExactly(lib, l);
    if HasSnippet(loc) { assert |l.snippetHash| == 64; }
  }

  lemma {:induction false} SameFirst(of: Location -> string, xs: seq<Location>, ys: seq<Location>, n: nat)
    requires |xs| == |ys| && n <= |xs| && forall k | 0 <= k < n :: of(xs[k]) == of(ys[k])
    ensures FirstNonEmpty(of, xs, n) == FirstNonEmpty(of, ys, n)
    decreases n
  {
    if n > 0 { SameFirst(of, xs, ys, n - 1); }
  }

  // The first hash of the redacted locations, when the first snippet is safe and not at location 0.
  lemma {:induction false} SafeFirstHash(lib: Lib, locs: seq<ResLoc>, n: nat)
    requires n <= |locs| && (forall k | 0 <= k < |locs| :: Kept(lib, locs[k])) && FirstSnippetSafe(lib, locs)
    requires n > 0 ==> !HasSnippet(locs[0])
    ensures var ls := LocationsOf(lib, locs);
            FirstNonEmpty(HashOf, RedactedLocations(lib, ls), n) == FirstNonEmpty(HashOf, ls, n)
    ensures FirstNonEmpty(HashOf, LocationsOf(lib, locs), n) == "" <==> forall j | 0 <= j < n :: !HasSnippet(locs[j])
    decreases n
  {
    if n > 0 {
      SafeFirstHash(lib, locs, n - 1);
      KeptReturns(lib, locs[n - 1]);
      var l := LocationOf(lib, locs[n - 1]);
      if HasSnippet(locs[n - 1]) { assert |l.snippetHash| == 64; }
    }
  }

  lemma {:induction false} HeadIsFirst(of: Location -> string, ls: seq<Location>, n: nat)
    requires 0 < n <= |ls| && of(ls[0]) != ""
    ensures FirstNonEmpty(of, ls, n) == of(ls[0])
    decreases n
  {
    if n > 1 {
      HeadIsFirst(of, ls, n - 1);
    } else {
      assert FirstNonEmpty(of, ls, 0) == "";
    }
  }

  lemma {:induction false} LocationsReturn(lib: Lib, locs: seq<ResLoc>)
    requires forall k | 0 <= k < |locs| :: Kept(lib, locs[k])
    ensures var ls := RedactedLocations(lib, LocationsOf(lib, locs));
            && LocationsOf(lib, ExportLocations(ls)) == ls && RedactedLocations(lib, ls) == ls
            && FirstNonEmpty(URIOf, ls, |ls|) == FirstNonEmpty(URIOf, LocationsOf(lib, locs), |ls|)
  {
    var read := LocationsOf(lib, locs);
    var ls := RedactedLocations(lib, read);
    forall k | 0 <= k < |ls|
      ensures LocationOf(lib, ExportLocations(ls)[k]) == ls[k] && RedactedLocation(lib, ls[k]) == ls[k] && ls[k].uri == read[k].uri
    {
      KeptReturns(lib, locs[k]);
    }
    SameFirst(URIOf, ls, read, |ls|);
  }

  // The finding's snippet hash is the first hash among its locations as they stand after redaction.
  lemma {:induction false} HashReturns(lib: Lib, locs: seq<ResLoc>, d: Finding)
    requires (forall k | 0 <= k < |locs| :: Kept(lib, locs[k])) && FirstSnippetSafe(lib, locs)
    requires d.locations == LocationsOf(lib, locs) && d.snippetHash == FirstNonEmpty(HashOf, d.locations, |d.locations|)
    ensures var ls := RedactedLocations(lib, d.locations); FirstNonEmpty(HashOf, ls, |ls|) == RedactedHash(lib, d)
  {
    var ls := RedactedLocations(lib, d.locations);
    if locs != [] && HasSnippet(locs[0]) {
      KeptReturns(lib, locs[0]);
      assert |ls[0].snippetHash| == 64 && |d.locations[0].snippetHash| == 64;
      HeadIsFirst(HashOf, ls, |ls|);
      HeadIsFirst(HashOf, d.locations, |d.locations|);
    } else {
      SafeFirstHash(lib, locs, |locs|);
    }
  }

  // The parts of a finding that a round trip is to keep.
  predicate SameIssue(f: Finding, g: Finding) {
    f.id == g.id && f.fingerprint == g.fingerprint && f.ruleID == g.ruleID && f.message == g.message && f.locations == g.locations
  }

  lemma {:induction false} SameAnchor(sha: Digest, f: Finding, g: Finding)
    requires f.snippetHash == g.snippetHash && f.locations == g.locations && f.matched == g.matched && f.message == g.message
    requires f.snippetHash == "" ==> f.snippet == g.snippet
    ensures Anchor(sha, f) == Anchor(sha, g)
  {
  }

  lemma {:induction false} IssueReturns(lib: Lib, src: Source, res: SarifResult, rules: map<string, SarifRule>,
                                        i: nat, again: Source, g: Finding, rules': map<string, SarifRule>, i': nat)
    requires Preservable(lib, res) && again.tool == src.tool
    requires var f := FindingOf(lib, src, res, rules, i);
             g.ruleID == f.ruleID && g.message == f.message && g.locations == f.locations
    ensures SameIssue(FindingOf(lib, again, ExportFinding(g), rules', i'), FindingOf(lib, src, res, rules, i))
  {
    var res' := ExportFinding(g);
    var f, f' := FindingOf(lib, src, res, rules, i), FindingOf(lib, again, res', rules', i');
    var d, d' := Draft(lib, src, res, rules, i), Draft(lib, again, res', rules', i');
    FindingParts(lib, src, res, rules, i);
    FindingParts(lib, again, res', rules', i');
    LocationsReturn(lib, res.locations);
    assert d'.locations == f.locations && f'.locations == f.locations;
    assert d'.scopePath == d.scopePath;
    HashReturns(lib, res.locations, d);
    assert d'.snippetHash == f.snippetHash;
    NothingLeftToRedact(lib, d');
    SameAnchor(lib.sha, f, f');
    assert f.fingerprint == f.id && f'.fingerprint == f'.id;
  }

  lemma {:induction false} NothingLeftToRedact(lib: Lib, d: Finding)
    requires RedactedLocations(lib, d.locations) == d.locations
    ensures RedactedHash(lib, d) == d.snippetHash
  {
    if d.locations != [] {
      assert RedactedLocation(lib, d.locations[0]) == d.locations[0];
    }
  }

  // ---- The log ----

  ghost predicate AllPreservable(lib: Lib, log: seq<SarifRun>) {
    forall r, k | 0 <= r < |log| && 0 <= k < |log[r].results| :: Preservable(lib, log[r].results[k])
  }

  ghost predicate ComesBack(lib: Lib, src: Source, f: Finding) {
    forall g: Finding, again: Source, rules, i |
      again.tool == src.tool && g.ruleID == f.ruleID && g.message == f.message && g.locations == f.locations ::
      SameIssue(FindingOf(lib, again, ExportFinding(g), rules, i), f)
  }

  lemma {:induction false} JoinedOrigin(parts: seq<seq<Finding>>, n: nat, k: nat) returns (r: nat, i: nat)
    requires n <= |parts| && k < |Joined(parts, n)|
    ensures r < n && i < |parts[r]| && parts[r][i] == Joined(parts, n)[k]
    decreases n
  {
    if k < |Joined(parts, n - 1)| {
      r, i := JoinedOrigin(parts, n - 1, k);
    } else {
      r, i := n - 1, k - |Joined(parts, n - 1)|;
    }
  }

  lemma {:induction false} CandidateComesBack(lib: Lib, src: Source, log: seq<SarifRun>, k: nat)
    requires AllPreservable(lib, log) && k < |Candidates(lib, src, log)|
    ensures ComesBack(lib, src, Candidates(lib, src, log)[k])
  {
    var r, j := JoinedOrigin(Parts(lib, src, log), |log|, k);
    var f, res, own := Candidates(lib, src, log)[k], log[r].results[j], RuleByID(log[r].rules, |log[r].rules|);
    forall g: Finding, again: Source, rules, i |
      again.tool == src.tool && g.ruleID == f.ruleID && g.message == f.message && g.locations == f.locations
      ensures SameIssue(FindingOf(lib, again, ExportFinding(g), rules, i), f)
    {
      IssueReturns(lib, src, res, own, j, again, g, rules, i);
    }
  }

  lemma {:induction false} OnlyOrder(order: seq<string>, tool: string)
    requires Orders(order, {tool})
    ensures order == [tool]
  {
    assert tool in order;
    var last := |order| - 1;
    assert order[0] in order && order[last] in order;
  }

  lemma {:induction false} OneGroup(run: RunOutcome)
    ensures var tool := ToolName(run.tool);
            GroupRuns([run], 1) == Grouped(map[tool := run.findings], map[tool := run.toolVersion])
  {
    assert GroupRuns([run], 1) == AddRun(GroupRuns([run], 0), run);
    assert [] + run.findings == run.findings;
  }

  lemma {:induction false} ExportOfOneRun(run: RunOutcome, fs: seq<Finding>, log: seq<SarifRun>)
    requires IsExport(GroupReport([run], fs), log)
    ensures log == [ExportRun(ToolName(run.tool), run.toolVersion, run.findings)]
  {
    var tool := ToolName(run.tool);
    var order := ExportOrder([run], fs, log);
    OneGroup(run);
    assert map[tool := run.findings].Keys == {tool};
    OnlyOrder(order, tool);
    assert log == [log[0]];
  }

  lemma {:induction false} DistinctStay(fs: seq<Finding>, n: nat)
    requires n <= |fs| && forall i, j | 0 <= i < j < |fs| :: fs[i].id != fs[j].id
    ensures Condensed(fs, n) == fs[..n]
    decreases n
  {
    if n > 0 {
      DistinctStay(fs, n - 1);
      CondensedStep(fs, n - 1);
      FindNot(fs[..n - 1], fs[n - 1].id);
      assert fs[..n] == fs[..n - 1] + [fs[n - 1]];
    }
  }

  lemma {:induction false} SurvivorComesBack(lib: Lib, src: Source, log: seq<SarifRun>, j: nat, again: Source,
                                             rules: map<string, SarifRule>, i: nat)
    requires AllPreservable(lib, log) && j < |Normalized(lib, src, log)| && again.tool == src.tool
    ensures var f := Normalized(lib, src, log)[j]; SameIssue(FindingOf(lib, again, ExportFinding(f), rules, i), f)
  {
    var all, f := Candidates(lib, src, log), Normalized(lib, src, log)[j];
    NormalizedExactly(lib, src, log);
    var at := Firsts(all, |all|)[j];
    CandidateComesBack(lib, src, log, at);
    assert ComesBack(lib, src, all[at]);
    assert f.ruleID == all[at].ruleID && f.message == all[at].message && f.locations == all[at].locations;
  }

  ghost predicate SameIssues(fs: seq<Finding>, gs: seq<Finding>) {
    |fs| == |gs| && forall j | 0 <= j < |fs| :: SameIssue(fs[j], gs[j])
  }

  lemma {:induction false} SecondReading(lib: Lib, src: Source, log: seq<SarifRun>, again: Source, run: SarifRun)
    requires AllPreservable(lib, log) && again.tool == src.tool
    requires run.results == Map(ExportFinding, Normalized(lib, src, log))
    ensures SameIssues(RunCandidates(lib, again, run), Normalized(lib, src, log))
  {
    var out, fs := Normalized(lib, src, log), RunCandidates(lib, again, run);
    forall j | 0 <= j < |fs| ensures SameIssue(fs[j], out[j]) {
      SurvivorComesBack(lib, src, log, j, again, RuleByID(run.rules, |run.rules|), j);
    }
  }

  lemma {:induction false} OnePart(parts: seq<seq<Finding>>)
    requires |parts| == 1 && forall i, j | 0 <= i < j < |parts[0]| :: parts[0][i].id != parts[0][j].id
    ensures AddParts(parts, |parts|) == parts[0]
  {
    var fs := parts[0];
    AddPartsExactly(parts, |parts|);
    assert Joined(parts, |parts|) == Joined(parts, 0) + fs == fs;
    DistinctStay(fs, |fs|);
    assert fs[..|fs|] == fs;
  }

  lemma {:induction false} OneRunNormalized(lib: Lib, src: Source, run: SarifRun)
    requires var fs := RunCandidates(lib, src, run); forall i, j | 0 <= i < j < |fs| :: fs[i].id != fs[j].id
    ensures Normalized(lib, src, [run]) == RunCandidates(lib, src, run)
  {
    var fs := RunCandidates(lib, src, run);
    assert Parts(lib, src, [run]) == [fs];
    OnePart(Parts(lib, src, [run]));
  }

  lemma {:induction false} SameIssuesDistinct(fs: seq<Finding>, gs: seq<Finding>)
    requires SameIssues(fs, gs) && forall i, j | 0 <= i < j < |gs| :: gs[i].id != gs[j].id
    ensures forall i, j | 0 <= i < j < |fs| :: fs[i].id != fs[j].id
  {
    forall i, j | 0 <= i < j < |fs| ensures fs[i].id != fs[j].id {
      assert SameIssue(fs[i], gs[i]) && SameIssue(fs[j], gs[j]);
    }
  }

  // Normalize's findings, exported as one tool's run and normalized again for that tool, are the same
  // issues in the same order: same ids, rules, messages and locations.
  lemma {:induction false} RoundTrip(lib: Lib, src: Source, log: seq<SarifRun>, run: RunOutcome, fs: seq<Finding>,
                                     exported: seq<SarifRun>, again: Source)
    requires AllPreservable(lib, log) && again.tool == src.tool
    requires run.findings == Normalized(lib, src, log) && IsExport(GroupReport([run], fs), exported)
    ensures SameIssues(Normalized(lib, again, exported), Normalized(lib, src, log))
  {
    ExportOfOneRun(run, fs, exported);
    SecondReading(lib, src, log, again, exported[0]);
    NormalizedIDs(lib, src, log);
    SameIssuesDistinct(RunCandidates(lib, again, exported[0]), Normalized(lib, src, log));
    OneRunNormalized(lib, again, exported[0]);
  }

  // A location that a second reading leaves as it is.
  predicate Lasting(lib: Lib, l: Location) {
    && (if l.snippet == "" then l.snippetHash == ""
        else lib.redact(l.snippet) == l.snippet && l.snippetHash == lib.sha(l.snippet))
    && (l.startLine.At? || l.snippet != "" || (l.startLine == l.startColumn == l.endLine == l.endColumn == Nil))
  }

  lemma {:induction false} LastingExactly(lib: Lib, l: Location)
    ensures RedactedLocation(lib, LocationOf(lib, ExportLocation(l))) == l <==> Lasting(lib, l)
  {
  }

  // Of any finding, exported and read again: its locations come back exactly when each of them lasts.
  lemma {:induction false} LocationsComeBackExactly(lib: Lib, again: Source, g: Finding,
                                                    rules: map<string, SarifRule>, i: nat)
    ensures FindingOf(lib, again, ExportFinding(g), rules, i).locations == g.locations
       <==> forall k | 0 <= k < |g.locations| :: Lasting(lib, g.locations[k])
  {
    FindingParts(lib, again, ExportFinding(g), rules, i);
    var ls := FindingOf(lib, again, ExportFinding(g), rules, i).locations;
    forall k | 0 <= k < |g.locations| ensures ls[k] == g.locations[k] <==> Lasting(lib, g.locations[k]) {
      LastingExactly(lib, g.locations[k]);
    }
  }

  // The redactor leaves the texts of a result alone: its message and every snippet it has.
  predicate LeftAlone(lib: Lib, res: SarifResult) {
    && lib.redact(res.text) == res.text
    && forall k | 0 <= k < |res.locations| && HasSnippet(res.locations[k]) ::
         lib.redact(res.locations[k].region.value.snippet.value) == res.locations[k].region.value.snippet.value
  }

  // Of such a result all that is asked is its locations' form.
  lemma {:induction false} UnchangedTextPreservable(lib: Lib, res: SarifResult)
    requires LeftAlone(lib, res)
    requires forall k | 0 <= k < |res.locations| && res.locations[k].region.Some? ::
      var r := res.locations[k].region.value; r.snippet != Some("") && (r.snippet.Some? || r.startLine.At?)
    ensures Preservable(lib, res)
  {
    forall k | 0 <= k < |res.locations| ensures Kept(lib, res.locations[k]) {
    }
  }

  // The conditions are needed: an empty snippet's hash does not come back, nor do the columns of a
  // region with neither a start line nor a snippet.
  lemma {:induction false} EmptySnippetIsLost(lib: Lib, loc: ResLoc)
    requires loc.region.Some? && loc.region.value.snippet == Some("")
    ensures LocationOf(lib, ExportLocation(LocationOf(lib, loc))) != LocationOf(lib, loc)
  {
    assert |LocationOf(lib, loc).snippetHash| == 64;
    LocationRoundTripExactly(lib, LocationOf(lib, loc));
  }

  lemma {:induction false} BareColumnsAreLost(lib: Lib, loc: ResLoc)
    requires loc.region.Some? && loc.region.value.snippet == None
    requires loc.region.value.startLine == Nil && loc.region.value.startColumn.At?
    ensures LocationOf(lib, ExportLocation(LocationOf(lib, loc))).startColumn == Nil
  {
  }
}
