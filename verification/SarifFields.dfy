// What Normalize and Export make of each field.
module SarifFields {
  import opened Options
  import opened Text
  import opened Evidence
  import opened Sarif
  import opened SarifExport
  import opened SarifRoundTrip

  // ---- A result as a finding ----

  // The first location that names a file names this one; "target" when none does.
  ghost predicate FirstFile(res: SarifResult, path: string) {
    || (exists k | 0 <= k < |res.locations| ::
          path == res.locations[k].uri != "" && forall j | 0 <= j < k :: res.locations[j].uri == "")
    || (path == "target" && forall j | 0 <= j < |res.locations| :: res.locations[j].uri == "")
  }

  lemma {:induction false} FirstNonEmptyIs(of: Location -> string, ls: seq<Location>, n: nat)
    requires n <= |ls|
    ensures var s := FirstNonEmpty(of, ls, n);
            || (s == "" && forall j | 0 <= j < n :: of(ls[j]) == "")
            || exists k | 0 <= k < n :: s == of(ls[k]) != "" && forall j | 0 <= j < k :: of(ls[j]) == ""
    decreases n
  {
    if n > 0 { FirstNonEmptyIs(of, ls, n - 1); }
  }

  lemma {:induction false} ScopeIsFirstFile(lib: Lib, src: Source, res: SarifResult, rules: map<string, SarifRule>, i: nat)
    ensures FirstFile(res, FindingOf(lib, src, res, rules, i).scopePath)
  {
    var ls := LocationsOf(lib, res.locations);
    FindingParts(lib, src, res, rules, i);
    FirstNonEmptyIs(URIOf, ls, |ls|);
    forall k | 0 <= k < |ls| ensures URIOf(ls[k]) == res.locations[k].uri {
    }
    var path := FirstNonEmpty(URIOf, ls, |ls|);
    if path == "" {
      forall j | 0 <= j < |ls| ensures res.locations[j].uri == "" {
        assert URIOf(ls[j]) == "";
      }
    } else {
      var k :| 0 <= k < |ls| && path == URIOf(ls[k]) && forall j | 0 <= j < k :: URIOf(ls[j]) == "";
      forall j | 0 <= j < k ensures res.locations[j].uri == "" {
        assert URIOf(ls[j]) == "";
      }
    }
  }

  // A result's location as a finding's: the same file and place; its snippet redacted; a hash exactly with a
  // snippet, of the redacted text.
  ghost predicate ReadAs(lib: Lib, loc: ResLoc, l: Location) {
    match loc.region
    case None => l == Location(loc.uri, Nil, Nil, Nil, Nil, "", "")
    case Some(r) =>
      && l.uri == loc.uri && l.startLine == r.startLine && l.startColumn == r.startColumn
      && l.endLine == r.endLine && l.endColumn == r.endColumn
      && match r.snippet
         case None => l.snippet == "" && l.snippetHash == ""
         case Some(text) =>
           if text == "" then l.snippet == "" && l.snippetHash == lib.sha("")
           else l.snippet == lib.redact(text) && l.snippetHash == lib.sha(lib.redact(text))
  }

  lemma {:induction false} RedactedReadAs(lib: Lib, loc: ResLoc)
    ensures ReadAs(lib, loc, RedactedLocation(lib, LocationOf(lib, loc)))
  {
  }

  lemma {:induction false} LocationsReadAs(lib: Lib, src: Source, res: SarifResult, rules: map<string, SarifRule>, i: nat)
    ensures var ls := FindingOf(lib, src, res, rules, i).locations;
            |ls| == |res.locations| && forall k | 0 <= k < |ls| :: ReadAs(lib, res.locations[k], ls[k])
  {
    FindingParts(lib, src, res, rules, i);
    var ls := RedactedLocations(lib, Draft(lib, src, res, rules, i).locations);
    forall k | 0 <= k < |ls| ensures ReadAs(lib, res.locations[k], ls[k]) {
      RedactedReadAs(lib, res.locations[k]);
    }
  }

  // The scanner's own severity: the result's level, or its rule's, or a word for neither.
  ghost predicate Native(tool: string, res: SarifResult, rules: map<string, SarifRule>, s: string) {
    var ofRule := if res.ruleID in rules then rules[res.ruleID].securitySeverity else None;
    && (res.level != "" ==> s == res.level)
    && (res.level == "" && ofRule.Some? && ofRule.value != "" ==> s == ofRule.value)
    && (res.level == "" && (ofRule == None || ofRule == Some("")) ==> s == if tool == "gitleaks" then "CRITICAL" else "unspecified")
  }

  lemma {:induction false} RedactionKeepsRest(lib: Lib, f: Finding, n: nat)
    requires n <= |f.locations|
    ensures var r := RedactLocations(lib, f, n); r == f.(locations := r.locations, snippetHash := r.snippetHash)
    decreases n
  {
    if n > 0 { RedactionKeepsRest(lib, f, n - 1); }
  }

  lemma {:induction false} RedactedKeepsRest(lib: Lib, d: Finding)
    ensures var r := Redacted(lib, d);
            && r == d.(message := lib.redact(d.message), details := lib.redact(d.details), matched := RedactMatch(lib, d),
                       snippet := r.snippet, locations := r.locations, snippetHash := r.snippetHash,
                       carried := d.carried.(context := lib.redact(d.carried.context)))
  {
    var t := RedactTexts(lib, d);
    RedactionKeepsRest(lib, t, |t.locations|);
  }

  // The fields of a finding that do not place it.
  lemma {:induction false} NormalizedFields(lib: Lib, src: Source, res: SarifResult, rules: map<string, SarifRule>, i: nat)
    ensures var f := FindingOf(lib, src, res, rules, i);
            && f.tool == src.tool && f.ruleID == res.ruleID && f.severity == lib.severity(src.tool, res, rules)
            && f.message == lib.redact(res.text) && f.details == lib.redact(res.text) && f.matched == ""
            && f.documentationURL == "" && f.fingerprint == f.id && f.rawIndex == i
            && f.confidence == HighConfidence && f.challenge == Unreviewed
            && f.reviewer == ReviewerTool && f.reviewerIdentity == src.tool && f.related == [] && f.duplicates == []
  {
    RedactedKeepsRest(lib, Draft(lib, src, res, rules, i));
  }

  lemma {:induction false} NormalizedCarried(lib: Lib, src: Source, res: SarifResult, rules: map<string, SarifRule>, i: nat)
    ensures var c := FindingOf(lib, src, res, rules, i).carried;
            && c.toolVersion == src.version && c.command == "" && c.commit == "HEAD" && c.disposition == "open"
            && Native(src.tool, res, rules, c.nativeSeverity)
            && c.recommendation == "Review finding " + res.ruleID + " and apply recommended remediation"
            && c.artifactURI == "sarif://" + src.tool + "/results.sarif"
  {
    RedactedKeepsRest(lib, Draft(lib, src, res, rules, i));
  }

  lemma {:induction false} NormalizedRationale(lib: Lib, src: Source, res: SarifResult, rules: map<string, SarifRule>, i: nat)
    ensures FindingOf(lib, src, res, rules, i).rationale ==
              if res.ruleID == "" then "Reported directly by " + src.tool + " scanner"
              else "Reported directly by " + src.tool + " scanner for rule " + res.ruleID
  {
    RedactedKeepsRest(lib, Draft(lib, src, res, rules, i));
    var start := "Reported directly by " + src.tool;
    assert " scanner" + "" == " scanner" && " scanner for rule " == " scanner" + " for rule ";
    assert start + " scanner" + (" for rule " + res.ruleID) == start + (" scanner" + " for rule ") + res.ruleID;
  }

  // The text of a location's snippet, where it has one.
  ghost predicate Bears(loc: ResLoc, text: string) {
    loc.region.Some? && loc.region.value.snippet == Some(text)
  }

  lemma {:induction false} ShownAfterRedaction(lib: Lib, d: Finding)
    requires Hashed(lib, d) && d.snippet == if d.locations != [] then d.locations[0].snippet else ""
    ensures Redacted(lib, d).snippet == lib.redact(d.snippet)
  {
    var t := RedactTexts(lib, d);
    RedactLocationsExactly(lib, t, |t.locations|);
    assert RedactedUpTo(lib, t, RedactLocations(lib, t, |t.locations|), |t.locations|);
  }

  // The evidence shows the first location's snippet, redacted.
  lemma {:induction false} EvidenceSnippet(lib: Lib, src: Source, res: SarifResult, rules: map<string, SarifRule>, i: nat)
    ensures var f := FindingOf(lib, src, res, rules, i);
            && (forall text | res.locations != [] && Bears(res.locations[0], text) :: f.snippet == lib.redact(text))
            && ((res.locations == [] || forall text :: !Bears(res.locations[0], text)) ==> f.snippet == lib.redact(""))
  {
    var d := Draft(lib, src, res, rules, i);
    DraftHashed(lib, src, res, rules, i);
    assert Hashed(lib, d);
    ShownAfterRedaction(lib, d);
    if res.locations != [] {
      assert d.locations[0] == LocationOf(lib, res.locations[0]);
      if forall text :: !Bears(res.locations[0], text) { NoSnippet(lib, res.locations[0]); }
    }
  }

  // Its hash is that of the first snippet there is, of the redacted text where that is the first location's.
  lemma {:induction false} EvidenceHash(lib: Lib, src: Source, res: SarifResult, rules: map<string, SarifRule>, i: nat,
                                        k: nat, text: string)
    requires k < |res.locations| && Bears(res.locations[k], text)
    requires forall j, t | 0 <= j < k :: !Bears(res.locations[j], t)
    ensures FindingOf(lib, src, res, rules, i).snippetHash ==
              if k == 0 && text != "" then lib.sha(lib.redact(text)) else lib.sha(text)
  {
    var d := Draft(lib, src, res, rules, i);
    FindingParts(lib, src, res, rules, i);
    FirstBearer(lib, res.locations, |res.locations|, k, text);
    assert d.locations[0] == LocationOf(lib, res.locations[0]);
    if k > 0 { NoSnippet(lib, res.locations[0]); }
  }

  lemma {:induction false} NoSnippet(lib: Lib, loc: ResLoc)
    requires forall t :: !Bears(loc, t)
    ensures LocationOf(lib, loc).snippet == "" && LocationOf(lib, loc).snippetHash == ""
  {
    if loc.region.Some? && loc.region.value.snippet.Some? {
      assert Bears(loc, loc.region.value.snippet.value);
    }
  }

  lemma {:induction false} FirstBearer(lib: Lib, locs: seq<ResLoc>, n: nat, k: nat, text: string)
    requires k < |locs| && n <= |locs| && Bears(locs[k], text) && forall j, t | 0 <= j < k :: !Bears(locs[j], t)
    ensures FirstNonEmpty(HashOf, LocationsOf(lib, locs), n) == if k < n then lib.sha(text) else ""
    decreases n
  {
    if n > 0 {
      FirstBearer(lib, locs, n - 1, k, text);
      if n - 1 < k { NoSnippet(lib, locs[n - 1]); }
      assert |lib.sha(text)| == 64;
      assert LocationsOf(lib, locs)[n - 1] == LocationOf(lib, locs[n - 1]);
    }
  }

  // The rule that counts for an id is the last of the run's with it.
  lemma {:induction false} RuleByIDIs(rules: seq<SarifRule>, n: nat, id: string)
    requires n <= |rules|
    ensures var m := RuleByID(rules, n);
            if id in m then exists k | 0 <= k < n :: m[id] == rules[k] && rules[k].id == id && forall j | k < j < n :: rules[j].id != id
            else forall k | 0 <= k < n :: rules[k].id != id
    decreases n
  {
    if n > 0 { RuleByIDIs(rules, n - 1, id); }
  }

  // ---- A finding as a result ----

  // Critical and high are errors, medium is a warning, low a note, and anything else none.
  lemma {:induction false} LevelExactly(f: Finding)
    ensures var level := ExportFinding(f).level;
            && (level == "error" <==> f.severity in {Critical, High}) && (level == "warning" <==> f.severity == Medium)
            && (level == "note" <==> f.severity == Low)
            && (level == "none" <==> f.severity !in {Critical, High, Medium, Low})
  {
    assert "error"[0] == 'e' && "warning"[0] == 'w' && "note"[2] == 't' && "none"[2] == 'n' && |"note"| == |"none"| == 4;
  }

  // A location goes out with a region exactly when it has a start line or a snippet; the region has its
  // places, and a snippet exactly when the location does.
  lemma {:induction false} ExportedLocation(f: Finding, k: nat)
    requires k < |f.locations|
    ensures var l, out := f.locations[k], ExportFinding(f).locations;
            && |out| == |f.locations| && out[k].uri == l.uri
            && (out[k].region.Some? <==> l.startLine.At? || l.snippet != "")
            && (out[k].region.Some? ==>
                  var r := out[k].region.value;
                  && r.startLine == l.startLine && r.startColumn == l.startColumn && r.endLine == l.endLine
                  && r.endColumn == l.endColumn && r.snippet == if l.snippet == "" then None else Some(l.snippet))
  {
  }

  lemma {:induction false} RulesAre(fs: seq<Finding>, n: nat)
    requires n <= |fs|
    ensures var rules := RulesUsed(fs, n);
            && (forall k | 0 <= k < n :: HasRule(rules, fs[k].ruleID))
            && (forall r | r in rules :: r.securitySeverity == None && exists k | 0 <= k < n :: fs[k].ruleID == r.id)
            && (forall i, j | 0 <= i < j < |rules| :: rules[i].id != rules[j].id)
    decreases n
  {
    if n > 0 {
      RulesAre(fs, n - 1);
      var before := RulesUsed(fs, n - 1);
      HasRuleAppend(before, fs[n - 1].ruleID);
      forall i | 0 <= i < |before| && !HasRule(before, fs[n - 1].ruleID) ensures before[i].id != fs[n - 1].ruleID {
        assert before[i] in before;
      }
    }
  }

  // A tool's run names the tool and its version, lists each rule of its findings once and no other, and has
  // a result for each finding, in order, with its rule and message.
  lemma {:induction false} ExportedRun(tool: string, version: string, fs: seq<Finding>)
    ensures var run := ExportRun(tool, version, fs);
            && run.name == tool && run.version == (if version != "" then version else "1.0.0")
            && (forall f | f in fs :: HasRule(run.rules, f.ruleID))
            && (forall r | r in run.rules :: exists f | f in fs :: f.ruleID == r.id)
            && (forall i, j | 0 <= i < j < |run.rules| :: run.rules[i].id != run.rules[j].id)
            && |run.results| == |fs|
            && (forall k | 0 <= k < |fs| :: run.results[k].ruleID == fs[k].ruleID && run.results[k].text == fs[k].message)
  {
    RulesAre(fs, |fs|);
    forall f | f in fs ensures HasRule(RulesUsed(fs, |fs|), f.ruleID) {
      var k :| 0 <= k < |fs| && fs[k] == f;
      assert HasRule(RulesUsed(fs, |fs|), fs[k].ruleID);
    }
  }

  // The tool a finding goes under: what the first comma of its tool ends, trimmed, or all of it; and a name
  // of its own for none.
  ghost predicate GoesUnder(f: Finding, tool: string) {
    exists first, rest :: PartedAs(f.tool, first, rest) && NamedAfter(f.tool, first, tool)
  }

  ghost predicate PartedAs(s: string, first: string, rest: string) {
    ',' !in first && (s == first || s == first + "," + rest)
  }

  ghost predicate NamedAfter(s: string, first: string, tool: string) {
    var named := if s == first then first else TrimSpace(first);
    tool == if named != "" then named else "code-clearance"
  }

  lemma {:induction false} FirstPart(s: string) returns (rest: string)
    ensures var parts := SplitComma(s);
            && ',' !in parts[0] && (if ',' in s then s == parts[0] + "," + rest else s == parts[0])
  {
    SplitJoins(s);
    var parts := SplitComma(s);
    assert parts[0] in parts;
    if |parts| > 1 {
      rest := Join(parts[1..], ",");
      assert s[|parts[0]|] == ',';
    } else {
      rest := "";
    }
  }

  lemma {:induction false} ContainsComma(s: string)
    ensures Contains(s, ",") <==> ',' in s
  {
    if ',' in s {
      var i :| 0 <= i < |s| && s[i] == ',';
      assert OccursAt(s, ",", i);
    }
    if i :| 0 <= i <= |s| && OccursAt(s, ",", i) { assert s[i..i + 1][0] == ','; }
  }

  lemma {:induction false} PrimaryToolExactly(f: Finding)
    ensures GoesUnder(f, PrimaryTool(f))
  {
    ContainsComma(f.tool);
    var first := SplitComma(f.tool)[0];
    var rest := FirstPart(f.tool);
    assert PartedAs(f.tool, first, rest) && NamedAfter(f.tool, first, PrimaryTool(f));
  }
}
