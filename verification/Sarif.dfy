// SARIF results into findings, and findings back into SARIF.
module Sarif {
  import opened Options
  import opened Evidence
  import opened Fingerprints

  datatype Region = Region(startLine: IntPtr, startColumn: IntPtr, endLine: IntPtr, endColumn: IntPtr, snippet: Option<string>)
  datatype ResLoc = ResLoc(uri: string, region: Option<Region>)
  // A rule's "security-severity" property, where it is a string; its other properties are not modelled.
  datatype SarifRule = SarifRule(id: string, securitySeverity: Option<string>)
  datatype SarifResult = SarifResult(ruleID: string, level: string, text: string, locations: seq<ResLoc>)
  datatype SarifRun = SarifRun(name: string, version: string, rules: seq<SarifRule>, results: seq<SarifResult>)

  // What the code takes from elsewhere: the digest, the redactor, and the adapter's severity rule.
  datatype Lib = Lib(
    sha: Digest, redact: string -> string, severity: (string, SarifResult, map<string, SarifRule>) -> Severity)

  datatype Source = Source(tool: string, version: string)

  // ---- Normalize: one result ----

  function LocationOf(lib: Lib, loc: ResLoc): Location {
    match loc.region
    case None => Location(loc.uri, Nil, Nil, Nil, Nil, "", "")
    case Some(r) =>
      var (text, hash) := if r.snippet.Some? then (r.snippet.value, lib.sha(r.snippet.value)) else ("", "");
      Location(loc.uri, r.startLine, r.startColumn, r.endLine, r.endColumn, text, hash)
  }

  function LocationsOf(lib: Lib, locs: seq<ResLoc>): (r: seq<Location>)
    ensures |r| == |locs| && forall i | 0 <= i < |locs| :: r[i] == LocationOf(lib, locs[i])
  {
    seq(|locs|, i requires 0 <= i < |locs| => LocationOf(lib, locs[i]))
  }

  function URIOf(l: Location): string { l.uri }
  function HashOf(l: Location): string { l.snippetHash }

  // The first non-empty one, of the first n.
  function FirstNonEmpty(of: Location -> string, ls: seq<Location>, n: nat): string
    requires n <= |ls|
  {
    if n == 0 then ""
    else
      var before := FirstNonEmpty(of, ls, n - 1);
      if before == "" then of(ls[n - 1]) else before
  }

  function RuleByID(rules: seq<SarifRule>, n: nat): map<string, SarifRule>
    requires n <= |rules|
  {
    if n == 0 then map[] else RuleByID(rules, n - 1)[rules[n - 1].id := rules[n - 1]]
  }

  function NativeSeverity(tool: string, res: SarifResult, ruleByID: map<string, SarifRule>): string {
    if res.level != "" then res.level
    else if res.ruleID in ruleByID && ruleByID[res.ruleID].securitySeverity.Some?
         && ruleByID[res.ruleID].securitySeverity.value != "" then ruleByID[res.ruleID].securitySeverity.value
    else if tool == "gitleaks" then "CRITICAL"
    else "unspecified"
  }

  function Rationale(tool: string, ruleID: string): string {
    "Reported directly by " + tool + " scanner" + if ruleID != "" then " for rule " + ruleID else ""
  }

  // The finding before redaction and identification.
  function Draft(lib: Lib, src: Source, res: SarifResult, ruleByID: map<string, SarifRule>, i: nat): Finding {
    var locs := LocationsOf(lib, res.locations);
    var path := FirstNonEmpty(URIOf, locs, |locs|);
    Finding("", "", src.tool, res.ruleID, lib.severity(src.tool, res, ruleByID), locs,
      if path == "" then "target" else path, FirstNonEmpty(HashOf, locs, |locs|), res.text, res.text,
      if locs != [] && locs[0].snippet != "" then locs[0].snippet else "", "", "",
      HighConfidence, Rationale(src.tool, res.ruleID), Unreviewed, ReviewerTool, src.tool, [], [], i,
      Carried(src.version, "", NativeSeverity(src.tool, res, ruleByID), "HEAD", "",
        "Review finding " + res.ruleID + " and apply recommended remediation", "open", "sarif://" + src.tool + "/results.sarif"))
  }

  // ---- RedactFinding ----

  function RedactAt(lib: Lib, f: Finding, i: nat): (r: Finding)
    requires i < |f.locations|
    ensures |r.locations| == |f.locations|
  {
    var orig := f.locations[i].snippet;
    if orig == "" then f
    else
      var redacted := lib.redact(orig);
      var rehash := f.snippetHash == "" || orig != redacted;
      var l := f.locations[i].(snippet := redacted,
                               snippetHash := if rehash then lib.sha(redacted) else f.locations[i].snippetHash);
      f.(locations := f.locations[i := l], snippetHash := if rehash && i == 0 then lib.sha(redacted) else f.snippetHash)
  }

  function RedactLocations(lib: Lib, f: Finding, n: nat): (r: Finding)
    requires n <= |f.locations|
    ensures |r.locations| == |f.locations|
  {
    if n == 0 then f else RedactAt(lib, RedactLocations(lib, f, n - 1), n - 1)
  }

  function RedactMatch(lib: Lib, f: Finding): string {
    if f.matched == "" then ""
    else
      var redacted := lib.redact(f.matched);
      if (f.tool == "gitleaks" || f.ruleID == "slack-bot-token" || f.ruleID == "stripe-access-token")
         && redacted == f.matched && |f.matched| > 6 then "[REDACTED]"
      else redacted
  }

  function RedactTexts(lib: Lib, f: Finding): Finding {
    f.(message := lib.redact(f.message), details := lib.redact(f.details), snippet := lib.redact(f.snippet),
       matched := RedactMatch(lib, f), carried := f.carried.(context := lib.redact(f.carried.context)))
  }

  function ShowFirstSnippet(f: Finding): Finding {
    if f.locations != [] && f.locations[0].snippet != "" then f.(snippet := f.locations[0].snippet) else f
  }

  function Redacted(lib: Lib, f: Finding): Finding {
    ShowFirstSnippet(RedactLocations(lib, RedactTexts(lib, f), |f.locations|))
  }

  method RedactFinding(lib: Lib, f: Finding) returns (r: Finding)
    ensures r == Redacted(lib, f)
  {
    r := f.(message := lib.redact(f.message), details := lib.redact(f.details), snippet := lib.redact(f.snippet),
            carried := f.carried.(context := lib.redact(f.carried.context)));
    if f.tool == "gitleaks" || f.ruleID == "slack-bot-token" || f.ruleID == "stripe-access-token" {
      if f.matched != "" {
        var redacted := lib.redact(f.matched);
        if redacted == f.matched && |f.matched| > 6 {
          r := r.(matched := "[REDACTED]");
        } else {
          r := r.(matched := redacted);
        }
      }
    } else if f.matched != "" {
      r := r.(matched := lib.redact(f.matched));
    }
    ghost var texts := RedactTexts(lib, f);
    assert r == texts;
    for i := 0 to |f.locations|
      invariant |r.locations| == |f.locations| && r == RedactLocations(lib, texts, i)
    {
      var orig := r.locations[i].snippet;
      if orig != "" {
        var redacted := lib.redact(orig);
        var loc := r.locations[i].(snippet := redacted);
        if r.snippetHash == "" || orig != redacted {
          loc := loc.(snippetHash := lib.sha(redacted));
          if i == 0 {
            r := r.(snippetHash := loc.snippetHash);
          }
        }
        r := r.(locations := r.locations[i := loc]);
      }
    }
    if |r.locations| > 0 && r.locations[0].snippet != "" {
      r := r.(snippet := r.locations[0].snippet);
    }
  }

  // ---- Normalize: the log ----

  function Identified(sha: Digest, f: Finding): Finding {
    f.(id := FingerprintOf(sha, f), fingerprint := FingerprintOf(sha, f))
  }

  function FindingOf(lib: Lib, src: Source, res: SarifResult, ruleByID: map<string, SarifRule>, i: nat): Finding {
    Identified(lib.sha, Redacted(lib, Draft(lib, src, res, ruleByID, i)))
  }

  // A run's results as findings, in order.
  function RunCandidates(lib: Lib, src: Source, run: SarifRun): (fs: seq<Finding>)
    ensures |fs| == |run.results|
    ensures forall i | 0 <= i < |fs| :: fs[i] == FindingOf(lib, src, run.results[i], RuleByID(run.rules, |run.rules|), i)
  {
    seq(|run.results|, i requires 0 <= i < |run.results| =>
      FindingOf(lib, src, run.results[i], RuleByID(run.rules, |run.rules|), i))
  }

  // Each run's findings.
  function Parts(lib: Lib, src: Source, log: seq<SarifRun>): (parts: seq<seq<Finding>>)
    ensures |parts| == |log| && forall r | 0 <= r < |log| :: parts[r] == RunCandidates(lib, src, log[r])
  {
    seq(|log|, r requires 0 <= r < |log| => RunCandidates(lib, src, log[r]))
  }

  function Joined(parts: seq<seq<Finding>>, n: nat): seq<Finding>
    requires n <= |parts|
  {
    if n == 0 then [] else Joined(parts, n - 1) + parts[n - 1]
  }

  // All the log's results as findings, in order.
  function Candidates(lib: Lib, src: Source, log: seq<SarifRun>): seq<Finding> {
    Joined(Parts(lib, src, log), |log|)
  }

  // The place of the finding with an id, or the length of the list.
  function Find(fs: seq<Finding>, id: string): (i: nat)
    ensures i <= |fs|
  {
    if fs == [] || fs[0].id == id then 0 else 1 + Find(fs[1..], id)
  }

  function AddCandidate(out: seq<Finding>, f: Finding): seq<Finding> {
    var at := Find(out, f.id);
    if at == |out| then out + [f]
    else out[at := out[at].(duplicates := out[at].duplicates + [f.id], related := out[at].related + [f.id])]
  }

  function AddAll(out: seq<Finding>, fs: seq<Finding>, n: nat): seq<Finding>
    requires n <= |fs|
  {
    if n == 0 then out else AddCandidate(AddAll(out, fs, n - 1), fs[n - 1])
  }

  function AddParts(parts: seq<seq<Finding>>, n: nat): seq<Finding>
    requires n <= |parts|
  {
    if n == 0 then [] else AddAll(AddParts(parts, n - 1), parts[n - 1], |parts[n - 1]|)
  }

  function Normalized(lib: Lib, src: Source, log: seq<SarifRun>): seq<Finding> {
    AddParts(Parts(lib, src, log), |log|)
  }

  method IndexRules(rules: seq<SarifRule>) returns (ruleByID: map<string, SarifRule>)
    ensures ruleByID == RuleByID(rules, |rules|)
  {
    ruleByID := map[];
    for n := 0 to |rules|
      invariant ruleByID == RuleByID(rules, n)
    {
      ruleByID := ruleByID[rules[n].id := rules[n]];
    }
  }

  // The loop over a result's locations.
  method ReadLocations(lib: Lib, locs: seq<ResLoc>)
    returns (out: seq<Location>, primaryPath: string, snippetHash: string)
    ensures out == LocationsOf(lib, locs)
    ensures primaryPath == FirstNonEmpty(URIOf, out, |out|) && snippetHash == FirstNonEmpty(HashOf, out, |out|)
  {
    out, primaryPath, snippetHash := [], "", "";
    ghost var all := LocationsOf(lib, locs);
    for n := 0 to |locs|
      invariant out == all[..n]
      invariant primaryPath == FirstNonEmpty(URIOf, all, n) && snippetHash == FirstNonEmpty(HashOf, all, n)
    {
      var fl := Location(locs[n].uri, Nil, Nil, Nil, Nil, "", "");
      if primaryPath == "" {
        primaryPath := fl.uri;
      }
      if locs[n].region.Some? {
        var r := locs[n].region.value;
        fl := fl.(startLine := r.startLine, startColumn := r.startColumn, endLine := r.endLine, endColumn := r.endColumn);
        if r.snippet.Some? {
          fl := fl.(snippet := r.snippet.value, snippetHash := lib.sha(r.snippet.value));
          if snippetHash == "" {
            snippetHash := fl.snippetHash;
          }
        }
      }
      assert fl == all[n];
      out := out + [fl];
    }
  }

  method NormalizeResult(lib: Lib, src: Source, res: SarifResult, ruleByID: map<string, SarifRule>, i: nat)
    returns (f: Finding)
    ensures f == FindingOf(lib, src, res, ruleByID, i)
  {
    var locations, primaryPath, snippetHash := ReadLocations(lib, res.locations);
    if primaryPath == "" {
      primaryPath := "target";
    }
    var snippet := "";
    if |locations| > 0 && locations[0].snippet != "" {
      snippet := locations[0].snippet;
    }
    f := Finding("", "", src.tool, res.ruleID, lib.severity(src.tool, res, ruleByID), locations,
      primaryPath, snippetHash, res.text, res.text, snippet, "", "",
      HighConfidence, Rationale(src.tool, res.ruleID), Unreviewed, ReviewerTool, src.tool, [], [], i,
      Carried(src.version, "", NativeSeverity(src.tool, res, ruleByID), "HEAD", "",
        "Review finding " + res.ruleID + " and apply recommended remediation", "open", "sarif://" + src.tool + "/results.sarif"));
    f := RedactFinding(lib, f);
    var id := Fingerprint(lib.sha, f);
    f := f.(id := id, fingerprint := id);
  }

  // seen holds the place of every id in out.
  ghost predicate Indexes(seen: map<string, nat>, out: seq<Finding>) {
    && (forall id :: Find(out, id) == if id in seen then seen[id] else |out|)
    && (forall id | id in seen :: seen[id] < |out|)
  }

  lemma {:induction false} FindAfter(out: seq<Finding>, f: Finding, id: string)
    ensures Find(out + [f], id) ==
      if Find(out, id) < |out| then Find(out, id) else if f.id == id then |out| else |out| + 1
  {
    if out != [] && out[0].id != id {
      assert (out + [f])[1..] == out[1..] + [f];
      FindAfter(out[1..], f, id);
    }
  }

  lemma {:induction false} FindSameIDs(xs: seq<Finding>, ys: seq<Finding>, id: string)
    requires |xs| == |ys| && forall i | 0 <= i < |xs| :: xs[i].id == ys[i].id
    ensures Find(xs, id) == Find(ys, id)
  {
    if xs != [] {
      forall i | 0 <= i < |xs| - 1 ensures xs[1..][i].id == ys[1..][i].id {
        assert xs[i + 1].id == ys[i + 1].id;
      }
      FindSameIDs(xs[1..], ys[1..], id);
    }
  }

  // One turn of Normalize's inner loop, from the seen lookup on.
  method Record(out: seq<Finding>, seen: map<string, nat>, f: Finding)
    returns (out': seq<Finding>, seen': map<string, nat>)
    requires Indexes(seen, out)
    ensures out' == AddCandidate(out, f) && Indexes(seen', out')
  {
    assert Find(out, f.id) == if f.id in seen then seen[f.id] else |out|;
    if f.id in seen {
      var idx := seen[f.id];
      out' := out[idx := out[idx].(duplicates := out[idx].duplicates + [f.id], related := out[idx].related + [f.id])];
      seen' := seen;
      forall id ensures Find(out', id) == Find(out, id) {
        FindSameIDs(out', out, id);
      }
    } else {
      out' := out + [f];
      seen' := seen[f.id := |out|];
      forall id ensures Find(out', id) == if id in seen' then seen'[id] else |out'| {
        FindAfter(out, f, id);
      }
    }
  }

  // The loop over one run's results.
  method NormalizeRun(lib: Lib, src: Source, run: SarifRun, out: seq<Finding>, seen: map<string, nat>)
    returns (out': seq<Finding>, seen': map<string, nat>)
    requires Indexes(seen, out)
    ensures Indexes(seen', out')
    ensures var fs := RunCandidates(lib, src, run); out' == AddAll(out, fs, |fs|)
  {
    var ruleByID := IndexRules(run.rules);
    out', seen' := out, seen;
    ghost var fs := RunCandidates(lib, src, run);
    for i := 0 to |run.results|
      invariant out' == AddAll(out, fs, i) && Indexes(seen', out')
    {
      var f := NormalizeResult(lib, src, run.results[i], ruleByID, i);
      assert f == fs[i];
      out', seen' := Record(out', seen', f);
    }
  }

  method Normalize(lib: Lib, src: Source, log: seq<SarifRun>) returns (out: seq<Finding>)
    ensures out == Normalized(lib, src, log)
  {
    out := [];
    var seen: map<string, nat> := map[];
    for r := 0 to |log|
      invariant out == AddParts(Parts(lib, src, log), r) && Indexes(seen, out)
    {
      out, seen := NormalizeRun(lib, src, log[r], out, seen);
    }
  }

  // ---- A matched secret ----

  // Redaction gives a match its redacted text; but a match that redaction leaves alone, of more than six
  // characters, is struck out whole where the tool or the rule says it is a secret.
  lemma {:induction false} MatchRedactedExactly(lib: Lib, f: Finding)
    ensures var secret := f.tool == "gitleaks" || f.ruleID == "slack-bot-token" || f.ruleID == "stripe-access-token";
            && (f.matched == "" ==> RedactTexts(lib, f).matched == "")
            && (f.matched != "" && secret && lib.redact(f.matched) == f.matched && |f.matched| > 6 ==>
                  RedactTexts(lib, f).matched == "[REDACTED]")
            && (f.matched != "" && !(secret && lib.redact(f.matched) == f.matched && |f.matched| > 6) ==>
                  RedactTexts(lib, f).matched == lib.redact(f.matched))
  {
  }

  // A location's hash is made anew when its snippet changes, or while the finding has no hash, which ends
  // with the first location if that has a snippet.
  predicate Rehashed(lib: Lib, f: Finding, k: nat)
    requires k < |f.locations|
  {
    || lib.redact(f.locations[k].snippet) != f.locations[k].snippet
    || (f.snippetHash == "" && (k == 0 || f.locations[0].snippet == ""))
  }

  ghost predicate LocationRedacted(lib: Lib, f: Finding, r: Location, k: nat)
    requires k < |f.locations|
  {
    var l := f.locations[k];
    if l.snippet == "" then r == l
    else r == l.(snippet := lib.redact(l.snippet),
                 snippetHash := if Rehashed(lib, f, k) then lib.sha(lib.redact(l.snippet)) else l.snippetHash)
  }

  function HashAfter(lib: Lib, f: Finding): string {
    if f.locations != [] && f.locations[0].snippet != "" && Rehashed(lib, f, 0)
    then lib.sha(lib.redact(f.locations[0].snippet)) else f.snippetHash
  }

  ghost predicate LocationsRedacted(lib: Lib, f: Finding, r: Finding, n: nat)
    requires n <= |f.locations|
  {
    && |r.locations| == |f.locations| && r == f.(locations := r.locations, snippetHash := r.snippetHash)
    && r.snippetHash == (if n == 0 then f.snippetHash else HashAfter(lib, f))
    && (forall k | 0 <= k < n :: LocationRedacted(lib, f, r.locations[k], k))
    && (forall k | n <= k < |f.locations| :: r.locations[k] == f.locations[k])
  }

  lemma {:induction false} RedactOneMore(lib: Lib, f: Finding, r: Finding, n: nat)
    requires n < |f.locations| && LocationsRedacted(lib, f, r, n)
    ensures LocationsRedacted(lib, f, RedactAt(lib, r, n), n + 1)
  {
    var r' := RedactAt(lib, r, n);
    assert |lib.sha(lib.redact(f.locations[0].snippet))| == 64;
    assert r.locations[n] == f.locations[n];
    assert r' == f.(locations := r'.locations, snippetHash := r'.snippetHash);
    assert LocationRedacted(lib, f, r'.locations[n], n);
    forall k | 0 <= k < n ensures LocationRedacted(lib, f, r'.locations[k], k) {
      assert r'.locations[k] == r.locations[k];
    }
  }

  lemma {:induction false} LocationsAreRedacted(lib: Lib, f: Finding, n: nat)
    requires n <= |f.locations|
    ensures LocationsRedacted(lib, f, RedactLocations(lib, f, n), n)
    decreases n
  {
    if n > 0 {
      LocationsAreRedacted(lib, f, n - 1);
      RedactOneMore(lib, f, RedactLocations(lib, f, n - 1), n - 1);
    }
  }

  // Of any finding: its texts are redacted; every location's snippet is redacted and rehashed so, the finding's hash follows its
  // first location's, and its snippet is the first location's, redacted, unless nothing is left of that.
  lemma {:induction false} RedactedExactly(lib: Lib, f: Finding)
    ensures var r := Redacted(lib, f);
            && r.message == lib.redact(f.message) && r.details == lib.redact(f.details)
            && r.carried == f.carried.(context := lib.redact(f.carried.context))
            && |r.locations| == |f.locations|
            && (forall k | 0 <= k < |f.locations| :: LocationRedacted(lib, f, r.locations[k], k))
            && r.snippetHash == HashAfter(lib, f)
            && r.snippet == if f.locations != [] && f.locations[0].snippet != "" && lib.redact(f.locations[0].snippet) != ""
                            then lib.redact(f.locations[0].snippet) else lib.redact(f.snippet)
  {
    var t := RedactTexts(lib, f);
    LocationsAreRedacted(lib, t, |t.locations|);
    var r := RedactLocations(lib, t, |t.locations|);
    forall k | 0 <= k < |f.locations| ensures LocationRedacted(lib, f, r.locations[k], k) {
      assert LocationRedacted(lib, t, r.locations[k], k);
    }
    if f.locations != [] { assert LocationRedacted(lib, f, r.locations[0], 0); }
  }
}
