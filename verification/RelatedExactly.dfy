// When two findings are related, told from their fields, and what becomes of two vulnerabilities of one
// package.
module RelatedExactly {
  import opened Text
  import opened Evidence
  import opened Related
  import opened Correlate
  import opened CorrelateOrder

  // ---- Identity and place ----

  // One text, and not an empty one.
  predicate InCommon(a: string, b: string) { a == b && |a| > 0 }

  // An id or a fingerprint in common.
  predicate SharesIdentity(f: Finding, g: Finding) {
    InCommon(f.id, g.id) || InCommon(f.fingerprint, g.fingerprint)
  }

  // Findings that share an id or a fingerprint are related, wherever they are.
  lemma {:induction false} IdentityRelates(env: Env, f: Finding, g: Finding)
    ensures SharesIdentity(f, g) ==> AreFindingsRelated(env, f, g) && AreFindingsRelated(env, g, f)
    ensures SharesIdentity(f, g) <==> SameIdentity(f, g)
  {
  }

  // The finding is in the file path: its first location's, or its scope's when that names none, or "target".
  ghost predicate InFile(env: Env, f: Finding, path: string) {
    || (f.locations != [] && f.locations[0].uri != "" && path == env.clean(f.locations[0].uri))
    || ((f.locations == [] || f.locations[0].uri == "") && f.scopePath != "" && path == env.clean(f.scopePath))
    || ((f.locations == [] || f.locations[0].uri == "") && f.scopePath == "" && path == "target")
  }

  lemma {:induction false} InFileExactly(env: Env, f: Finding, path: string)
    ensures InFile(env, f, path) <==> PrimaryPath(env, f) == path
  {
  }

  // Others are related only within files of one name.
  lemma {:induction false} OtherFilesStayApart(env: Env, f: Finding, g: Finding, p: string, q: string)
    requires InFile(env, f, p) && InFile(env, g, q) && !SharesIdentity(f, g)
    requires p != q && env.base(p) != env.base(q)
    ensures !AreFindingsRelated(env, f, g)
  {
    IdentityRelates(env, f, g);
    InFileExactly(env, f, p);
    InFileExactly(env, g, q);
  }

  // ---- Dependencies ----

  // A path with one of six marks of a lockfile or a manifest.
  ghost predicate Marked(path: string) {
    || (exists i :: OccursAt(path, "lock", i)) || (exists i :: OccursAt(path, "package", i))
    || (exists a :: path == a + ".sum") || (exists a :: path == a + ".mod")
    || (exists a :: path == a + ".txt") || (exists a :: path == a + ".xml")
  }

  lemma {:induction false} SuffixExactly(s: string, suffix: string)
    ensures HasSuffix(s, suffix) <==> exists a :: s == a + suffix
  {
    if HasSuffix(s, suffix) { assert s == s[..|s| - |suffix|] + suffix; }
  }

  lemma {:induction false} ContainsExactly(s: string, sub: string)
    ensures Contains(s, sub) <==> exists i :: OccursAt(s, sub, i)
  {
    if i :| OccursAt(s, sub, i) { assert 0 <= i <= |s|; }
  }

  lemma {:induction false} MarkedExactly(path: string)
    ensures Marked(path) <==> IsLockfile(path)
  {
    ContainsExactly(path, "lock");
    ContainsExactly(path, "package");
    SuffixExactly(path, ".sum");
    SuffixExactly(path, ".mod");
    SuffixExactly(path, ".txt");
    SuffixExactly(path, ".xml");
  }

  // A vulnerability id in common.
  ghost predicate SharesVulnerability(env: Env, f: Finding, g: Finding) {
    exists v :: v in env.vulnIDs(f.ruleID, f.related, f.message, f.details)
             && v in env.vulnIDs(g.ruleID, g.related, g.message, g.details)
  }

  // No two different packages are named.
  ghost predicate PackagesAgree(env: Env, f: Finding, g: Finding) {
    var pf := env.packageName(f.matched, f.details, f.message);
    var pg := env.packageName(g.matched, g.details, g.message);
    pf != "" && pg != "" ==> pf == pg
  }

  ghost predicate WithoutCode(f: Finding) {
    && f.snippetHash == "" && f.matched == "" && TrimSpace(f.snippet) == ""
    && (f.locations != [] ==> TrimSpace(f.locations[0].snippet) == "" && f.locations[0].startLine == Nil)
  }

  // Findings in files of one name that show no code are related exactly by a vulnerability they share, in
  // a lockfile or a manifest, of what is not known to be two packages.
  lemma {:induction false} DependencyPairExactly(env: Env, f: Finding, g: Finding, p: string, q: string)
    requires InFile(env, f, p) && InFile(env, g, q) && (p == q || env.base(p) == env.base(q))
    requires !SharesIdentity(f, g) && WithoutCode(f) && WithoutCode(g)
    ensures AreFindingsRelated(env, f, g) <==> Marked(p) && SharesVulnerability(env, f, g) && PackagesAgree(env, f, g)
  {
    IdentityRelates(env, f, g);
    InFileExactly(env, f, p);
    InFileExactly(env, g, q);
    MarkedExactly(p);
    NoCodeEvidence(env, f, g);
  }

  // ---- Code ----

  // The text a finding shows: its snippet, or its first location's when that is blank.
  ghost predicate Shows(f: Finding, text: string) {
    if TrimSpace(f.snippet) != "" then text == TrimSpace(f.snippet)
    else if f.locations != [] then text == TrimSpace(f.locations[0].snippet)
    else text == ""
  }

  // Both show text, and one's is in the other's.
  ghost predicate TextsMeet(f: Finding, g: Finding) {
    exists s, t :: Shows(f, s) && Shows(g, t) && s != "" && t != ""
      && ((exists i :: OccursAt(s, t, i)) || (exists i :: OccursAt(t, s, i)))
  }

  // The lines of a finding's first location run from first to last.
  ghost predicate OnLines(f: Finding, first: int, last: int) {
    && f.locations != [] && f.locations[0].startLine.At? && first == f.locations[0].startLine.value
    && last == if f.locations[0].endLine.At? then f.locations[0].endLine.value else first
  }

  // Neither begins more than two lines after the other ends.
  ghost predicate LinesMeet(f: Finding, g: Finding) {
    exists a, b, c, d :: OnLines(f, a, b) && OnLines(g, c, d) && a - d <= 2 && c - b <= 2
  }

  lemma {:induction false} LinesMeetExactly(f: Finding, g: Finding)
    ensures LinesMeet(f, g) <==> LinesOverlap(f, g)
  {
    if LinesOverlap(f, g) {
      assert OnLines(f, FirstLine(f), LastLine(f)) && OnLines(g, FirstLine(g), LastLine(g));
    }
  }

  lemma {:induction false} ShownText(f: Finding, s: string)
    ensures Shows(f, s) <==> s == SnippetText(f)
  {
  }

  lemma {:induction false} TextsMeetExactly(f: Finding, g: Finding)
    ensures TextsMeet(f, g) <==>
      var s, t := SnippetText(f), SnippetText(g); s != "" && t != "" && (s == t || Contains(s, t) || Contains(t, s))
  {
    var s, t := SnippetText(f), SnippetText(g);
    forall x ensures (Shows(f, x) <==> x == s) && (Shows(g, x) <==> x == t) {
      ShownText(f, x);
      ShownText(g, x);
    }
    ContainsExactly(s, t);
    ContainsExactly(t, s);
    if s == t { ContainsSelf(s); }
    assert Shows(f, s) && Shows(g, t);
  }

  // Findings in files of one name without a shared vulnerability are related exactly by one hash, one match
  // or texts one of which holds the other, or by lines that meet where both are secrets or of one rule.
  lemma {:induction false} CodePairExactly(env: Env, f: Finding, g: Finding, p: string, q: string)
    requires InFile(env, f, p) && InFile(env, g, q) && (p == q || env.base(p) == env.base(q))
    requires !SharesIdentity(f, g) && (!SharesVulnerability(env, f, g) || !Marked(p))
    ensures AreFindingsRelated(env, f, g) <==>
      || InCommon(f.snippetHash, g.snippetHash) || InCommon(f.matched, g.matched) || TextsMeet(f, g)
      || (LinesMeet(f, g) &&
          (|| (env.isSecret(f.tool, f.ruleID, f.message, f.details) && env.isSecret(g.tool, g.ruleID, g.message, g.details))
           || env.fold(f.ruleID) == env.fold(g.ruleID)))
  {
    IdentityRelates(env, f, g);
    InFileExactly(env, f, p);
    InFileExactly(env, g, q);
    MarkedExactly(p);
    TextsMeetExactly(f, g);
    LinesMeetExactly(f, g);
  }

  // Evidence of both kinds adds up: either relates a pair that shares no identity.
  lemma {:induction false} EvidenceAddsUp(env: Env, f: Finding, g: Finding, p: string, q: string)
    requires InFile(env, f, p) && InFile(env, g, q) && (p == q || env.base(p) == env.base(q))
    ensures Marked(p) && SharesVulnerability(env, f, g) && PackagesAgree(env, f, g) ==> AreFindingsRelated(env, f, g)
    ensures TextsMeet(f, g) || (LinesMeet(f, g) && env.fold(f.ruleID) == env.fold(g.ruleID)) ==> AreFindingsRelated(env, f, g)
  {
    InFileExactly(env, f, p);
    InFileExactly(env, g, q);
    MarkedExactly(p);
    TextsMeetExactly(f, g);
    LinesMeetExactly(f, g);
  }

  // ---- Two vulnerabilities of one package ----

  function Advisory(id: string, ruleID: string, message: string): Finding {
    AdvisoryAt(id, ruleID, "package-lock.json").(message := message)
  }

  lemma {:induction false} ShowsNothing(id: string, ruleID: string, message: string)
    ensures var f := Advisory(id, ruleID, message); WithoutCode(f) && f.id == id && f.fingerprint == ""
  {
    assert TrimSpace("") == "";
  }

  // Advisories of one package in one lockfile: two findings when they name different vulnerabilities, one
  // when they name the same.
  lemma {:induction false} AdvisoriesOfOnePackage(env: Env, a: string, b: string, f: Finding, g: Finding,
                                                  findings: seq<Finding>, updated: seq<RunOutcome>)
    requires f == Advisory("1", a, "lodash " + a) && g == Advisory("2", b, "lodash " + b)
    requires env.clean("package-lock.json") == "package-lock.json"
    requires env.packageName("", "", f.message) == "lodash" && env.packageName("", "", g.message) == "lodash"
    requires env.vulnIDs(a, [], f.message, "") == [a] && env.vulnIDs(b, [], g.message, "") == [b]
    requires IsCorrelation(env, [RunWith(f), RunWith(g)], findings, updated)
    ensures |findings| == if a == b then 1 else 2
  {
    TwoRunsCount(env, f, g, findings, updated);
    ShowsNothing("1", a, "lodash " + a);
    ShowsNothing("2", b, "lodash " + b);
    assert "1"[0] != "2"[0];
    assert OccursAt("package-lock.json", "package", 0);
    var p := "package-lock.json";
    DependencyPairExactly(env, f, g, p, p);
    assert SharesVulnerability(env, f, g) <==> a == b by {
      if a == b { assert a in [a] && a in [b]; }
    }
  }
}
