// AreFindingsRelated: do two findings describe the same underlying issue?
module Related {
  import opened Text
  import opened Evidence

  function PrimaryPath(env: Env, f: Finding): string {
    if f.locations != [] && f.locations[0].uri != "" then env.clean(f.locations[0].uri)
    else if f.scopePath != "" then env.clean(f.scopePath)
    else "target"
  }

  // First and last line of a finding's first location, if it has a start line.
  predicate HasLines(f: Finding) {
    f.locations != [] && f.locations[0].startLine.At?
  }

  function FirstLine(f: Finding): int
    requires HasLines(f)
  {
    f.locations[0].startLine.value
  }

  function LastLine(f: Finding): int
    requires HasLines(f)
  {
    if f.locations[0].endLine.At? then f.locations[0].endLine.value else FirstLine(f)
  }

  predicate LinesOverlap(f: Finding, g: Finding) {
    && HasLines(f) && HasLines(g)
    && FirstLine(f) <= LastLine(g) + 2
    && FirstLine(g) <= LastLine(f) + 2
  }

  // A line of f and a line of g that are at most two apart.
  ghost predicate Near(f: Finding, g: Finding, x: int, y: int)
    requires HasLines(f) && HasLines(g)
  {
    FirstLine(f) <= x <= LastLine(f) && FirstLine(g) <= y <= LastLine(g) && -2 <= x - y <= 2
  }

  // A line that lies more than two past the end of one region and not past the start of the other.
  ghost predicate Separates(f: Finding, g: Finding, x: int)
    requires HasLines(f) && HasLines(g)
  {
    LastLine(f) + 2 < x <= FirstLine(g) || LastLine(g) + 2 < x <= FirstLine(f)
  }

  // Whatever the regions, they overlap exactly when no line separates them; of regions that do not end
  // before they start that is when some line of one is within two of some line of the other.
  lemma {:induction false} LinesOverlapExactly(f: Finding, g: Finding)
    requires HasLines(f) && HasLines(g)
    ensures LinesOverlap(f, g) <==> forall x :: !Separates(f, g, x)
    ensures FirstLine(f) <= LastLine(f) && FirstLine(g) <= LastLine(g) ==>
      (LinesOverlap(f, g) <==> exists x, y :: Near(f, g, x, y))
  {
    if !LinesOverlap(f, g) { assert Separates(f, g, FirstLine(g)) || Separates(f, g, FirstLine(f)); }
    if LinesOverlap(f, g) && FirstLine(f) <= LastLine(f) && FirstLine(g) <= LastLine(g) {
      var x := if FirstLine(f) > LastLine(g) then FirstLine(f) else if FirstLine(g) > LastLine(f) then LastLine(f)
               else if FirstLine(f) >= FirstLine(g) then FirstLine(f) else FirstLine(g);
      var y := if FirstLine(f) > LastLine(g) then LastLine(g) else if FirstLine(g) > LastLine(f) then FirstLine(g) else x;
      assert Near(f, g, x, y);
    }
  }

  predicate SameIdentity(f: Finding, g: Finding) {
    (f.id != "" && f.id == g.id) || (f.fingerprint != "" && f.fingerprint == g.fingerprint)
  }

  predicate PathsMatch(env: Env, f: Finding, g: Finding) {
    var p, q := PrimaryPath(env, f), PrimaryPath(env, g);
    p == q || env.base(p) == env.base(q)
  }

  predicate IsLockfile(path: string) {
    Contains(path, "lock") || Contains(path, "package") || HasSuffix(path, ".sum") ||
    HasSuffix(path, ".mod") || HasSuffix(path, ".txt") || HasSuffix(path, ".xml")
  }

  predicate SharedVulnerability(env: Env, f: Finding, g: Finding) {
    var vf := env.vulnIDs(f.ruleID, f.related, f.message, f.details);
    var vg := env.vulnIDs(g.ruleID, g.related, g.message, g.details);
    exists v | v in vf :: v in vg
  }

  predicate DependencyEvidence(env: Env, f: Finding, g: Finding) {
    var pf := env.packageName(f.matched, f.details, f.message);
    var pg := env.packageName(g.matched, g.details, g.message);
    SharedVulnerability(env, f, g) && (pf == pg || pf == "" || pg == "")
  }

  function SnippetText(f: Finding): string {
    var s := TrimSpace(f.snippet);
    if s == "" && f.locations != [] then TrimSpace(f.locations[0].snippet) else s
  }

  predicate CodeEvidence(env: Env, f: Finding, g: Finding) {
    || (f.snippetHash != "" && f.snippetHash == g.snippetHash)
    || (f.matched != "" && f.matched == g.matched)
    || (var s, t := SnippetText(f), SnippetText(g);
        s != "" && t != "" && (s == t || Contains(s, t) || Contains(t, s)))
    || (&& env.isSecret(f.tool, f.ruleID, f.message, f.details)
        && env.isSecret(g.tool, g.ruleID, g.message, g.details)
        && LinesOverlap(f, g))
    || (env.fold(f.ruleID) == env.fold(g.ruleID) && LinesOverlap(f, g))
  }

  // The lockfile test reads the first finding's path only.
  predicate AreFindingsRelated(env: Env, f: Finding, g: Finding) {
    SameIdentity(f, g) ||
    (PathsMatch(env, f, g) &&
     ((IsLockfile(PrimaryPath(env, f)) && DependencyEvidence(env, f, g)) || CodeEvidence(env, f, g)))
  }

  // What it takes for the two orders of a pair to be answered differently: two files of one base
  // name, only one of them a lockfile path, related by their vulnerability ids and nothing else.
  predicate LockfileOnOneSide(env: Env, f: Finding, g: Finding) {
    && IsLockfile(PrimaryPath(env, f)) != IsLockfile(PrimaryPath(env, g))
    && env.base(PrimaryPath(env, f)) == env.base(PrimaryPath(env, g))
    && DependencyEvidence(env, f, g)
    && !SameIdentity(f, g) && !CodeEvidence(env, f, g)
  }

  lemma {:induction false} EvidenceSymmetric(env: Env, f: Finding, g: Finding)
    ensures SharedVulnerability(env, f, g) == SharedVulnerability(env, g, f)
    ensures DependencyEvidence(env, f, g) == DependencyEvidence(env, g, f)
    ensures CodeEvidence(env, f, g) == CodeEvidence(env, g, f)
    ensures PathsMatch(env, f, g) == PathsMatch(env, g, f)
  {
  }

  lemma {:induction false} RelatedSymmetricExactly(env: Env, f: Finding, g: Finding)
    ensures AreFindingsRelated(env, f, g) == AreFindingsRelated(env, g, f)
            <==> !LockfileOnOneSide(env, f, g)
  {
    EvidenceSymmetric(env, f, g);
  }

  // Findings on one path are always treated alike in both orders.
  lemma {:induction false} SamePathSymmetric(env: Env, f: Finding, g: Finding)
    requires PrimaryPath(env, f) == PrimaryPath(env, g)
    ensures AreFindingsRelated(env, f, g) == AreFindingsRelated(env, g, f)
  {
    EvidenceSymmetric(env, f, g);
  }

  // ---- A pair that is answered differently in its two orders ----

  // A finding of an advisory in a file, with nothing else to it.
  function AdvisoryAt(id: string, ruleID: string, uri: string): Finding {
    Finding(id, "", "", ruleID, Unknown, [Location(uri, Nil, Nil, Nil, Nil, "", "")], "", "", "", "", "", "", "",
            UnknownConfidence, "", Unreviewed, ReviewerTool, "", [], [], 0, Carried("", "", "", "", "", "", "", ""))
  }

  lemma {:induction false} OnlyOneIsLockfile()
    ensures IsLockfile("lock/a") && !IsLockfile("src/a")
  {
    var p, q := "lock/a", "src/a";
    assert OccursAt(p, "lock", 0);
    forall i | 0 <= i <= |q| ensures !OccursAt(q, "lock", i) && !OccursAt(q, "package", i) {
      assert q[0] == 's' && q[1] == 'r' && q[2] == 'c' && q[3] == '/' && q[4] == 'a';
      assert "lock"[0] == 'l' && "package"[0] == 'p';
    }
    assert q[|q| - 1] == 'a';
    assert ".sum"[3] == 'm' && ".mod"[3] == 'd' && ".txt"[3] == 't' && ".xml"[3] == 'l';
  }

  // Without snippet, match or lines there is no code evidence.
  lemma {:induction false} NoCodeEvidence(env: Env, f: Finding, g: Finding)
    requires f.snippetHash == "" && f.matched == "" && SnippetText(f) == "" && !HasLines(f)
    ensures !CodeEvidence(env, f, g) && !CodeEvidence(env, g, f)
  {
    EvidenceSymmetric(env, f, g);
  }

  // Dependency evidence and nothing else, between a lockfile path and another path of its base name.
  lemma {:induction false} OneSidedPair(env: Env, f: Finding, g: Finding)
    requires IsLockfile(PrimaryPath(env, f)) && !IsLockfile(PrimaryPath(env, g))
    requires env.base(PrimaryPath(env, f)) == env.base(PrimaryPath(env, g))
    requires DependencyEvidence(env, f, g) && f.id != g.id && f.fingerprint == ""
    requires f.snippetHash == "" && f.matched == "" && SnippetText(f) == "" && !HasLines(f)
    ensures LockfileOnOneSide(env, f, g) && AreFindingsRelated(env, f, g) && !AreFindingsRelated(env, g, f)
  {
    NoCodeEvidence(env, f, g);
    RelatedSymmetricExactly(env, f, g);
  }

  // One advisory in two files of one base name, one under a directory whose name holds "lock": related
  // one way and not the other. Of the library functions just their answers for these texts are used: the
  // paths are clean, "a" is the base of both, and a rule id is always among a finding's vulnerability ids.
  lemma {:induction false} AsymmetryHappens(env: Env)
    requires env.clean("lock/a") == "lock/a" && env.clean("src/a") == "src/a"
    requires env.base("lock/a") == "a" && env.base("src/a") == "a"
    requires env.vulnIDs("CVE-2024-0001", [], "", "") == ["CVE-2024-0001"]
    ensures var f, g := AdvisoryAt("1", "CVE-2024-0001", "lock/a"), AdvisoryAt("2", "CVE-2024-0001", "src/a");
            LockfileOnOneSide(env, f, g) && AreFindingsRelated(env, f, g) && !AreFindingsRelated(env, g, f)
  {
    var f, g := AdvisoryAt("1", "CVE-2024-0001", "lock/a"), AdvisoryAt("2", "CVE-2024-0001", "src/a");
    OnlyOneIsLockfile();
    assert "CVE-2024-0001" in env.vulnIDs("CVE-2024-0001", [], "", "");
    assert SharedVulnerability(env, f, g);
    assert PrimaryPath(env, f) == "lock/a" && PrimaryPath(env, g) == "src/a";
    assert f.id[0] != g.id[0];
    OneSidedPair(env, f, g);
  }
}
