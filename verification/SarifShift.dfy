// Changing nothing but the places in a SARIF log, by moving every line of it, say, changes nothing but
// the places in the findings.
module SarifShift {
  import opened Options
  import opened Evidence
  import opened Fingerprints
  import opened Sarif
  import opened LineShift

  // ---- Changing places ----

  // What becomes of a line and of a column.
  datatype PlaceMap = PlaceMap(line: IntPtr -> IntPtr, column: IntPtr -> IntPtr)

  function ShiftBy(d: int): PlaceMap { PlaceMap(p => MovePtr(d, p), p => p) }

  // A place that is missing stays missing.
  predicate KeepsNil(m: PlaceMap) { m.line(Nil) == Nil && m.column(Nil) == Nil }

  const NOWHERE := PlaceMap(p => Nil, p => Nil)

  function MapLocation(m: PlaceMap, l: Location): Location {
    l.(startLine := m.line(l.startLine), startColumn := m.column(l.startColumn),
       endLine := m.line(l.endLine), endColumn := m.column(l.endColumn))
  }

  function MapLocations(m: PlaceMap, ls: seq<Location>): (r: seq<Location>)
    ensures |r| == |ls| && forall i | 0 <= i < |ls| :: r[i] == MapLocation(m, ls[i])
  {
    seq(|ls|, i requires 0 <= i < |ls| => MapLocation(m, ls[i]))
  }

  function MapFinding(m: PlaceMap, f: Finding): Finding { f.(locations := MapLocations(m, f.locations)) }

  function MapFindings(m: PlaceMap, fs: seq<Finding>): (r: seq<Finding>)
    ensures |r| == |fs| && forall i | 0 <= i < |fs| :: r[i] == MapFinding(m, fs[i])
  {
    seq(|fs|, i requires 0 <= i < |fs| => MapFinding(m, fs[i]))
  }

  function MapResLoc(m: PlaceMap, l: ResLoc): ResLoc {
    match l.region
    case None => l
    case Some(r) => l.(region := Some(Region(m.line(r.startLine), m.column(r.startColumn), m.line(r.endLine),
                                             m.column(r.endColumn), r.snippet)))
  }

  function MapResLocs(m: PlaceMap, ls: seq<ResLoc>): (r: seq<ResLoc>)
    ensures |r| == |ls| && forall i | 0 <= i < |ls| :: r[i] == MapResLoc(m, ls[i])
  {
    seq(|ls|, i requires 0 <= i < |ls| => MapResLoc(m, ls[i]))
  }

  function MapResult(m: PlaceMap, res: SarifResult): SarifResult { res.(locations := MapResLocs(m, res.locations)) }

  function MapSarifRun(m: PlaceMap, run: SarifRun): (r: SarifRun)
    ensures |r.results| == |run.results| && forall i | 0 <= i < |run.results| :: r.results[i] == MapResult(m, run.results[i])
  {
    run.(results := seq(|run.results|, i requires 0 <= i < |run.results| => MapResult(m, run.results[i])))
  }

  function MapLog(m: PlaceMap, log: seq<SarifRun>): (r: seq<SarifRun>)
    ensures |r| == |log| && forall i | 0 <= i < |log| :: r[i] == MapSarifRun(m, log[i])
  {
    seq(|log|, i requires 0 <= i < |log| => MapSarifRun(m, log[i]))
  }

  lemma {:induction false} MapNowhere(m: PlaceMap, res: SarifResult)
    ensures MapResult(NOWHERE, MapResult(m, res)) == MapResult(NOWHERE, res)
  {
    var a, b := MapResult(NOWHERE, MapResult(m, res)).locations, MapResult(NOWHERE, res).locations;
    forall i | 0 <= i < |res.locations| ensures a[i] == b[i] {
    }
  }

  // The adapter's severity does not depend on where a result is.
  ghost predicate PlaceBlind(lib: Lib) {
    forall tool, res, rules :: lib.severity(tool, MapResult(NOWHERE, res), rules) == lib.severity(tool, res, rules)
  }

  lemma {:induction false} SeverityMapped(lib: Lib, m: PlaceMap, tool: string, res: SarifResult,
                                          rules: map<string, SarifRule>)
    requires PlaceBlind(lib)
    ensures lib.severity(tool, MapResult(m, res), rules) == lib.severity(tool, res, rules)
  {
    MapNowhere(m, res);
    assert lib.severity(tool, MapResult(NOWHERE, MapResult(m, res)), rules) == lib.severity(tool, MapResult(m, res), rules);
  }

  // ---- One result ----

  // A fingerprint reads no place.
  lemma {:induction false} FingerprintMapped(sha: Digest, m: PlaceMap, f: Finding)
    ensures FingerprintOf(sha, MapFinding(m, f)) == FingerprintOf(sha, f)
  {
    FingerprintReads(sha, MapFinding(m, f), f);
  }

  lemma {:induction false} LocationsReadMapped(lib: Lib, m: PlaceMap, ls: seq<ResLoc>)
    requires KeepsNil(m)
    ensures LocationsOf(lib, MapResLocs(m, ls)) == MapLocations(m, LocationsOf(lib, ls))
  {
    forall i | 0 <= i < |ls|
      ensures LocationOf(lib, MapResLocs(m, ls)[i]) == MapLocation(m, LocationOf(lib, ls[i]))
    {
    }
  }

  lemma {:induction false} FirstMapped(of: Location -> string, m: PlaceMap, ls: seq<Location>, n: nat)
    requires n <= |ls| && forall k | 0 <= k < n :: of(MapLocations(m, ls)[k]) == of(ls[k])
    ensures FirstNonEmpty(of, MapLocations(m, ls), n) == FirstNonEmpty(of, ls, n)
    decreases n
  {
    if n > 0 { FirstMapped(of, m, ls, n - 1); }
  }

  lemma {:induction false} DraftMapped(lib: Lib, m: PlaceMap, src: Source, res: SarifResult,
                                       rules: map<string, SarifRule>, i: nat)
    requires PlaceBlind(lib) && KeepsNil(m)
    ensures Draft(lib, src, MapResult(m, res), rules, i) == MapFinding(m, Draft(lib, src, res, rules, i))
  {
    var ls := LocationsOf(lib, res.locations);
    LocationsReadMapped(lib, m, res.locations);
    SeverityMapped(lib, m, src.tool, res, rules);
    FirstMapped(URIOf, m, ls, |ls|);
    FirstMapped(HashOf, m, ls, |ls|);
  }

  lemma {:induction false} RedactAtMapped(lib: Lib, m: PlaceMap, f: Finding, i: nat)
    requires i < |f.locations|
    ensures RedactAt(lib, MapFinding(m, f), i) == MapFinding(m, RedactAt(lib, f, i))
  {
    var r := RedactAt(lib, f, i);
    assert MapFinding(m, f).locations[i] == MapLocation(m, f.locations[i]);
    assert RedactAt(lib, MapFinding(m, f), i).locations == MapLocations(m, r.locations);
  }

  lemma {:induction false} RedactLocationsMapped(lib: Lib, m: PlaceMap, f: Finding, n: nat)
    requires n <= |f.locations|
    ensures RedactLocations(lib, MapFinding(m, f), n) == MapFinding(m, RedactLocations(lib, f, n))
    decreases n
  {
    if n > 0 {
      RedactLocationsMapped(lib, m, f, n - 1);
      RedactAtMapped(lib, m, RedactLocations(lib, f, n - 1), n - 1);
    }
  }

  lemma {:induction false} RedactedMapped(lib: Lib, m: PlaceMap, f: Finding)
    ensures Redacted(lib, MapFinding(m, f)) == MapFinding(m, Redacted(lib, f))
  {
    var t := RedactTexts(lib, f);
    assert RedactTexts(lib, MapFinding(m, f)) == MapFinding(m, t);
    RedactLocationsMapped(lib, m, t, |t.locations|);
  }

  lemma {:induction false} FindingOfMapped(lib: Lib, m: PlaceMap, src: Source, res: SarifResult,
                                           rules: map<string, SarifRule>, i: nat)
    requires PlaceBlind(lib) && KeepsNil(m)
    ensures FindingOf(lib, src, MapResult(m, res), rules, i) == MapFinding(m, FindingOf(lib, src, res, rules, i))
  {
    var draft := Draft(lib, src, res, rules, i);
    DraftMapped(lib, m, src, res, rules, i);
    RedactedMapped(lib, m, draft);
    FingerprintMapped(lib.sha, m, Redacted(lib, draft));
  }

  // ---- The log ----

  lemma {:induction false} RunCandidatesMapped(lib: Lib, m: PlaceMap, src: Source, run: SarifRun)
    requires PlaceBlind(lib) && KeepsNil(m)
    ensures RunCandidates(lib, src, MapSarifRun(m, run)) == MapFindings(m, RunCandidates(lib, src, run))
  {
    var fs, fs' := RunCandidates(lib, src, run), RunCandidates(lib, src, MapSarifRun(m, run));
    forall i | 0 <= i < |fs| ensures fs'[i] == MapFinding(m, fs[i]) {
      FindingOfMapped(lib, m, src, run.results[i], RuleByID(run.rules, |run.rules|), i);
    }
  }

  lemma {:induction false} FindMapped(m: PlaceMap, fs: seq<Finding>, id: string)
    ensures Find(MapFindings(m, fs), id) == Find(fs, id)
  {
    if fs != [] {
      assert MapFindings(m, fs)[1..] == MapFindings(m, fs[1..]);
      FindMapped(m, fs[1..], id);
    }
  }

  lemma {:induction false} AddCandidateMapped(m: PlaceMap, out: seq<Finding>, f: Finding)
    ensures AddCandidate(MapFindings(m, out), MapFinding(m, f)) == MapFindings(m, AddCandidate(out, f))
  {
    FindMapped(m, out, f.id);
  }

  lemma {:induction false} AddAllMapped(m: PlaceMap, out: seq<Finding>, fs: seq<Finding>, n: nat)
    requires n <= |fs|
    ensures AddAll(MapFindings(m, out), MapFindings(m, fs), n) == MapFindings(m, AddAll(out, fs, n))
    decreases n
  {
    if n > 0 {
      AddAllMapped(m, out, fs, n - 1);
      AddCandidateMapped(m, AddAll(out, fs, n - 1), fs[n - 1]);
    }
  }

  lemma {:induction false} AddPartsMapped(m: PlaceMap, parts: seq<seq<Finding>>, parts': seq<seq<Finding>>, n: nat)
    requires n <= |parts| == |parts'| && forall r | 0 <= r < |parts| :: parts'[r] == MapFindings(m, parts[r])
    ensures AddParts(parts', n) == MapFindings(m, AddParts(parts, n))
    decreases n
  {
    if n > 0 {
      AddPartsMapped(m, parts, parts', n - 1);
      AddAllMapped(m, AddParts(parts, n - 1), parts[n - 1], |parts[n - 1]|);
    }
  }

  // Normalizing a log with its places changed gives the findings with theirs changed: same ids, same
  // fingerprints, same links.
  lemma {:induction false} NormalizedMapped(lib: Lib, m: PlaceMap, src: Source, log: seq<SarifRun>)
    requires PlaceBlind(lib) && KeepsNil(m)
    ensures Normalized(lib, src, MapLog(m, log)) == MapFindings(m, Normalized(lib, src, log))
  {
    var parts, parts' := Parts(lib, src, log), Parts(lib, src, MapLog(m, log));
    forall r | 0 <= r < |parts| ensures parts'[r] == MapFindings(m, parts[r]) {
      RunCandidatesMapped(lib, m, src, log[r]);
    }
    AddPartsMapped(m, parts, parts', |log|);
  }

  // ---- Moving lines ----

  lemma {:induction false} ShiftedFinding(d: int, f: Finding)
    ensures MapFinding(ShiftBy(d), f) == MoveFinding(d, f)
  {
    assert MapLocations(ShiftBy(d), f.locations) == MoveLocations(d, f.locations);
  }

  // A fingerprint survives any move of the finding's lines.
  lemma {:induction false} FingerprintMoved(sha: Digest, d: int, f: Finding)
    ensures FingerprintOf(sha, MoveFinding(d, f)) == FingerprintOf(sha, f)
  {
    ShiftedFinding(d, f);
    FingerprintMapped(sha, ShiftBy(d), f);
  }

  // Normalizing a moved log gives the findings moved.
  lemma {:induction false} NormalizedMoved(lib: Lib, d: int, src: Source, log: seq<SarifRun>)
    requires PlaceBlind(lib)
    ensures Normalized(lib, src, MapLog(ShiftBy(d), log)) == MoveFindings(d, Normalized(lib, src, log))
  {
    NormalizedMapped(lib, ShiftBy(d), src, log);
    var fs := Normalized(lib, src, log);
    forall i | 0 <= i < |fs| ensures MapFindings(ShiftBy(d), fs)[i] == MoveFindings(d, fs)[i] {
      ShiftedFinding(d, fs[i]);
    }
  }
}
