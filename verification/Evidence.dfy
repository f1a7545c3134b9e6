// The normalized evidence model: findings, run outcomes and the rest of a report's parts.
module Evidence {
  import opened Sorting

  // String enumerations of the source; Other stands for any value it does not name.
  datatype Severity = Critical | High | Medium | Low | Unknown | OtherSeverity(name: string)
  datatype ConfidenceLevel = HighConfidence | MediumConfidence | LowConfidence | UnknownConfidence
                           | OtherConfidence(name: string)
  datatype ChallengeStatus = Unreviewed | Confirmed | Rejected | AcceptedRisk | Fixed | Unresolved
                           | OtherChallenge(name: string)
  datatype ReviewerType = ReviewerTool | ReviewerAgent | ReviewerHuman | OtherReviewer(name: string)
  datatype RunStatus = OK | FindingsPresent | Crashed | TimedOut | NotInstalled | Skipped | Unavailable
                     | OtherStatus(name: string)

  // A *int: the code compares such pointers with ==, so identity and value are kept apart.
  datatype IntPtr = Nil | At(addr: nat, value: int)

  predicate SamePointer(p: IntPtr, q: IntPtr) {
    match (p, q)
    case (Nil, Nil) => true
    case (At(a, _), At(b, _)) => a == b
    case _ => false
  }

  datatype Location = Location(
    uri: string,
    startLine: IntPtr, startColumn: IntPtr, endLine: IntPtr, endColumn: IntPtr,
    snippet: string, snippetHash: string)

  // The location test of Deduplicate and CorrelateRuns: same URI, identical start pointers.
  predicate SamePlace(a: Location, b: Location) {
    a.uri == b.uri && SamePointer(a.startLine, b.startLine) && SamePointer(a.startColumn, b.startColumn)
  }

  // Fields that the modelled code only carries along.
  datatype Carried = Carried(
    toolVersion: string, command: string, nativeSeverity: string, commit: string, context: string,
    recommendation: string, disposition: string, artifactURI: string)

  datatype Finding = Finding(
    id: string,
    fingerprint: string,
    tool: string,
    ruleID: string,
    severity: Severity,
    locations: seq<Location>,
    scopePath: string,
    snippetHash: string,
    message: string,
    details: string,
    snippet: string,
    matched: string,
    documentationURL: string,
    confidence: ConfidenceLevel,
    rationale: string,
    challenge: ChallengeStatus,
    reviewer: ReviewerType,
    reviewerIdentity: string,
    related: seq<string>,
    duplicates: seq<string>,
    rawIndex: int,
    carried: Carried)

  datatype RunOutcome = RunOutcome(
    tool: string, command: string, exitCode: int, status: RunStatus,
    findings: seq<Finding>, stderrTail: string, toolVersion: string)

  predicate HasID(fs: seq<Finding>, id: string) {
    exists f | f in fs :: f.id == id
  }

  lemma {:induction false} HasIDAppend(fs: seq<Finding>, f: Finding)
    ensures forall id :: HasID(fs + [f], id) <==> HasID(fs, id) || f.id == id
  {
    forall id | HasID(fs, id) || f.id == id ensures HasID(fs + [f], id) {
      if HasID(fs, id) {
        var g :| g in fs && g.id == id;
        assert g in fs + [f];
      } else {
        assert f in fs + [f];
      }
    }
  }

  function SeverityRank(s: Severity): int {
    match s
    case Critical => 5
    case High => 4
    case Medium => 3
    case Low => 2
    case _ => 1
  }

  function ConfidenceRank(c: ConfidenceLevel): int {
    match c
    case HighConfidence => 4
    case MediumConfidence => 3
    case LowConfidence => 2
    case _ => 1
  }

  // Library functions and text heuristics whose definitions are outside the model. Each takes just
  // the fields its Go counterpart reads. equalFold compares two strings by fold.
  datatype Env = Env(
    clean: string -> string,                                      // filepath.Clean
    base: string -> string,                                       // filepath.Base
    fold: string -> string,                                       // strings.EqualFold, as a canonical form
    packageName: (string, string, string) -> string,              // extractPackageName: match, details, message
    vulnIDs: (string, seq<string>, string, string) -> seq<string>, // extractVulnIDs: rule, related, message, details
    isSecret: (string, string, string, string) -> bool,           // isSecretFinding: tool, rule, message, details
    sort: Sorter)                                                 // sort.Slice
}
