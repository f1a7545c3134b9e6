// One correlation group, sorted, becomes one finding; and each of its records is linked to the rest.
module Merge {
  import opened Text
  import opened Evidence
  import opened Deduplicate

  // ---- What the group's loops compute, over the first n records ----

  function RecordIDs(f: Finding): seq<string> {
    (if f.id != "" then [f.id] else []) + f.duplicates + f.related
  }

  // The non-empty trimmed parts of a comma-separated tool name.
  function TrimmedParts(parts: seq<string>, n: nat): seq<string>
    requires n <= |parts|
  {
    if n == 0 then []
    else
      var t := TrimSpace(parts[n - 1]);
      TrimmedParts(parts, n - 1) + if t != "" then [t] else []
  }

  function ToolNames(f: Finding): seq<string> {
    if f.tool == "" then [] else TrimmedParts(SplitComma(f.tool), |SplitComma(f.tool)|)
  }

  // What the first n records contribute, in order: their ids, or their tool names.
  function Collect(of: Finding -> seq<string>, g: seq<Finding>, n: nat): seq<string>
    requires n <= |g|
  {
    if n == 0 then [] else Collect(of, g, n - 1) + of(g[n - 1])
  }

  function HighestSeverity(g: seq<Finding>, n: nat): Severity
    requires g != [] && n <= |g|
  {
    if n == 0 then g[0].severity
    else
      var s := HighestSeverity(g, n - 1);
      if SeverityRank(g[n - 1].severity) > SeverityRank(s) then g[n - 1].severity else s
  }

  function HighestConfidence(g: seq<Finding>, n: nat): ConfidenceLevel
    requires g != [] && n <= |g|
  {
    if n == 0 then g[0].confidence
    else
      var c := HighestConfidence(g, n - 1);
      if ConfidenceRank(g[n - 1].confidence) > ConfidenceRank(c) then g[n - 1].confidence else c
  }

  function CollectLocations(g: seq<Finding>, n: nat): seq<Location>
    requires g != [] && n <= |g|
  {
    if n == 0 then g[0].locations else MergeLocations(CollectLocations(g, n - 1), g[n - 1].locations)
  }

  function FirstDocumentation(g: seq<Finding>, n: nat): string
    requires g != [] && n <= |g|
  {
    if n == 0 then g[0].documentationURL
    else
      var d := FirstDocumentation(g, n - 1);
      if d == "" then g[n - 1].documentationURL else d
  }

  function DetailPart(f: Finding): string {
    "[" + f.tool + "]: " + f.details
  }

  function DetailParts(g: seq<Finding>, n: nat): (r: seq<string>)
    requires n <= |g|
    ensures |r| == n && forall k | 0 <= k < n :: r[k] == DetailPart(g[k])
  {
    if n == 0 then [] else DetailParts(g, n - 1) + [DetailPart(g[n - 1])]
  }

  function Without(ids: seq<string>, id: string, n: nat): (r: seq<string>)
    requires n <= |ids|
    ensures forall s :: s in r <==> s in ids[..n] && s != id
  {
    if n == 0 then []
    else
      assert ids[..n] == ids[..n - 1] + [ids[n - 1]];
      Without(ids, id, n - 1) + if ids[n - 1] != id then [ids[n - 1]] else []
  }

  // ---- The group's answer ----

  function GroupIDs(g: seq<Finding>): seq<string> { DedupeSorted(Collect(RecordIDs, g, |g|)) }
  function GroupTools(g: seq<Finding>): seq<string> { DedupeSorted(Collect(ToolNames, g, |g|)) }

  function Merged(g: seq<Finding>): Finding
    requires g != []
  {
    var tools := GroupTools(g);
    var named := Join(tools, ", ");
    g[0].(tool := named,
          reviewer := ReviewerTool,
          reviewerIdentity := named,
          severity := HighestSeverity(g, |g|),
          confidence := HighestConfidence(g, |g|),
          locations := CollectLocations(g, |g|),
          documentationURL := FirstDocumentation(g, |g|),
          rationale := if |tools| > 1
            then "Confirmed across multiple tools: " + named + ". " + g[0].rationale else g[0].rationale,
          details := if |tools| > 1 then Join(DetailParts(g, |g|), "\n") else g[0].details,
          related := GroupIDs(g),
          duplicates := Without(GroupIDs(g), g[0].id, |GroupIDs(g)|))
  }

  // A run's own record after its group's ids are written into it.
  function LinkedRecord(f: Finding, ids: seq<string>): Finding {
    var others := Without(ids, f.id, |ids|);
    f.(related := DedupeSorted(f.related + others), duplicates := DedupeSorted(f.duplicates + others))
  }

  // ---- The loops ----

  method AddToolNames(tools: seq<string>, f: Finding) returns (r: seq<string>)
    ensures r == tools + ToolNames(f)
  {
    r := tools;
    if f.tool != "" {
      var parts := SplitComma(f.tool);
      for k := 0 to |parts|
        invariant r == tools + TrimmedParts(parts, k)
      {
        var cleanT := TrimSpace(parts[k]);
        if cleanT != "" {
          r := r + [cleanT];
        }
      }
    }
  }

  method CollectNames(g: seq<Finding>) returns (ids: seq<string>, tools: seq<string>)
    ensures ids == GroupIDs(g) && tools == GroupTools(g)
  {
    ids, tools := [], [];
    for n := 0 to |g|
      invariant ids == Collect(RecordIDs, g, n) && tools == Collect(ToolNames, g, n)
    {
      ghost var before := ids;
      if g[n].id != "" {
        ids := ids + [g[n].id];
      }
      ids := ids + g[n].duplicates;
      ids := ids + g[n].related;
      assert ids == before + RecordIDs(g[n]);
      tools := AddToolNames(tools, g[n]);
    }
    ids := DedupeAndSortStrings(ids);
    tools := DedupeAndSortStrings(tools);
  }

  method Others(ids: seq<string>, id: string) returns (r: seq<string>)
    ensures r == Without(ids, id, |ids|)
  {
    r := [];
    for n := 0 to |ids|
      invariant r == Without(ids, id, n)
    {
      if ids[n] != id {
        r := r + [ids[n]];
      }
    }
  }

  method LinkRecord(f: Finding, ids: seq<string>) returns (r: Finding)
    ensures r == LinkedRecord(f, ids)
  {
    var others := Others(ids, f.id);
    var related := DedupeAndSortStrings(f.related + others);
    var duplicates := DedupeAndSortStrings(f.duplicates + others);
    r := f.(related := related, duplicates := duplicates);
  }

  method MergeGroup(g: seq<Finding>, ids: seq<string>, tools: seq<string>) returns (correlated: Finding)
    requires g != [] && ids == GroupIDs(g) && tools == GroupTools(g)
    ensures correlated == Merged(g)
  {
    var primary := g[0];
    var named := Join(tools, ", ");
    var detailParts: seq<string> := [];
    var highestSev, highestConf := primary.severity, primary.confidence;
    var locations, documentation := primary.locations, primary.documentationURL;
    for n := 0 to |g|
      invariant detailParts == DetailParts(g, n)
      invariant highestSev == HighestSeverity(g, n) && highestConf == HighestConfidence(g, n)
      invariant locations == CollectLocations(g, n)
      invariant documentation == FirstDocumentation(g, n)
    {
      var f := g[n];
      detailParts := detailParts + ["[" + f.tool + "]: " + f.details];
      if SeverityRank(f.severity) > SeverityRank(highestSev) {
        highestSev := f.severity;
      }
      if ConfidenceRank(f.confidence) > ConfidenceRank(highestConf) {
        highestConf := f.confidence;
      }
      locations := AddLocations(locations, f.locations);
      if documentation == "" && f.documentationURL != "" {
        documentation := f.documentationURL;
      }
    }
    var rationale, details := primary.rationale, primary.details;
    if |tools| > 1 {
      rationale := "Confirmed across multiple tools: " + named + ". " + primary.rationale;
      details := Join(detailParts, "\n");
    }
    var dups := Others(ids, primary.id);
    correlated := primary.(tool := named, reviewer := ReviewerTool, reviewerIdentity := named,
      severity := highestSev, confidence := highestConf, locations := locations,
      documentationURL := documentation, rationale := rationale, details := details,
      related := ids, duplicates := dups);
  }

  // ---- What the merged finding keeps of its group ----

  lemma {:induction false} CollectMembers(of: Finding -> seq<string>, g: seq<Finding>, n: nat, s: string)
    requires n <= |g|
    ensures s in Collect(of, g, n) <==> exists k | 0 <= k < n :: s in of(g[k])
    decreases n
  {
    if n > 0 { CollectMembers(of, g, n - 1, s); }
  }

  // Ids of every record reach the merged finding, and nothing else does.
  lemma {:induction false} GroupIDsExact(g: seq<Finding>, s: string)
    ensures s in GroupIDs(g) <==>
            s != "" && exists k, x | 0 <= k < |g| && x in RecordIDs(g[k]) :: TrimSpace(x) == s
  {
    var ids := Collect(RecordIDs, g, |g|);
    if s in GroupIDs(g) {
      var x :| x in ids && TrimSpace(x) != "" && TrimSpace(x) == s;
      CollectMembers(RecordIDs, g, |g|, x);
    }
    if k, x :| 0 <= k < |g| && x in RecordIDs(g[k]) && TrimSpace(x) == s && s != "" {
      CollectMembers(RecordIDs, g, |g|, x);
      assert TrimSpace(x) in Cleaned(ids);
    }
  }

  lemma {:induction false} CollectLocationsKeep(g: seq<Finding>, n: nat)
    requires g != [] && n <= |g|
    ensures g[0].locations <= CollectLocations(g, n)
    ensures forall k | 0 <= k < n :: forall l | l in g[k].locations :: HasPlace(CollectLocations(g, n), l)
    decreases n
  {
    if n > 0 {
      CollectLocationsKeep(g, n - 1);
      var before, after := CollectLocations(g, n - 1), CollectLocations(g, n);
      forall k, l | 0 <= k < n - 1 && l in g[k].locations ensures HasPlace(after, l) {
        StaysInPlace(before, after, l);
      }
    }
  }

  lemma {:induction false} StaysInPlace(before: seq<Location>, after: seq<Location>, l: Location)
    requires HasPlace(before, l) && before <= after
    ensures HasPlace(after, l)
  {
    var p :| p in before && SamePlace(p, l);
    assert p in after;
  }

  // Nothing outranks the severity or the confidence chosen, and some record has each.
  lemma {:induction false} HighestExact(g: seq<Finding>, n: nat)
    requires g != [] && n <= |g|
    ensures forall k | 0 <= k < n :: SeverityRank(g[k].severity) <= SeverityRank(HighestSeverity(g, n))
    ensures exists k | 0 <= k < |g| :: g[k].severity == HighestSeverity(g, n)
    ensures forall k | 0 <= k < n :: ConfidenceRank(g[k].confidence) <= ConfidenceRank(HighestConfidence(g, n))
    ensures exists k | 0 <= k < |g| :: g[k].confidence == HighestConfidence(g, n)
    decreases n
  {
    if n == 0 {
      assert g[0].severity == HighestSeverity(g, 0) && g[0].confidence == HighestConfidence(g, 0);
    } else {
      HighestExact(g, n - 1);
    }
  }

  // The evidence of every record survives in the merged finding: its place, its severity rank, its
  // confidence rank, and, when more than one tool is named, its details under its tool's name.
  lemma {:induction false} MergedKeepsEvidence(g: seq<Finding>, k: nat)
    requires k < |g|
    ensures SeverityRank(g[k].severity) <= SeverityRank(Merged(g).severity)
    ensures exists m | 0 <= m < |g| :: g[m].severity == Merged(g).severity
    ensures ConfidenceRank(g[k].confidence) <= ConfidenceRank(Merged(g).confidence)
    ensures forall l | l in g[k].locations :: HasPlace(Merged(g).locations, l)
    ensures |GroupTools(g)| > 1 ==> Contains(Merged(g).details, DetailPart(g[k]))
    ensures forall t | t in ToolNames(g[k]) :: Contains(Merged(g).tool, t)
  {
    HighestExact(g, |g|);
    CollectLocationsKeep(g, |g|);
    if |GroupTools(g)| > 1 {
      JoinContains(DetailParts(g, |g|), "\n", k);
    }
    forall t | t in ToolNames(g[k]) ensures Contains(Merged(g).tool, t) {
      ToolNamed(g, k, t);
      var i :| 0 <= i < |GroupTools(g)| && GroupTools(g)[i] == t;
      JoinContains(GroupTools(g), ", ", i);
    }
  }

  lemma {:induction false} CollectLocationsOnly(g: seq<Finding>, n: nat, l: Location)
    requires g != [] && n <= |g| && l in CollectLocations(g, n)
    ensures exists k | 0 <= k < |g| :: l in g[k].locations
    decreases n
  {
    if n == 0 {
      assert l in g[0].locations;
    } else if l in CollectLocations(g, n - 1) {
      CollectLocationsOnly(g, n - 1, l);
    } else {
      assert l in g[n - 1].locations;
    }
  }

  // k is the first record with a documentation link.
  ghost predicate FirstDocumented(g: seq<Finding>, k: nat) {
    k < |g| && g[k].documentationURL != "" && forall j | 0 <= j < k :: g[j].documentationURL == ""
  }

  lemma {:induction false} FirstDocumentationExact(g: seq<Finding>, n: nat)
    requires g != [] && n <= |g|
    ensures if FirstDocumentation(g, n) == "" then forall j | 0 <= j < n :: g[j].documentationURL == ""
            else exists k | 0 <= k < |g| :: FirstDocumented(g, k) && FirstDocumentation(g, n) == g[k].documentationURL
    decreases n
  {
    if n == 0 {
      assert g[0].documentationURL != "" ==> FirstDocumented(g, 0);
    } else {
      FirstDocumentationExact(g, n - 1);
      if FirstDocumentation(g, n - 1) == "" && g[n - 1].documentationURL != "" { assert FirstDocumented(g, n - 1); }
    }
  }

  // ---- Which severity and which confidence ----

  ghost predicate HasSeverity(g: seq<Finding>, s: Severity) {
    exists k | 0 <= k < |g| :: g[k].severity == s
  }

  ghost predicate HasConfidence(g: seq<Finding>, c: ConfidenceLevel) {
    exists k | 0 <= k < |g| :: g[k].confidence == c
  }

  lemma {:induction false} UnrankedStays(g: seq<Finding>, n: nat)
    requires g != [] && n <= |g|
    ensures (forall k | 0 <= k < |g| :: g[k].severity !in {Critical, High, Medium, Low}) ==>
      HighestSeverity(g, n) == g[0].severity
    ensures (forall k | 0 <= k < |g| :: g[k].confidence !in {HighConfidence, MediumConfidence, LowConfidence}) ==>
      HighestConfidence(g, n) == g[0].confidence
    decreases n
  {
    if n > 0 { UnrankedStays(g, n - 1); }
  }

  lemma {:induction false} SeverityChosen(g: seq<Finding>)
    requires g != []
    ensures HasSeverity(g, HighestSeverity(g, |g|)) && HasConfidence(g, HighestConfidence(g, |g|))
    ensures forall s | HasSeverity(g, s) :: SeverityRank(s) <= SeverityRank(HighestSeverity(g, |g|))
    ensures forall c | HasConfidence(g, c) :: ConfidenceRank(c) <= ConfidenceRank(HighestConfidence(g, |g|))
    ensures HighestSeverity(g, |g|) in {Critical, High, Medium, Low} || HighestSeverity(g, |g|) == g[0].severity
    ensures HighestConfidence(g, |g|) in {HighConfidence, MediumConfidence, LowConfidence}
            || HighestConfidence(g, |g|) == g[0].confidence
  {
    HighestExact(g, |g|);
    UnrankedStays(g, |g|);
  }

  lemma {:induction false} MergedHighest(g: seq<Finding>)
    requires g != []
    ensures Merged(g).severity == HighestSeverity(g, |g|) && Merged(g).confidence == HighestConfidence(g, |g|)
  {
  }

  // The merged severity is critical if any record is, else high if any is, else medium if any is, else
  // low if any is, and the first record's if none is any of these.
  lemma {:induction false} MergedSeverityExactly(g: seq<Finding>)
    requires g != []
    ensures var s := Merged(g).severity;
            && (s == Critical <==> HasSeverity(g, Critical))
            && (s == High <==> HasSeverity(g, High) && !HasSeverity(g, Critical))
            && (s == Medium <==> HasSeverity(g, Medium) && !HasSeverity(g, Critical) && !HasSeverity(g, High))
            && (s == Low <==>
                HasSeverity(g, Low) && !HasSeverity(g, Critical) && !HasSeverity(g, High) && !HasSeverity(g, Medium))
            && (s in {Critical, High, Medium, Low} || s == g[0].severity)
  {
    MergedHighest(g);
    SeverityChosen(g);
  }

  // Confidence likewise: high, medium, low, and else the first record's.
  lemma {:induction false} MergedConfidenceExactly(g: seq<Finding>)
    requires g != []
    ensures var c := Merged(g).confidence;
            && (c == HighConfidence <==> HasConfidence(g, HighConfidence))
            && (c == MediumConfidence <==> HasConfidence(g, MediumConfidence) && !HasConfidence(g, HighConfidence))
            && (c == LowConfidence <==>
                HasConfidence(g, LowConfidence) && !HasConfidence(g, HighConfidence) && !HasConfidence(g, MediumConfidence))
            && (c in {HighConfidence, MediumConfidence, LowConfidence} || c == g[0].confidence)
  {
    MergedHighest(g);
    SeverityChosen(g);
  }

  // The merged finding is its first record but for the fields named, has no location that no record
  // has, and takes the first documentation link there is.
  lemma {:induction false} MergedInventsNothing(g: seq<Finding>)
    requires g != []
    ensures var m := Merged(g);
            m == g[0].(tool := m.tool, reviewer := ReviewerTool, reviewerIdentity := m.tool, severity := m.severity,
                       confidence := m.confidence, locations := m.locations, documentationURL := m.documentationURL,
                       rationale := m.rationale, details := m.details, related := m.related, duplicates := m.duplicates)
    ensures |GroupTools(g)| <= 1 ==> Merged(g).details == g[0].details && Merged(g).rationale == g[0].rationale
    ensures forall l | l in Merged(g).locations :: exists k | 0 <= k < |g| :: l in g[k].locations
    ensures if Merged(g).documentationURL == "" then forall j | 0 <= j < |g| :: g[j].documentationURL == ""
            else exists k | 0 <= k < |g| :: FirstDocumented(g, k) && Merged(g).documentationURL == g[k].documentationURL
  {
    FirstDocumentationExact(g, |g|);
    forall l | l in Merged(g).locations ensures exists k | 0 <= k < |g| :: l in g[k].locations {
      CollectLocationsOnly(g, |g|, l);
    }
  }

  lemma {:induction false} TrimmedPartsTrimmed(parts: seq<string>, n: nat)
    requires n <= |parts|
    ensures forall t | t in TrimmedParts(parts, n) :: t != "" && TrimSpace(t) == t
    decreases n
  {
    if n > 0 {
      TrimmedPartsTrimmed(parts, n - 1);
      TrimSpaceIdempotent(parts[n - 1]);
    }
  }

  lemma {:induction false} ToolNamed(g: seq<Finding>, k: nat, t: string)
    requires k < |g| && t in ToolNames(g[k])
    ensures t in GroupTools(g)
  {
    TrimmedPartsTrimmed(SplitComma(g[k].tool), |SplitComma(g[k].tool)|);
    CollectMembers(ToolNames, g, |g|, t);
    assert TrimSpace(t) in Cleaned(Collect(ToolNames, g, |g|));
  }

  // ---- Which ids and which names ----

  // A record has or lists s, white space aside.
  ghost predicate Speaks(f: Finding, s: string) {
    || TrimSpace(f.id) == s
    || (exists x | x in f.duplicates :: TrimSpace(x) == s) || (exists x | x in f.related :: TrimSpace(x) == s)
  }

  lemma {:induction false} SpeaksExactly(f: Finding, s: string)
    requires s != ""
    ensures Speaks(f, s) <==> exists x | x in RecordIDs(f) :: TrimSpace(x) == s
  {
    assert TrimSpace("") == "";
    if TrimSpace(f.id) == s { assert f.id in RecordIDs(f); }
    forall x | x in f.duplicates || x in f.related ensures x in RecordIDs(f) {
    }
  }

  // The merged finding is related to every id its records have or list, and of these has all as duplicates
  // but its own.
  lemma {:induction false} MergedIDsExactly(g: seq<Finding>, s: string)
    requires g != []
    ensures s in Merged(g).related <==> s != "" && exists k | 0 <= k < |g| :: Speaks(g[k], s)
    ensures s in Merged(g).duplicates <==> s in Merged(g).related && s != g[0].id
  {
    GroupIDsExact(g, s);
    assert GroupIDs(g)[..|GroupIDs(g)|] == GroupIDs(g);
    if s != "" {
      forall k | 0 <= k < |g| ensures Speaks(g[k], s) <==> exists x | x in RecordIDs(g[k]) :: TrimSpace(x) == s {
        SpeaksExactly(g[k], s);
      }
    }
  }

  // One of the parts is this, white space aside.
  ghost predicate Parts(parts: seq<string>, t: string) {
    exists k | 0 <= k < |parts| :: TrimSpace(parts[k]) == t
  }

  lemma {:induction false} TrimmedPartsExactly(parts: seq<string>, n: nat, t: string)
    requires n <= |parts|
    ensures t in TrimmedParts(parts, n) <==> t != "" && Parts(parts[..n], t)
    decreases n
  {
    if n > 0 {
      TrimmedPartsExactly(parts, n - 1, t);
      assert parts[..n] == parts[..n - 1] + [parts[n - 1]];
      PartsAppend(parts[..n - 1], parts[n - 1], t);
    }
  }

  lemma {:induction false} PartsAppend(parts: seq<string>, p: string, t: string)
    ensures Parts(parts + [p], t) <==> Parts(parts, t) || TrimSpace(p) == t
  {
    var all := parts + [p];
    if k :| 0 <= k < |parts| && TrimSpace(parts[k]) == t { assert TrimSpace(all[k]) == t; }
    if TrimSpace(p) == t { assert TrimSpace(all[|parts|]) == t; }
    if k :| 0 <= k < |all| && TrimSpace(all[k]) == t {
      if k < |parts| { assert TrimSpace(parts[k]) == t; }
    }
  }

  lemma {:induction false} TrimEmpty()
    ensures TrimSpace("") == ""
  {
    assert TrimLeft("") == "" && TrimRight("") == "";
  }

  // A tool field names what its commas part, white space aside.
  lemma {:induction false} ToolNamesExactly(f: Finding, t: string)
    ensures t in ToolNames(f) <==> t != "" && Parts(SplitComma(f.tool), t)
  {
    var parts := SplitComma(f.tool);
    TrimmedPartsExactly(parts, |parts|, t);
    if f.tool == "" {
      TrimEmpty();
      if t != "" { NoneInEmpty(parts, t); }
    } else {
      assert parts[..|parts|] == parts;
    }
  }

  lemma {:induction false} NoneInEmpty(parts: seq<string>, t: string)
    requires TrimSpace("") == "" && parts == [""] && t != ""
    ensures !Parts(parts, t)
  {
  }

  // ---- Two tools ----

  // A tool name that is one name: no comma, no white space around it.
  ghost predicate IsOneName(tool: string) {
    tool != "" && ',' !in tool && TrimSpace(tool) == tool
  }

  lemma {:induction false} SplitOneName(tool: string)
    requires ',' !in tool
    ensures SplitComma(tool) == [tool]
  {
    if tool != "" {
      assert tool[0] in tool && forall c | c in tool[1..] :: c in tool;
      SplitOneName(tool[1..]);
      assert tool == [tool[0]] + tool[1..];
    }
  }

  lemma {:induction false} ToolNamesOfOne(f: Finding)
    requires IsOneName(f.tool)
    ensures ToolNames(f) == [f.tool]
  {
    SplitOneName(f.tool);
    assert TrimmedParts([f.tool], 0) == [];
    assert TrimmedParts([f.tool], 1) == [] + [f.tool];
  }

  lemma {:induction false} CleanedTwo(s: string, t: string)
    requires TrimSpace(s) == s != "" && TrimSpace(t) == t != ""
    ensures Cleaned([s, t]) == {s, t}
  {
    CleanedMember([s, t], s);
    CleanedMember([s, t], t);
  }

  lemma {:induction false} CleanedMember(xs: seq<string>, x: string)
    requires x in xs && TrimSpace(x) == x != ""
    ensures x in Cleaned(xs)
  {
    assert TrimSpace(x) in Cleaned(xs);
  }

  lemma {:induction false} NamesOfTwo(f: Finding, g: Finding)
    requires IsOneName(f.tool) && IsOneName(g.tool)
    ensures GroupTools([f, g]) == DedupeSorted([f.tool, g.tool])
    ensures forall t :: t in GroupTools([f, g]) <==> t == f.tool || t == g.tool
  {
    ToolNamesOfOne(f);
    ToolNamesOfOne(g);
    CollectTwo(ToolNames, f, g);
    assert [f.tool] + [g.tool] == [f.tool, g.tool];
    CleanedTwo(f.tool, g.tool);
  }

  lemma {:induction false} ToolsOfTwo(f: Finding, g: Finding)
    requires IsOneName(f.tool) && IsOneName(g.tool) && StrLess(f.tool, g.tool)
    ensures GroupTools([f, g]) == [f.tool, g.tool]
  {
    NamesOfTwo(f, g);
    AscendingUnique(GroupTools([f, g]), [f.tool, g.tool]);
  }

  lemma {:induction false} ToolOfBoth(f: Finding, g: Finding)
    requires IsOneName(f.tool) && g.tool == f.tool
    ensures GroupTools([f, g]) == [f.tool]
  {
    NamesOfTwo(f, g);
    AscendingUnique(GroupTools([f, g]), [f.tool]);
  }

  lemma {:induction false} ManyTools(g: seq<Finding>, named: string, details: string)
    requires |g| > 0 && |GroupTools(g)| > 1 && named == Join(GroupTools(g), ", ") && details == Join(DetailParts(g, |g|), "\n")
    ensures var m := Merged(g);
            && m.tool == named && m.reviewer == ReviewerTool && m.reviewerIdentity == named
            && m.rationale == "Confirmed across multiple tools: " + named + ". " + g[0].rationale
            && m.details == details && m.id == g[0].id && m.message == g[0].message
            && m.documentationURL == FirstDocumentation(g, |g|) && m.locations == CollectLocations(g, |g|)
  {
  }

  // A group of two records of two tools: the finding names both, credits itself to them, tells of both in
  // its rationale, and gives the details of each under its tool.
  lemma {:induction false} TwoToolsMerge(f: Finding, g: Finding)
    requires IsOneName(f.tool) && IsOneName(g.tool) && StrLess(f.tool, g.tool)
    ensures var m, named := Merged([f, g]), f.tool + ", " + g.tool;
            && m.tool == named && m.reviewer == ReviewerTool && m.reviewerIdentity == named
            && m.rationale == "Confirmed across multiple tools: " + named + ". " + f.rationale
            && m.details == "[" + f.tool + "]: " + f.details + "\n" + "[" + g.tool + "]: " + g.details
            && m.documentationURL == (if f.documentationURL != "" then f.documentationURL else g.documentationURL)
            && m.id == f.id && m.message == f.message && m.locations == MergeLocations(f.locations, g.locations)
  {
    ToolsOfTwo(f, g);
    JoinTwo(f.tool, g.tool, ", ");
    DetailsOfTwo(f, g);
    TwoStep(f, g);
    ManyTools([f, g], f.tool + ", " + g.tool, "[" + f.tool + "]: " + f.details + "\n" + "[" + g.tool + "]: " + g.details);
  }

  lemma {:induction false} CollectTwo(of: Finding -> seq<string>, f: Finding, g: Finding)
    ensures Collect(of, [f, g], 2) == of(f) + of(g)
  {
    assert Collect(of, [f, g], 0) == [];
    assert Collect(of, [f, g], 1) == [] + of(f);
  }

  lemma {:induction false} JoinTwo(a: string, b: string, sep: string)
    ensures Join([a, b], sep) == a + sep + b
  {
    assert [a, b][1..] == [b];
  }

  lemma {:induction false} DetailsOfTwo(f: Finding, g: Finding)
    ensures Join(DetailParts([f, g], 2), "\n")
         == "[" + f.tool + "]: " + f.details + "\n" + "[" + g.tool + "]: " + g.details
  {
    var a, b := DetailPart(f), DetailPart(g);
    assert DetailParts([f, g], 2) == [a, b];
    JoinTwo(a, b, "\n");
  }

  lemma {:induction false} SelfMerge(ls: seq<Location>, from: seq<Location>)
    requires forall l | l in from :: l in ls
    ensures MergeLocations(ls, from) == ls
    decreases |from|
  {
    if from != [] {
      assert from[0] in ls && SamePlace(from[0], from[0]);
      SelfMerge(ls, from[1..]);
    }
  }

  lemma {:induction false} TwoStep(f: Finding, g: Finding)
    ensures CollectLocations([f, g], 2) == MergeLocations(f.locations, g.locations)
    ensures FirstDocumentation([f, g], 2) == if f.documentationURL != "" then f.documentationURL else g.documentationURL
  {
    SelfMerge(f.locations, f.locations);
    assert CollectLocations([f, g], 0) == f.locations;
    assert CollectLocations([f, g], 1) == f.locations;
    assert FirstDocumentation([f, g], 0) == f.documentationURL;
    assert FirstDocumentation([f, g], 1) == f.documentationURL;
  }

  // Records of one tool keep the first one's details and rationale.
  lemma {:induction false} OneToolMerges(f: Finding, g: Finding)
    requires IsOneName(f.tool) && g.tool == f.tool
    ensures var m := Merged([f, g]); m.tool == f.tool && m.details == f.details && m.rationale == f.rationale
  {
    ToolOfBoth(f, g);
    assert Join([f.tool], ", ") == f.tool;
  }

  // ---- A linked record ----

  // A linked record keeps its fields but for two lists, and each of these holds exactly what it held, trimmed,
  // and the group's ids but its own.
  lemma {:induction false} LinkedRecordExactly(f: Finding, ids: seq<string>, s: string)
    requires forall x | x in ids :: TrimSpace(x) == x != ""
    ensures var r := LinkedRecord(f, ids);
            && r == f.(related := r.related, duplicates := r.duplicates)
            && (s in r.related <==>
                  (s in ids && s != f.id) || (s != "" && exists x | x in f.related :: TrimSpace(x) == s))
            && (s in r.duplicates <==>
                  (s in ids && s != f.id) || (s != "" && exists x | x in f.duplicates :: TrimSpace(x) == s))
  {
    LinkedList(f.related, ids, f.id, s);
    LinkedList(f.duplicates, ids, f.id, s);
  }

  lemma {:induction false} LinkedList(held: seq<string>, ids: seq<string>, own: string, s: string)
    requires forall x | x in ids :: TrimSpace(x) == x != ""
    ensures s in DedupeSorted(held + Without(ids, own, |ids|)) <==>
              (s in ids && s != own) || (s != "" && exists x | x in held :: TrimSpace(x) == s)
  {
    var all := held + Without(ids, own, |ids|);
    assert ids[..|ids|] == ids;
    if s in DedupeSorted(all) {
      var x :| x in all && TrimSpace(x) != "" && TrimSpace(x) == s;
    }
    if s in ids && s != own { assert s in all; CleanedMember(all, s); }
    if x :| x in held && TrimSpace(x) == s && s != "" {
      assert x in all;
      assert TrimSpace(x) in Cleaned(all);
    }
  }
}
