// The deterministic fingerprint of a finding.
module Fingerprints {
  import opened Text
  import opened Evidence

  // A digest in hexadecimal. Nothing is assumed of it but its length.
  type Digest = f: string -> string | forall x {:trigger f(x)} :: |f(x)| == 64 witness ZeroDigest

  function ZeroDigest(text: string): (hex: string)
    ensures |hex| == 64
  {
    "0000000000000000000000000000000000000000000000000000000000000000"
  }

  // What ties a finding to the content it was found in.
  function Anchor(sha: Digest, f: Finding): string {
    if f.snippetHash != "" then f.snippetHash
    else if f.locations != [] && f.locations[0].snippetHash != "" then f.locations[0].snippetHash
    else if f.locations != [] && f.locations[0].snippet != "" then sha(TrimSpace(f.locations[0].snippet))
    else if f.snippet != "" then sha(TrimSpace(f.snippet))
    else if TrimSpace(f.matched) != "" then TrimSpace(f.matched)
    else TrimSpace(f.message)
  }

  function AnchorPath(f: Finding): string {
    if f.locations != [] && f.locations[0].uri != "" then f.locations[0].uri else f.scopePath
  }

  function TextToDigest(tool: string, ruleID: string, path: string, anchor: string): string {
    tool + "\0" + ruleID + "\0" + path + "\0" + anchor + "\0"
  }

  function Digested(sha: Digest, tool: string, ruleID: string, path: string, anchor: string): (id: string)
    ensures |id| == 16
  {
    sha(TextToDigest(tool, ruleID, path, anchor))[..16]
  }

  function FingerprintOf(sha: Digest, f: Finding): (id: string)
    ensures |id| == 16
  {
    Digested(sha, f.tool, f.ruleID, AnchorPath(f), Anchor(sha, f))
  }

  method Fingerprint(sha: Digest, f: Finding) returns (id: string)
    ensures id == FingerprintOf(sha, f)
  {
    var primaryPath := f.scopePath;
    if |f.locations| > 0 && f.locations[0].uri != "" {
      primaryPath := f.locations[0].uri;
    }
    var contentAnchor := f.snippetHash;
    if contentAnchor == "" && |f.locations| > 0 {
      contentAnchor := f.locations[0].snippetHash;
      if contentAnchor == "" && f.locations[0].snippet != "" {
        contentAnchor := sha(TrimSpace(f.locations[0].snippet));
      }
    }
    if contentAnchor == "" && f.snippet != "" {
      contentAnchor := sha(TrimSpace(f.snippet));
    }
    assert TrimSpace("") == "";
    if contentAnchor == "" && f.matched != "" {
      contentAnchor := TrimSpace(f.matched);
    }
    if contentAnchor == "" {
      contentAnchor := TrimSpace(f.message);
    }
    assert contentAnchor == Anchor(sha, f);
    id := Digested(sha, f.tool, f.ruleID, primaryPath, contentAnchor);
  }

  // The fingerprint reads a finding's tool, rule, path and content and nothing else: not its lines or
  // columns, its severity, its raw index, or any location after the first.
  lemma {:induction false} FingerprintReads(sha: Digest, f: Finding, g: Finding)
    requires f.tool == g.tool && f.ruleID == g.ruleID && f.scopePath == g.scopePath
    requires f.snippetHash == g.snippetHash && f.snippet == g.snippet && f.matched == g.matched && f.message == g.message
    requires f.locations == [] <==> g.locations == []
    requires f.locations != [] ==>
      && f.locations[0].uri == g.locations[0].uri
      && f.locations[0].snippet == g.locations[0].snippet
      && f.locations[0].snippetHash == g.locations[0].snippetHash
    ensures FingerprintOf(sha, f) == FingerprintOf(sha, g)
  {
    assert Anchor(sha, f) == Anchor(sha, g) && AnchorPath(f) == AnchorPath(g);
  }

  // ---- What is digested ----

  // The file of a fingerprint: its first location's, or its scope's when that names none.
  ghost predicate OfFile(f: Finding, path: string) {
    if f.locations != [] && f.locations[0].uri != "" then path == f.locations[0].uri else path == f.scopePath
  }

  // The content of a fingerprint: the first of six that is not empty.
  ghost predicate OfContent(sha: Digest, f: Finding, anchor: string) {
    var l := if f.locations != [] then f.locations[0] else Location("", Nil, Nil, Nil, Nil, "", "");
    && (f.snippetHash != "" ==> anchor == f.snippetHash)
    && (f.snippetHash == "" && l.snippetHash != "" ==> anchor == l.snippetHash)
    && (f.snippetHash == "" && l.snippetHash == "" && l.snippet != "" ==> anchor == sha(TrimSpace(l.snippet)))
    && (f.snippetHash == "" && l.snippetHash == "" && l.snippet == "" && f.snippet != "" ==>
          anchor == sha(TrimSpace(f.snippet)))
    && (f.snippetHash == "" && l.snippetHash == "" && l.snippet == "" && f.snippet == "" && TrimSpace(f.matched) != "" ==>
          anchor == TrimSpace(f.matched))
    && (f.snippetHash == "" && l.snippetHash == "" && l.snippet == "" && f.snippet == "" && TrimSpace(f.matched) == "" ==>
          anchor == TrimSpace(f.message))
  }

  // A fingerprint is sixteen characters of the digest of tool, rule, file and content, each ended by a zero.
  lemma {:induction false} FingerprintExactly(sha: Digest, f: Finding, path: string, anchor: string)
    requires OfFile(f, path) && OfContent(sha, f, anchor)
    ensures FingerprintOf(sha, f) == sha(f.tool + "\0" + f.ruleID + "\0" + path + "\0" + anchor + "\0")[..16]
  {
  }

  lemma {:induction false} TextGrouped(tool: string, ruleID: string, path: string, anchor: string)
    ensures TextToDigest(tool, ruleID, path, anchor)
         == tool + "\0" + (ruleID + "\0" + (path + "\0" + (anchor + "\0")))
  {
  }

  // Two digested texts are one exactly when tool, rule, file and content are, as long as the first three
  // hold no zero: so findings alike but for their files are digested apart.
  lemma {:induction false} TextsTellExactly(tool: string, ruleID: string, path: string, anchor: string,
                                            tool': string, ruleID': string, path': string, anchor': string)
    requires '\0' !in tool && '\0' !in tool' && '\0' !in ruleID && '\0' !in ruleID' && '\0' !in path && '\0' !in path'
    ensures TextToDigest(tool, ruleID, path, anchor) == TextToDigest(tool', ruleID', path', anchor')
       <==> tool == tool' && ruleID == ruleID' && path == path' && anchor == anchor'
  {
    TextGrouped(tool, ruleID, path, anchor);
    TextGrouped(tool', ruleID', path', anchor');
    if TextToDigest(tool, ruleID, path, anchor) == TextToDigest(tool', ruleID', path', anchor') {
      var x, x' := path + "\0" + (anchor + "\0"), path' + "\0" + (anchor' + "\0");
      FirstPartsTell('\0', tool, tool', ruleID + "\0" + x, ruleID' + "\0" + x');
      FirstPartsTell('\0', ruleID, ruleID', x, x');
      FirstPartsTell('\0', path, path', anchor + "\0", anchor' + "\0");
      assert (anchor + "\0")[..|anchor|] == anchor && (anchor' + "\0")[..|anchor'|] == anchor';
    }
  }
}
