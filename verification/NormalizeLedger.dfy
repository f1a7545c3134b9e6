// What Normalize keeps of a log's results: the first of each id, in order, with a count of the rest.
module NormalizeLedger {
  import opened Evidence
  import opened Sarif

  predicate SeenBefore(fs: seq<Finding>, n: nat, id: string)
    requires n <= |fs|
  {
    exists k | 0 <= k < n :: fs[k].id == id
  }

  // Where ids occur first, among the first n.
  function Firsts(fs: seq<Finding>, n: nat): (r: seq<nat>)
    requires n <= |fs|
    ensures forall j | 0 <= j < |r| :: r[j] < n
  {
    if n == 0 then []
    else Firsts(fs, n - 1) + if SeenBefore(fs, n - 1, fs[n - 1].id) then [] else [n - 1]
  }

  function Occurrences(fs: seq<Finding>, n: nat, id: string): nat
    requires n <= |fs|
  {
    if n == 0 then 0 else Occurrences(fs, n - 1, id) + if fs[n - 1].id == id then 1 else 0
  }

  // f with its id listed once for each of k repetitions.
  function Repeated(f: Finding, k: nat): Finding {
    f.(duplicates := f.duplicates + seq(k, _ => f.id), related := f.related + seq(k, _ => f.id))
  }

  function CondensedAt(fs: seq<Finding>, n: nat, at: nat): Finding
    requires at < n <= |fs|
  {
    var count := Occurrences(fs, n, fs[at].id);
    Repeated(fs[at], if count > 0 then count - 1 else 0)
  }

  function Condensed(fs: seq<Finding>, n: nat): (out: seq<Finding>)
    requires n <= |fs|
    ensures |out| == |Firsts(fs, n)|
    ensures forall j | 0 <= j < |out| :: out[j] == CondensedAt(fs, n, Firsts(fs, n)[j])
  {
    var at := Firsts(fs, n);
    seq(|at|, j requires 0 <= j < |at| => CondensedAt(fs, n, at[j]))
  }

  // Positions in order, each the first of its id.
  ghost predicate EachFirst(fs: seq<Finding>, at: seq<nat>) {
    && (forall j | 0 <= j < |at| :: at[j] < |fs| && !SeenBefore(fs, at[j], fs[at[j]].id))
    && (forall i, j | 0 <= i < j < |at| :: at[i] < at[j])
  }

  lemma {:induction false} FirstsExact(fs: seq<Finding>, n: nat)
    requires n <= |fs|
    ensures EachFirst(fs, Firsts(fs, n))
    ensures var r := Firsts(fs, n); forall i, j | 0 <= i < j < |r| :: fs[r[i]].id != fs[r[j]].id
    decreases n
  {
    if n > 0 {
      FirstsExact(fs, n - 1);
      var before := Firsts(fs, n - 1);
      if SeenBefore(fs, n - 1, fs[n - 1].id) {
        assert Firsts(fs, n) == before;
      } else {
        assert Firsts(fs, n) == before + [n - 1];
      }
      var r := Firsts(fs, n);
      forall i, j | 0 <= i < j < |r| ensures fs[r[i]].id != fs[r[j]].id {
        assert !SeenBefore(fs, r[j], fs[r[j]].id);
      }
    }
  }

  lemma {:induction false} FirstsFind(fs: seq<Finding>, n: nat, k: nat) returns (j: nat)
    requires k < n <= |fs|
    ensures j < |Firsts(fs, n)| && fs[Firsts(fs, n)[j]].id == fs[k].id
    decreases n
  {
    if SeenBefore(fs, n - 1, fs[n - 1].id) && k == n - 1 {
      var m :| 0 <= m < n - 1 && fs[m].id == fs[n - 1].id;
      j := FirstsFind(fs, n - 1, m);
    } else if k < n - 1 {
      j := FirstsFind(fs, n - 1, k);
    } else {
      j := |Firsts(fs, n - 1)|;
    }
  }

  lemma {:induction false} OccurrencesExact(fs: seq<Finding>, n: nat, id: string)
    requires n <= |fs|
    ensures Occurrences(fs, n, id) > 0 <==> SeenBefore(fs, n, id)
    decreases n
  {
    if n > 0 {
      OccurrencesExact(fs, n - 1, id);
      if fs[n - 1].id == id { assert SeenBefore(fs, n, id); }
    }
  }

  lemma {:induction false} FindExact(fs: seq<Finding>, id: string)
    ensures var i := Find(fs, id); (i < |fs| ==> fs[i].id == id) && forall k | 0 <= k < i :: fs[k].id != id
  {
    if fs != [] && fs[0].id != id {
      FindExact(fs[1..], id);
      forall k | 0 <= k < Find(fs, id) ensures fs[k].id != id {
        if k > 0 { assert fs[k] == fs[1..][k - 1]; }
      }
    }
  }

  lemma {:induction false} FindIn(fs: seq<Finding>, id: string, j: nat)
    requires j < |fs| && fs[j].id == id && forall i, k | 0 <= i < k < |fs| :: fs[i].id != fs[k].id
    ensures Find(fs, id) == j
  {
    FindExact(fs, id);
  }

  lemma {:induction false} FindNot(fs: seq<Finding>, id: string)
    requires forall j | 0 <= j < |fs| :: fs[j].id != id
    ensures Find(fs, id) == |fs|
  {
    FindExact(fs, id);
  }

  lemma {:induction false} RepeatOnce(f: Finding, k: nat)
    ensures Repeated(f, k).(duplicates := Repeated(f, k).duplicates + [f.id], related := Repeated(f, k).related + [f.id])
         == Repeated(f, k + 1)
  {
    assert seq(k + 1, _ => f.id) == seq(k, _ => f.id) + [f.id];
  }

  lemma {:induction false} CountStep(fs: seq<Finding>, n: nat, at: nat)
    requires at < n < |fs|
    ensures var c := CondensedAt(fs, n, at);
            CondensedAt(fs, n + 1, at) ==
              if fs[at].id != fs[n].id then c
              else c.(duplicates := c.duplicates + [fs[n].id], related := c.related + [fs[n].id])
  {
    assert SeenBefore(fs, n, fs[at].id);
    OccurrencesExact(fs, n, fs[at].id);
    RepeatOnce(fs[at], Occurrences(fs, n, fs[at].id) - 1);
  }

  // A repeated id adds one to its first finding's lists and touches no other.
  lemma {:induction false} RepeatStep(fs: seq<Finding>, n: nat, j: nat)
    requires n < |fs| && j < |Firsts(fs, n)| && fs[Firsts(fs, n)[j]].id == fs[n].id
    ensures Condensed(fs, n + 1) == AddCandidate(Condensed(fs, n), fs[n])
  {
    var at, out := Firsts(fs, n), Condensed(fs, n);
    FirstsExact(fs, n);
    assert SeenBefore(fs, n, fs[n].id);
    FindIn(out, fs[n].id, j);
    assert Firsts(fs, n + 1) == at;
    forall i | 0 <= i < |out| ensures Condensed(fs, n + 1)[i] == AddCandidate(out, fs[n])[i] {
      CountStep(fs, n, at[i]);
    }
  }

  lemma {:induction false} NewStep(fs: seq<Finding>, n: nat)
    requires n < |fs| && !SeenBefore(fs, n, fs[n].id)
    ensures Condensed(fs, n + 1) == AddCandidate(Condensed(fs, n), fs[n])
  {
    var at, out := Firsts(fs, n), Condensed(fs, n);
    forall j | 0 <= j < |out| ensures out[j].id != fs[n].id {
      assert fs[at[j]].id != fs[n].id;
    }
    FindNot(out, fs[n].id);
    OccurrencesExact(fs, n, fs[n].id);
    assert Repeated(fs[n], 0) == fs[n];
    forall j | 0 <= j < |out| ensures CondensedAt(fs, n + 1, at[j]) == CondensedAt(fs, n, at[j]) {
      CountStep(fs, n, at[j]);
    }
    assert Firsts(fs, n + 1) == at + [n];
  }

  lemma {:induction false} CondensedStep(fs: seq<Finding>, n: nat)
    requires n < |fs|
    ensures Condensed(fs, n + 1) == AddCandidate(Condensed(fs, n), fs[n])
  {
    if SeenBefore(fs, n, fs[n].id) {
      var k :| 0 <= k < n && fs[k].id == fs[n].id;
      var j := FirstsFind(fs, n, k);
      RepeatStep(fs, n, j);
    } else {
      NewStep(fs, n);
    }
  }

  // Adding the findings of one stretch of a list carries its condensation over that stretch.
  lemma {:induction false} AddStretch(fs: seq<Finding>, n: nat, stretch: seq<Finding>, k: nat)
    requires k <= |stretch| && n + |stretch| <= |fs|
    requires forall i | 0 <= i < |stretch| :: stretch[i] == fs[n + i]
    ensures AddAll(Condensed(fs, n), stretch, k) == Condensed(fs, n + k)
    decreases k
  {
    if k > 0 {
      AddStretch(fs, n, stretch, k - 1);
      CondensedStep(fs, n + k - 1);
    }
  }

  lemma {:induction false} JoinedAt(parts: seq<seq<Finding>>, r: nat, n: nat)
    requires r < n <= |parts|
    ensures var all, before := Joined(parts, n), Joined(parts, r);
            && |before| + |parts[r]| <= |all| && |Joined(parts, r + 1)| == |before| + |parts[r]|
            && forall i | 0 <= i < |parts[r]| :: parts[r][i] == all[|before| + i]
    decreases n
  {
    if r < n - 1 { JoinedAt(parts, r, n - 1); }
  }

  lemma {:induction false} AddPartsExactly(parts: seq<seq<Finding>>, r: nat)
    requires r <= |parts|
    ensures |Joined(parts, r)| <= |Joined(parts, |parts|)|
    ensures AddParts(parts, r) == Condensed(Joined(parts, |parts|), |Joined(parts, r)|)
    decreases r
  {
    if r > 0 {
      AddPartsExactly(parts, r - 1);
      JoinedAt(parts, r - 1, |parts|);
      AddStretch(Joined(parts, |parts|), |Joined(parts, r - 1)|, parts[r - 1], |parts[r - 1]|);
    }
  }

  // Normalize keeps, in order, the first finding of each id among all the log's results; each carries
  // its own id once for every later result of that id, as duplicate and as related.
  lemma {:induction false} NormalizedExactly(lib: Lib, src: Source, log: seq<SarifRun>)
    ensures var all := Candidates(lib, src, log); Normalized(lib, src, log) == Condensed(all, |all|)
  {
    AddPartsExactly(Parts(lib, src, log), |log|);
  }

  // Distinct ids, and one for each.
  ghost predicate OneOfEach(out: seq<Finding>, all: seq<Finding>) {
    && (forall i, j | 0 <= i < j < |out| :: out[i].id != out[j].id)
    && (forall k | 0 <= k < |all| :: SeenBefore(out, |out|, all[k].id))
  }

  lemma {:induction false} CondensedOneOfEach(fs: seq<Finding>)
    ensures OneOfEach(Condensed(fs, |fs|), fs)
  {
    var out, at := Condensed(fs, |fs|), Firsts(fs, |fs|);
    FirstsExact(fs, |fs|);
    forall k | 0 <= k < |fs| ensures SeenBefore(out, |out|, fs[k].id) {
      var j := FirstsFind(fs, |fs|, k);
      assert out[j].id == fs[k].id;
    }
    forall i, j | 0 <= i < j < |out| ensures out[i].id != out[j].id {
      assert fs[at[i]].id != fs[at[j]].id;
    }
  }

  // So the ids of the findings are distinct, and every result's is among them.
  lemma {:induction false} NormalizedIDs(lib: Lib, src: Source, log: seq<SarifRun>)
    ensures OneOfEach(Normalized(lib, src, log), Candidates(lib, src, log))
  {
    NormalizedExactly(lib, src, log);
    CondensedOneOfEach(Candidates(lib, src, log));
  }

  // And no result goes uncounted: each finding stands for itself and for the repetitions it lists.
  function Accounted(out: seq<Finding>, n: nat): nat
    requires n <= |out|
  {
    if n == 0 then 0 else Accounted(out, n - 1) + 1 + |out[n - 1].duplicates|
  }

  lemma {:induction false} AddCounts(out: seq<Finding>, f: Finding, at: nat, n: nat)
    requires at < |out| && n <= |out|
    ensures Accounted(out[at := out[at].(duplicates := out[at].duplicates + [f.id], related := out[at].related + [f.id])], n)
         == Accounted(out, n) + if at < n then 1 else 0
    decreases n
  {
    if n > 0 { AddCounts(out, f, at, n - 1); }
  }

  lemma {:induction false} AccountedPrefix(out: seq<Finding>, f: Finding, n: nat)
    requires n <= |out|
    ensures Accounted(out + [f], n) == Accounted(out, n)
    decreases n
  {
    if n > 0 { AccountedPrefix(out, f, n - 1); }
  }

  ghost predicate Unlinked(fs: seq<Finding>) {
    forall i | 0 <= i < |fs| :: fs[i].duplicates == []
  }

  lemma {:induction false} AddAllCounts(out: seq<Finding>, fs: seq<Finding>, n: nat)
    requires n <= |fs| && Unlinked(fs)
    ensures var r := AddAll(out, fs, n); Accounted(r, |r|) == Accounted(out, |out|) + n
    decreases n
  {
    if n > 0 {
      AddAllCounts(out, fs, n - 1);
      var before, f := AddAll(out, fs, n - 1), fs[n - 1];
      var at := Find(before, f.id);
      if at < |before| { AddCounts(before, f, at, |before|); } else { AccountedPrefix(before, f, |before|); }
    }
  }

  lemma {:induction false} AddPartsCounts(parts: seq<seq<Finding>>, r: nat)
    requires r <= |parts| && forall p | 0 <= p < |parts| :: Unlinked(parts[p])
    ensures var out := AddParts(parts, r); Accounted(out, |out|) == |Joined(parts, r)|
    decreases r
  {
    if r > 0 {
      AddPartsCounts(parts, r - 1);
      AddAllCounts(AddParts(parts, r - 1), parts[r - 1], |parts[r - 1]|);
    }
  }

  lemma {:induction false} RedactionKeepsLinks(lib: Lib, f: Finding, n: nat)
    requires n <= |f.locations|
    ensures var r := RedactLocations(lib, f, n); r.duplicates == f.duplicates && r.related == f.related
    decreases n
  {
    if n > 0 { RedactionKeepsLinks(lib, f, n - 1); }
  }

  lemma {:induction false} FreshFinding(lib: Lib, src: Source, res: SarifResult, rules: map<string, SarifRule>,
                                        i: nat)
    ensures FindingOf(lib, src, res, rules, i).duplicates == []
  {
    var texts := RedactTexts(lib, Draft(lib, src, res, rules, i));
    RedactionKeepsLinks(lib, texts, |texts.locations|);
  }

  lemma {:induction false} FreshRun(lib: Lib, src: Source, run: SarifRun)
    ensures Unlinked(RunCandidates(lib, src, run))
  {
    var fs := RunCandidates(lib, src, run);
    forall i | 0 <= i < |fs| ensures fs[i].duplicates == [] {
      FreshFinding(lib, src, run.results[i], RuleByID(run.rules, |run.rules|), i);
    }
  }

  lemma {:induction false} NormalizedCounts(lib: Lib, src: Source, log: seq<SarifRun>)
    ensures var out := Normalized(lib, src, log); Accounted(out, |out|) == |Candidates(lib, src, log)|
  {
    var parts := Parts(lib, src, log);
    forall p | 0 <= p < |parts| ensures Unlinked(parts[p]) {
      FreshRun(lib, src, log[p]);
    }
    AddPartsCounts(parts, |parts|);
  }
}
