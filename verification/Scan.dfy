// The engine's scan: tasks run in parallel, their outcomes joined in task order, correlated, judged.
module Scan {
  import opened Text
  import opened Sorting
  import opened Evidence
  import opened Parallel
  import opened Policy
  import opened PolicyOutcome
  import C = Components
  import opened Correlate

  // ---- The tasks ----

  function Unstarted(name: string): RunOutcome {
    RunOutcome(name, name, -1, Unavailable, [], "cancelled before execution", "v1.0.0")
  }

  function AdapterPanicked(name: string, what: string): RunOutcome {
    RunOutcome(name, name, -1, Crashed, [], "adapter panicked: " + what, "v1.0.0")
  }

  // Each task reports a list of outcomes under names of its own choosing; the outcomes the engine
  // makes up for it carry the task's name. At most four run at once unless configured otherwise.
  function JobOf(names: seq<string>, maxConcurrency: int, may: (nat, bool, Ending<seq<RunOutcome>>) -> bool)
    : Job<seq<RunOutcome>> {
    Job(|names|, if maxConcurrency <= 0 then 4 else maxConcurrency, may,
        (i: nat) => [Unstarted(if i < |names| then names[i] else "")],
        (i: nat, what: string) => [AdapterPanicked(if i < |names| then names[i] else "", what)],
        [])
  }

  // Never do more tasks of a scan run at once than were configured, or four when none were.
  lemma {:induction false} NeverMoreThanConfigured(names: seq<string>, maxConcurrency: int,
                                                   may: (nat, bool, Ending<seq<RunOutcome>>) -> bool,
                                                   run: seq<State<seq<RunOutcome>>>, k: nat)
    requires IsRun(JobOf(names, maxConcurrency, may), run) && k < |run|
    ensures maxConcurrency > 0 ==> Total(Busy, run[k].pcs) <= maxConcurrency
    ensures maxConcurrency <= 0 ==> Total(Busy, run[k].pcs) <= 4
  {
    RunIsSafe(JobOf(names, maxConcurrency, may), run, k);
  }

  lemma {:induction false} ConfiguredIsReached(names: seq<string>, maxConcurrency: int,
                                               may: (nat, bool, Ending<seq<RunOutcome>>) -> bool)
    returns (run: seq<State<seq<RunOutcome>>>)
    ensures IsRun(JobOf(names, maxConcurrency, may), run)
    ensures var most := if maxConcurrency > 0 then maxConcurrency else 4;
            Total(Busy, run[|run| - 1].pcs) == if most < |names| then most else |names|
  {
    var most := if maxConcurrency > 0 then maxConcurrency else 4;
    run := BoundIsReached(JobOf(names, maxConcurrency, may), if most < |names| then most else |names|);
  }

  // What a task's slot holds on return: what the task reported; or, had it panicked, one crashed run under
  // the task's name; or, after a cancellation, one unavailable run under that name.
  lemma {:induction false} SlotOfTask(names: seq<string>, maxConcurrency: int,
                                      may: (nat, bool, Ending<seq<RunOutcome>>) -> bool,
                                      run: seq<State<seq<RunOutcome>>>, i: nat)
    requires IsRun(JobOf(names, maxConcurrency, may), run) && run[|run| - 1].returned && i < |names|
    ensures var s, name := run[|run| - 1], names[i];
            && |s.slots| == |names|
            && (|| (exists c :: may(i, c, Returns(s.slots[i])))
                || (exists c, what :: may(i, c, Panics(what)) && s.slots[i] ==
                      [RunOutcome(name, name, -1, Crashed, [], "adapter panicked: " + what, "v1.0.0")])
                || (s.cancelled && s.slots[i] ==
                      [RunOutcome(name, name, -1, Unavailable, [], "cancelled before execution", "v1.0.0")]))
  {
    var job, s := JobOf(names, maxConcurrency, may), run[|run| - 1];
    RunHolds(job, run);
    ReturnIsComplete(job, s, i);
    if !(s.cancelled && s.slots[i] == job.killed(i)) {
      var e :| Genuine(job, s.cancelled, i, e) && s.slots[i] == Settle(job, i, e);
      var c := !may(i, false, e);
      assert may(i, c, e);
    }
  }

  // ---- Joining the outcomes ----

  function Joined(slots: seq<seq<RunOutcome>>, n: nat): seq<RunOutcome>
    requires n <= |slots|
  {
    if n == 0 then [] else Joined(slots, n - 1) + slots[n - 1]
  }

  lemma {:induction false} JoinedExactly(slots: seq<seq<RunOutcome>>, n: nat, o: RunOutcome)
    requires n <= |slots|
    ensures o in Joined(slots, n) <==> exists i | 0 <= i < n :: o in slots[i]
    decreases n
  {
    if n > 0 { JoinedExactly(slots, n - 1, o); }
  }

  // The outcomes are joined in task order, and within a task as it reported them.
  lemma {:induction false} JoinedInOrder(slots: seq<seq<RunOutcome>>, n: nat, k: nat)
    requires k < n <= |slots|
    ensures exists before, rest :: Joined(slots, n) == before + slots[k] + rest && before == Joined(slots, k)
    decreases n
  {
    if k == n - 1 {
      assert Joined(slots, n) == Joined(slots, k) + slots[k] + [];
    } else {
      JoinedInOrder(slots, n - 1, k);
      var before, rest :| Joined(slots, n - 1) == before + slots[k] + rest && before == Joined(slots, k);
      assert Joined(slots, n) == before + slots[k] + (rest + slots[n - 1]);
    }
  }

  predicate Ran(o: RunOutcome) {
    o.tool != "" && o.status != NotInstalled && o.status != Skipped
  }

  ghost predicate ToolRan(runs: seq<RunOutcome>, n: nat, t: string)
    requires n <= |runs|
  {
    exists i | 0 <= i < n :: Ran(runs[i]) && runs[i].tool == t
  }

  // dedupeStrings
  method DedupeStrings(xs: seq<string>) returns (out: seq<string>)
    ensures DistinctStrings(out) && forall s :: s in out <==> s in xs
    ensures SortedStrings(xs) ==> Ascending(out)
  {
    out := [];
    var seen: set<string> := {};
    ghost var at: seq<nat> := [];
    for k := 0 to |xs|
      invariant DistinctStrings(out)
      invariant forall s :: s in out <==> s in xs[..k]
      invariant forall s :: s in seen <==> s in out
      invariant |at| == |out| && forall i | 0 <= i < |at| :: at[i] < k && xs[at[i]] == out[i]
      invariant forall i, j | 0 <= i < j < |at| :: at[i] < at[j]
    {
      assert xs[..k + 1] == xs[..k] + [xs[k]];
      if xs[k] !in seen {
        seen := seen + {xs[k]};
        out := out + [xs[k]];
        at := at + [k];
      }
    }
    assert xs[..|xs|] == xs;
    if SortedStrings(xs) {
      forall i, j | 0 <= i < j < |out| ensures StrLess(out[i], out[j]) {
        assert StrLe(xs[at[i]], xs[at[j]]);
      }
    }
  }

  // The assembly loop: runs and findings in task order, and the tools that ran.
  method Assemble(slots: seq<seq<RunOutcome>>)
    returns (runs: seq<RunOutcome>, findings: seq<Finding>, adaptersRan: seq<string>)
    ensures runs == Joined(slots, |slots|)
    ensures findings == FindingsOfRuns(runs, |runs|)
    ensures Ascending(adaptersRan)
    ensures forall t :: t in adaptersRan <==>
      exists i | 0 <= i < |runs| :: runs[i].tool == t != "" && runs[i].status != NotInstalled && runs[i].status != Skipped
  {
    runs, findings, adaptersRan := [], [], [];
    for i := 0 to |slots|
      invariant runs == Joined(slots, i)
      invariant findings == FindingsOfRuns(runs, |runs|)
      invariant forall t :: t in adaptersRan <==> ToolRan(runs, |runs|, t)
    {
      ghost var before := runs;
      for k := 0 to |slots[i]|
        invariant runs == before + slots[i][..k]
        invariant findings == FindingsOfRuns(runs, |runs|)
        invariant forall t :: t in adaptersRan <==> ToolRan(runs, |runs|, t)
      {
        var o := slots[i][k];
        AppendRun(runs, o);
        runs := runs + [o];
        if o.tool != "" && o.status != NotInstalled && o.status != Skipped {
          adaptersRan := adaptersRan + [o.tool];
        }
        findings := findings + o.findings;
      }
    }
    SortStringsMembers(adaptersRan);
    adaptersRan := SortStrings(adaptersRan);
    adaptersRan := DedupeStrings(adaptersRan);
  }

  lemma {:induction false} AppendRun(runs: seq<RunOutcome>, o: RunOutcome)
    ensures FindingsOfRuns(runs + [o], |runs| + 1) == FindingsOfRuns(runs, |runs|) + o.findings
    ensures forall t :: ToolRan(runs + [o], |runs| + 1, t) <==> ToolRan(runs, |runs|, t) || (Ran(o) && o.tool == t)
  {
    FindingsOfPrefix(runs, o, |runs|);
    var longer := runs + [o];
    forall t ensures ToolRan(longer, |longer|, t) <==> ToolRan(runs, |runs|, t) || (Ran(o) && o.tool == t) {
      if ToolRan(runs, |runs|, t) {
        var i :| 0 <= i < |runs| && Ran(runs[i]) && runs[i].tool == t;
        assert longer[i] == runs[i];
      }
      assert longer[|runs|] == o;
    }
  }

  lemma {:induction false} FindingsOfPrefix(runs: seq<RunOutcome>, o: RunOutcome, n: nat)
    requires n <= |runs|
    ensures FindingsOfRuns(runs + [o], n) == FindingsOfRuns(runs, n)
    decreases n
  {
    if n > 0 { FindingsOfPrefix(runs, o, n - 1); }
  }

  // ---- A required tool that never reports ----

  // Correlation leaves every run's tool, command and status alone.
  lemma {:induction false} CorrelationKeepsRuns(env: Env, runs: seq<RunOutcome>, findings: seq<Finding>,
                                                updated: seq<RunOutcome>)
    requires IsCorrelation(env, runs, findings, updated)
    ensures |updated| == |runs|
    ensures forall i | 0 <= i < |runs| :: updated[i] == runs[i].(findings := updated[i].findings)
  {
    var deduped := DeduplicatedRuns(env, runs);
    assert C.SameShape(deduped, updated);
    forall i | 0 <= i < |runs| ensures updated[i] == runs[i].(findings := updated[i].findings) {
      assert deduped[i] == runs[i].(findings := deduped[i].findings);
    }
  }

  ghost predicate NeverReports(job: Job<seq<RunOutcome>>, k: nat, tool: string) {
    forall e, o | job.may(k, false, e) && e.Returns? && o in e.value :: o.tool != tool
  }

  // A required tool none of whose runs completed, or without a run.
  lemma {:induction false} UncompletedIsIncomplete(sort: Sorter, cfg: Config, rep: ReportValue, tool: string)
    requires tool in cfg.required
    requires forall r | r in rep.runs && r.tool == tool :: r.status != OK && r.status != FindingsPresent
    ensures VerdictOf(sort, cfg, rep).outcome == Incomplete
  {
    LastRunIsGreatest(sort, rep, tool);
    assert !Satisfied(sort, rep, tool);
    IncompleteExactly(sort, cfg, rep);
  }

  // If the one task that would report a required tool can only panic, then in every interleaving of
  // an uncancelled scan the verdict is incomplete: a crash is filed under the task's name, which may be
  // the tool's own, and no other run is found under the tool's name.
  lemma {:induction false} PanicIsNeverAPass(env: Env, cfg: Config, names: seq<string>, maxConcurrency: int,
                          may: (nat, bool, Ending<seq<RunOutcome>>) -> bool, run: seq<State<seq<RunOutcome>>>,
                          findings: seq<Finding>, rep: ReportValue, tool: string, i: nat)
    requires IsRun(JobOf(names, maxConcurrency, may), run) && run[|run| - 1].returned && !run[|run| - 1].cancelled
    requires tool in cfg.required && i < |names|
    requires forall e | may(i, false, e) :: e.Panics?
    requires forall k | 0 <= k < |names| && k != i :: NeverReports(JobOf(names, maxConcurrency, may), k, tool)
    requires var slots := run[|run| - 1].slots; IsCorrelation(env, Joined(slots, |slots|), findings, rep.runs)
    ensures VerdictOf(env.sort, cfg, rep).outcome == Incomplete
  {
    var job, s := JobOf(names, maxConcurrency, may), run[|run| - 1];
    RunHolds(job, run);
    var joined := Joined(s.slots, |s.slots|);
    CorrelationKeepsRuns(env, joined, findings, rep.runs);
    forall r | r in rep.runs && r.tool == tool ensures r.status == Crashed {
      var k :| 0 <= k < |rep.runs| && rep.runs[k] == r;
      var o := joined[k];
      JoinedExactly(s.slots, |s.slots|, o);
      var slot :| 0 <= slot < |s.slots| && o in s.slots[slot];
      assert r == o.(findings := r.findings);
      SlotCrashed(names, maxConcurrency, may, s, slot, tool, o, i);
    }
    UncompletedIsIncomplete(env.sort, cfg, rep, tool);
  }

  lemma {:induction false} SlotCrashed(names: seq<string>, maxConcurrency: int,
                                       may: (nat, bool, Ending<seq<RunOutcome>>) -> bool, s: State<seq<RunOutcome>>,
                                       slot: nat, tool: string, o: RunOutcome, i: nat)
    requires Inv(JobOf(names, maxConcurrency, may), s) && s.returned && !s.cancelled && slot < |names|
    requires slot == i ==> forall e | may(i, false, e) :: e.Panics?
    requires slot != i ==> NeverReports(JobOf(names, maxConcurrency, may), slot, tool)
    requires o in s.slots[slot] && o.tool == tool
    ensures o.status == Crashed
  {
    var job := JobOf(names, maxConcurrency, may);
    ReturnIsComplete(job, s, slot);
    var e :| Genuine(job, s.cancelled, slot, e) && s.slots[slot] == Settle(job, slot, e);
    if e.Panics? { assert o == AdapterPanicked(names[slot], e.what); }
  }

  // ---- A required set derived from the runs ----

  ghost predicate Reported(runs: seq<RunOutcome>, n: nat, t: string)
    requires n <= |runs|
  {
    exists i | 0 <= i < n :: runs[i].tool == t
  }

  // The non-empty tools of the runs.
  ghost predicate Derived(required: seq<string>, runs: seq<RunOutcome>) {
    forall t :: t in required <==> t != "" && Reported(runs, |runs|, t)
  }

  // An engine of its own, with adapters and no declared requirement, requires the tools that reported;
  // any other requires what was declared.
  method DeriveRequired(isDefault: bool, adapters: nat, declared: seq<string>, runs: seq<RunOutcome>)
    returns (required: seq<string>)
    ensures !isDefault && adapters > 0 && declared == [] ==> Derived(required, runs) && DistinctStrings(required)
    ensures isDefault || adapters == 0 || declared != [] ==> required == declared
  {
    required := declared;
    if !isDefault && adapters > 0 && |declared| == 0 {
      var reqs: seq<string> := [];
      for n := 0 to |runs|
        invariant forall t :: t in reqs <==> t != "" && Reported(runs, n, t)
      {
        if runs[n].tool != "" {
          reqs := reqs + [runs[n].tool];
        }
      }
      if |reqs| > 0 {
        required := DedupeStrings(reqs);
      } else {
        assert forall t :: t !in reqs;
      }
    }
  }

  // What the derived requirement and a requirement of the adapters asked for have in common, and what
  // each has alone.
  ghost predicate FailsBoth(sort: Sorter, rep: ReportValue, derived: seq<string>, asked: seq<string>) {
    exists t | t in derived && t in asked :: !Satisfied(sort, rep, t)
  }

  ghost predicate FailsUnasked(sort: Sorter, rep: ReportValue, derived: seq<string>, asked: seq<string>) {
    exists t | t in derived && t !in asked :: !Satisfied(sort, rep, t)
  }

  ghost predicate AskedInVain(derived: seq<string>, asked: seq<string>) {
    exists t | t in asked :: t !in derived
  }

  lemma {:induction false} UnreportedIsUnsatisfied(sort: Sorter, rep: ReportValue, t: string)
    requires !Reported(rep.runs, |rep.runs|, t)
    ensures !Satisfied(sort, rep, t)
  {
    LastRunIsGreatest(sort, rep, t);
  }

  // Requiring what reported and requiring what was asked for agree on incompleteness exactly when a tool
  // both asked for and reported fails, or a reported tool not asked for fails just when some tool asked
  // for never reported.
  lemma {:induction false} DerivedAgreesExactly(sort: Sorter, cfg: Config, rep: ReportValue,
                                                derived: seq<string>, asked: seq<string>)
    requires Derived(derived, rep.runs) && "" !in asked
    ensures (VerdictOf(sort, cfg.(required := derived), rep).outcome == Incomplete
             <==> VerdictOf(sort, cfg.(required := asked), rep).outcome == Incomplete)
       <==> FailsBoth(sort, rep, derived, asked)
            || (FailsUnasked(sort, rep, derived, asked) <==> AskedInVain(derived, asked))
  {
    IncompleteExactly(sort, cfg.(required := derived), rep);
    IncompleteExactly(sort, cfg.(required := asked), rep);
    forall t | t in asked && t !in derived ensures !Satisfied(sort, rep, t) {
      UnreportedIsUnsatisfied(sort, rep, t);
    }
    SplitFailures(sort, rep, derived, asked);
  }

  ghost predicate Fails(sort: Sorter, rep: ReportValue, names: seq<string>) {
    exists t | t in names :: !Satisfied(sort, rep, t)
  }

  lemma {:induction false} SplitFailures(sort: Sorter, rep: ReportValue, derived: seq<string>, asked: seq<string>)
    requires forall t | t in asked && t !in derived :: !Satisfied(sort, rep, t)
    ensures Fails(sort, rep, derived) <==>
      FailsBoth(sort, rep, derived, asked) || FailsUnasked(sort, rep, derived, asked)
    ensures Fails(sort, rep, asked) <==> FailsBoth(sort, rep, derived, asked) || AskedInVain(derived, asked)
  {
    if t :| t in derived && !Satisfied(sort, rep, t) {
      assert if t in asked then FailsBoth(sort, rep, derived, asked) else FailsUnasked(sort, rep, derived, asked);
    }
    if t :| t in asked && !Satisfied(sort, rep, t) {
      assert if t in derived then FailsBoth(sort, rep, derived, asked) else AskedInVain(derived, asked);
    }
  }

  // Where only adapters asked for report: exactly when a reported tool fails or every one asked for reported.
  lemma {:induction false} AskedAndReportedExactly(sort: Sorter, cfg: Config, rep: ReportValue,
                                                   derived: seq<string>, asked: seq<string>)
    requires Derived(derived, rep.runs) && "" !in asked && forall t | t in derived :: t in asked
    ensures (VerdictOf(sort, cfg.(required := derived), rep).outcome == Incomplete
             <==> VerdictOf(sort, cfg.(required := asked), rep).outcome == Incomplete)
       <==> (exists t | t in derived :: !Satisfied(sort, rep, t))
            || (forall t | t in asked :: Reported(rep.runs, |rep.runs|, t))
  {
    DerivedAgreesExactly(sort, cfg, rep, derived, asked);
  }

  // An adapter was asked for and reported nothing: nothing is required, and the report is cleared,
  // where requiring the adapter would have left it incomplete.
  lemma {:induction false} SilentAdapterIsCleared(sort: Sorter, cfg: Config, adapter: string)
    requires cfg.allowDirty && cfg.required == [] && adapter != ""
    ensures var rep := ReportValue(false, Incomplete, NoReason, Joined([[]], 1), [], UncoveredChecks([], [], [], []), [], "", "");
            && Derived([], rep.runs)
            && VerdictOf(sort, cfg, rep).outcome == Cleared
            && VerdictOf(sort, cfg.(required := [adapter]), rep).outcome == Incomplete
  {
    assert Joined([[]], 1) == Joined([[]], 0) + [] == [];
    var rep := ReportValue(false, Incomplete, NoReason, [], [], UncoveredChecks([], [], [], []), [], "", "");
    assert OrderedRuns(sort, rep) == [] && OrderedFindings(sort, rep) == [];
    OutcomeExactly(sort, cfg, rep);
    assert !AnyBlocks(sort, cfg, rep) && !AnyAccepted(sort, cfg, rep);
    UncompletedIsIncomplete(sort, cfg.(required := [adapter]), rep, adapter);
  }
}
