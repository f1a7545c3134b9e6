// A report's runs, its findings and each run's own findings in any other order: exactly when the
// decision does not depend on it.
module PolicyShuffle {
  import opened Options
  import opened Text
  import opened Sorting
  import opened Evidence
  import opened Policy
  import opened PolicyOutcome
  import opened PolicyOrder

  // ---- Reports that differ in order alone ----

  // The same run with its findings in another order.
  ghost predicate ListShuffled(r: RunOutcome, s: RunOutcome) {
    exists p | IsPermutation(p, |r.findings|) :: s == r.(findings := Permute(p, r.findings))
  }

  ghost predicate RunsShuffled(p: seq<nat>, runs: seq<RunOutcome>, runs': seq<RunOutcome>) {
    && IsPermutation(p, |runs|) && |runs'| == |runs|
    && forall i | 0 <= i < |runs| :: ListShuffled(runs[p[i]], runs'[i])
  }

  ghost predicate Shuffled(rep: ReportValue, rep': ReportValue) {
    && (exists p :: RunsShuffled(p, rep.runs, rep'.runs))
    && (exists q | IsPermutation(q, |rep.findings|) :: rep' == rep.(runs := rep'.runs, findings := Permute(q, rep.findings)))
  }

  // A run and the same run with its findings in another order, or listed more than once.
  ghost predicate Alike(r: RunOutcome, s: RunOutcome) {
    s == r.(findings := s.findings) && forall f :: f in r.findings <==> f in s.findings
  }

  ghost predicate HasAlike(runs: seq<RunOutcome>, r: RunOutcome) {
    exists s | s in runs :: Alike(s, r)
  }

  // What two such reports have in common.
  ghost predicate SameParts(rep: ReportValue, rep': ReportValue) {
    && rep' == rep.(runs := rep'.runs, findings := rep'.findings)
    && (forall f :: f in rep.findings <==> f in rep'.findings)
    && (forall r {:trigger HasAlike(rep'.runs, r)} | r in rep.runs :: HasAlike(rep'.runs, r))
    && (forall r {:trigger HasAlike(rep.runs, r)} | r in rep'.runs :: HasAlike(rep.runs, r))
  }

  lemma {:induction false} ShuffledListIsAlike(r: RunOutcome, s: RunOutcome)
    requires ListShuffled(r, s)
    ensures Alike(r, s) && Alike(s, r)
  {
    var p :| IsPermutation(p, |r.findings|) && s == r.(findings := Permute(p, r.findings));
    PermuteMembers(p, r.findings);
  }

  lemma {:induction false} ShuffledRunsAreAlike(p: seq<nat>, runs: seq<RunOutcome>, runs': seq<RunOutcome>)
    requires RunsShuffled(p, runs, runs')
    ensures forall r | r in runs :: HasAlike(runs', r)
    ensures forall r | r in runs' :: HasAlike(runs, r)
  {
    forall r | r in runs' ensures HasAlike(runs, r) {
      var i :| 0 <= i < |runs'| && runs'[i] == r;
      ShuffledListIsAlike(runs[p[i]], r);
      assert runs[p[i]] in runs;
    }
    forall r | r in runs ensures HasAlike(runs', r) {
      var k: nat :| k < |runs| && runs[k] == r;
      assert k in p;
      var i :| 0 <= i < |p| && p[i] == k;
      ShuffledListIsAlike(r, runs'[i]);
      assert runs'[i] in runs';
    }
  }

  lemma {:induction false} ShuffledSameParts(rep: ReportValue, rep': ReportValue)
    requires Shuffled(rep, rep')
    ensures SameParts(rep, rep') && SameParts(rep', rep)
  {
    var p :| RunsShuffled(p, rep.runs, rep'.runs);
    ShuffledRunsAreAlike(p, rep.runs, rep'.runs);
    var q :| IsPermutation(q, |rep.findings|) && rep' == rep.(runs := rep'.runs, findings := Permute(q, rep.findings));
    PermuteMembers(q, rep.findings);
  }

  lemma {:induction false} ListUnchanged(r: RunOutcome)
    ensures ListShuffled(r, r)
  {
    IdentityPermutes(r.findings);
    assert r == r.(findings := Permute(Identity(|r.findings|), r.findings));
  }

  lemma {:induction false} RunsInOrder(rep: ReportValue, p: seq<nat>)
    requires IsPermutation(p, |rep.runs|)
    ensures Shuffled(rep, rep.(runs := Permute(p, rep.runs)))
  {
    var runs' := Permute(p, rep.runs);
    forall i | 0 <= i < |rep.runs| ensures ListShuffled(rep.runs[p[i]], runs'[i]) {
      ListUnchanged(rep.runs[p[i]]);
    }
    assert RunsShuffled(p, rep.runs, runs');
    IdentityPermutes(rep.findings);
  }

  lemma {:induction false} Unshuffled(rep: ReportValue)
    ensures Shuffled(rep, rep)
  {
    IdentityPermutes(rep.runs);
    RunsInOrder(rep, Identity(|rep.runs|));
  }

  // ---- Which run of a tool can count ----

  predicate Completed(r: RunOutcome) { r.status == OK || r.status == FindingsPresent }

  // A run of the tool with the greatest of its commands.
  ghost predicate Greatest(rep: ReportValue, r: RunOutcome, tool: string) {
    r in rep.runs && r.tool == tool && forall s | s in rep.runs && s.tool == tool :: StrLe(s.command, r.command)
  }

  // Unavailable, or without a run, or with no completed run of its greatest command.
  ghost predicate AlwaysFails(rep: ReportValue, name: string) {
    ReportedUnavailable(rep, name) || forall r | Greatest(rep, r, name) :: !Completed(r)
  }

  // Runs of the greatest command completed all or none.
  ghost predicate GreatestAgree(rep: ReportValue, name: string) {
    forall r, s | Greatest(rep, r, name) && Greatest(rep, s, name) :: Completed(r) == Completed(s)
  }

  // The run that counts is a greatest one.
  lemma {:induction false} CompletedByGreatest(sort: Sorter, rep: ReportValue, name: string)
    ensures RanToCompletion(sort, rep, name) ==> exists r | Greatest(rep, r, name) :: Completed(r)
    ensures RanToCompletion(sort, rep, name) || (forall r | r in rep.runs :: r.tool != name)
            || exists r | Greatest(rep, r, name) :: !Completed(r)
  {
    LastRunIsGreatest(sort, rep, name);
    var runs := OrderedRuns(sort, rep);
    var last := LastRun(runs, |runs|, name);
    if last.Some? { assert Greatest(rep, last.value, name); }
  }

  // When the greatest runs agree they decide in every order.
  lemma {:induction false} SatisfiedWhenAgreed(sort: Sorter, rep: ReportValue, name: string)
    requires GreatestAgree(rep, name)
    ensures Satisfied(sort, rep, name) <==> !AlwaysFails(rep, name)
  {
    CompletedByGreatest(sort, rep, name);
  }

  lemma {:induction false} GreatestCarried(rep: ReportValue, rep': ReportValue, r: RunOutcome, name: string)
    returns (s: RunOutcome)
    requires SameParts(rep, rep') && Greatest(rep, r, name)
    ensures Greatest(rep', s, name) && Completed(s) == Completed(r)
  {
    assert HasAlike(rep'.runs, r);
    s :| s in rep'.runs && Alike(s, r);
    forall t | t in rep'.runs && t.tool == name ensures StrLe(t.command, s.command) {
      assert HasAlike(rep.runs, t);
      var u :| u in rep.runs && Alike(u, t);
      assert StrLe(u.command, r.command);
    }
  }

  lemma {:induction false} ReportedCarried(rep: ReportValue, rep': ReportValue, name: string)
    requires SameParts(rep, rep') && ReportedUnavailable(rep, name)
    ensures ReportedUnavailable(rep', name)
  {
    if r :| r in rep.runs && r.tool == name && (r.status == NotInstalled || r.status == Unavailable) {
      assert HasAlike(rep'.runs, r);
      var s :| s in rep'.runs && Alike(s, r);
    }
  }

  lemma {:induction false} FailureCarried(rep: ReportValue, rep': ReportValue, name: string)
    requires SameParts(rep, rep') && SameParts(rep', rep) && AlwaysFails(rep, name)
    ensures AlwaysFails(rep', name)
  {
    if ReportedUnavailable(rep, name) {
      ReportedCarried(rep, rep', name);
    } else {
      forall r | Greatest(rep', r, name) ensures !Completed(r) {
        var s := GreatestCarried(rep', rep, r, name);
      }
    }
  }

  lemma {:induction false} AgreementCarried(rep: ReportValue, rep': ReportValue, name: string)
    requires SameParts(rep', rep) && GreatestAgree(rep, name)
    ensures GreatestAgree(rep', name)
  {
    forall r, s | Greatest(rep', r, name) && Greatest(rep', s, name) ensures Completed(r) == Completed(s) {
      var t := GreatestCarried(rep', rep, r, name);
      var u := GreatestCarried(rep', rep, s, name);
    }
  }

  // ---- Every choice of runs has an order ----

  // A rearrangement among equal keys is sorted by the same permutation.
  lemma {:induction false} SortedAlike(sort: Sorter, runs: seq<RunOutcome>, runs': seq<RunOutcome>)
    requires |runs| == |runs'| && forall i | 0 <= i < |runs| :: RunKey(runs'[i]) == RunKey(runs[i])
    ensures SortBy(sort, RunKey, runs') == Permute(sort(Map(RunKey, runs)), runs')
  {
    assert Map(RunKey, runs') == Map(RunKey, runs);
  }

  ghost predicate HasRun(runs: seq<RunOutcome>, n: nat, tool: string)
    requires n <= |runs|
  {
    exists i :: 0 <= i < n && runs[i].tool == tool
  }

  // The place of a tool's last run.
  ghost function LastPlace(runs: seq<RunOutcome>, n: nat, tool: string): (x: nat)
    requires n <= |runs| && HasRun(runs, n, tool)
    ensures x < n && runs[x].tool == tool && LastRun(runs, n, tool) == Some(runs[x])
    ensures forall y | x < y < n :: runs[y].tool != tool
  {
    if runs[n - 1].tool == tool then n - 1 else LastPlace(runs, n - 1, tool)
  }

  lemma {:induction false} LastRunAt(runs: seq<RunOutcome>, x: nat, n: nat, tool: string)
    requires x < n <= |runs| && runs[x].tool == tool && forall y | x < y < n :: runs[y].tool != tool
    ensures LastRun(runs, n, tool) == Some(runs[x])
    decreases n
  {
    if x < n - 1 { LastRunAt(runs, x, n - 1, tool); }
  }

  lemma {:induction false} SortedHasRun(sort: Sorter, rep: ReportValue, tool: string)
    requires HasRun(rep.runs, |rep.runs|, tool)
    ensures HasRun(OrderedRuns(sort, rep), |rep.runs|, tool)
  {
    var runs := OrderedRuns(sort, rep);
    var i :| 0 <= i < |rep.runs| && rep.runs[i].tool == tool;
    assert rep.runs[i] in runs;
    var x :| 0 <= x < |runs| && runs[x] == rep.runs[i];
  }

  // Where, in the report, the run of a tool that counts stands.
  ghost function Deciding(sort: Sorter, rep: ReportValue, tool: string): (d: nat)
    requires HasRun(rep.runs, |rep.runs|, tool)
    ensures d < |rep.runs| && Greatest(rep, rep.runs[d], tool)
  {
    SortedHasRun(sort, rep, tool);
    LastRunIsGreatest(sort, rep, tool);
    var runs := OrderedRuns(sort, rep);
    var x := LastPlace(runs, |runs|, tool);
    assert runs[x] == rep.runs[sort(Map(RunKey, rep.runs))[x]];
    sort(Map(RunKey, rep.runs))[x]
  }

  // A place among the greatest runs of every tool that has a run.
  ghost predicate IsChoice(rep: ReportValue, c: string -> nat) {
    forall t | HasRun(rep.runs, |rep.runs|, t) :: c(t) < |rep.runs| && Greatest(rep, rep.runs[c(t)], t)
  }

  function SwapAt(a: nat, b: nat, i: nat): nat { if i == a then b else if i == b then a else i }

  lemma {:induction false} ToolHasRun(runs: seq<RunOutcome>, i: nat)
    requires i < |runs|
    ensures HasRun(runs, |runs|, runs[i].tool)
  {
  }

  ghost function ChosenPlace(sort: Sorter, rep: ReportValue, c: string -> nat, i: nat): nat
    requires IsChoice(rep, c) && i < |rep.runs|
  {
    ToolHasRun(rep.runs, i);
    SwapAt(Deciding(sort, rep, rep.runs[i].tool), c(rep.runs[i].tool), i)
  }

  // Of each tool, the run that counts and the chosen one change places.
  ghost function Choosing(sort: Sorter, rep: ReportValue, c: string -> nat): seq<nat>
    requires IsChoice(rep, c)
  {
    seq(|rep.runs|, i requires 0 <= i < |rep.runs| => ChosenPlace(sort, rep, c, i))
  }

  lemma {:induction false} GreatestShareKey(rep: ReportValue, r: RunOutcome, s: RunOutcome, tool: string)
    requires Greatest(rep, r, tool) && Greatest(rep, s, tool)
    ensures RunKey(r) == RunKey(s)
  {
    StrLeTotal(r.command, s.command);
  }

  lemma {:induction false} ChoosingAt(sort: Sorter, rep: ReportValue, c: string -> nat, i: nat)
    requires IsChoice(rep, c) && i < |rep.runs|
    ensures var p := Choosing(sort, rep, c);
            && p[i] < |rep.runs| && RunKey(rep.runs[p[i]]) == RunKey(rep.runs[i])
            && HasRun(rep.runs, |rep.runs|, rep.runs[i].tool)
            && p[i] == SwapAt(Deciding(sort, rep, rep.runs[i].tool), c(rep.runs[i].tool), i)
  {
    var t := rep.runs[i].tool;
    ToolHasRun(rep.runs, i);
    GreatestShareKey(rep, rep.runs[Deciding(sort, rep, t)], rep.runs[c(t)], t);
  }

  lemma {:induction false} ChoosingPermutes(sort: Sorter, rep: ReportValue, c: string -> nat)
    requires IsChoice(rep, c)
    ensures var p := Choosing(sort, rep, c);
            && IsPermutation(p, |rep.runs|)
            && forall i | 0 <= i < |rep.runs| :: RunKey(rep.runs[p[i]]) == RunKey(rep.runs[i])
  {
    var p := Choosing(sort, rep, c);
    forall i | 0 <= i < |p| ensures p[i] < |p| && RunKey(rep.runs[p[i]]) == RunKey(rep.runs[i]) && p[p[i]] == i {
      ChoosingAt(sort, rep, c, i);
      ChoosingAt(sort, rep, c, p[i]);
    }
    InvolutionPermutes(p);
  }

  // Runs of equal keys change places in the sorted list as they do in the report.
  lemma {:induction false} SortedPlaces(sort: Sorter, rep: ReportValue, p: seq<nat>, x: nat)
    requires IsPermutation(p, |rep.runs|) && x < |rep.runs|
    requires forall i | 0 <= i < |rep.runs| :: RunKey(rep.runs[p[i]]) == RunKey(rep.runs[i])
    ensures var o, now := sort(Map(RunKey, rep.runs)), OrderedRuns(sort, rep.(runs := Permute(p, rep.runs)));
            && |now| == |o| == |rep.runs| && o[x] < |rep.runs| && now[x] == rep.runs[p[o[x]]]
            && OrderedRuns(sort, rep)[x] == rep.runs[o[x]] && now[x].tool == OrderedRuns(sort, rep)[x].tool
  {
    var o, runs := sort(Map(RunKey, rep.runs)), Permute(p, rep.runs);
    assert Arranges(Map(RunKey, rep.runs), o);
    SortedAlike(sort, rep.runs, runs);
    assert OrderedRuns(sort, rep.(runs := runs)) == Permute(o, runs);
    assert RunKey(rep.runs[p[o[x]]]) == RunKey(rep.runs[o[x]]);
  }

  lemma {:induction false} DecidingPlace(sort: Sorter, rep: ReportValue, tool: string) returns (x: nat)
    requires HasRun(rep.runs, |rep.runs|, tool)
    ensures var o, was := sort(Map(RunKey, rep.runs)), OrderedRuns(sort, rep);
            && x < |was| == |o| && o[x] == Deciding(sort, rep, tool)
            && forall y | x < y < |was| :: was[y].tool != tool
  {
    SortedHasRun(sort, rep, tool);
    x := LastPlace(OrderedRuns(sort, rep), |rep.runs|, tool);
  }

  // In the order so made the chosen runs are the ones that count.
  lemma {:induction false} ChosenCounts(sort: Sorter, rep: ReportValue, c: string -> nat, tool: string)
    requires IsChoice(rep, c) && HasRun(rep.runs, |rep.runs|, tool)
    ensures var p := Choosing(sort, rep, c);
            && IsPermutation(p, |rep.runs|)
            && var runs := OrderedRuns(sort, rep.(runs := Permute(p, rep.runs)));
               LastRun(runs, |runs|, tool) == Some(rep.runs[c(tool)])
  {
    var p := Choosing(sort, rep, c);
    ChoosingPermutes(sort, rep, c);
    var now := OrderedRuns(sort, rep.(runs := Permute(p, rep.runs)));
    var x := DecidingPlace(sort, rep, tool);
    ChoosingAt(sort, rep, c, Deciding(sort, rep, tool));
    SortedPlaces(sort, rep, p, x);
    forall y | x < y < |now| ensures now[y].tool != tool {
      SortedPlaces(sort, rep, p, y);
    }
    LastRunAt(now, x, |now|, tool);
  }

  // ---- Incomplete in every order, or in none ----

  ghost predicate GreatestAt(rep: ReportValue, d: nat, tool: string, completed: bool) {
    d < |rep.runs| && Greatest(rep, rep.runs[d], tool) && Completed(rep.runs[d]) == completed
  }

  // A greatest run of the tool, completed or not as wished if there is one.
  ghost function PlaceOf(sort: Sorter, rep: ReportValue, tool: string, wish: bool): (d: nat)
    ensures HasRun(rep.runs, |rep.runs|, tool) ==> d < |rep.runs| && Greatest(rep, rep.runs[d], tool)
    ensures (exists e :: GreatestAt(rep, e, tool, wish)) ==> GreatestAt(rep, d, tool, wish)
  {
    if exists e :: GreatestAt(rep, e, tool, wish) then
      var e: nat :| GreatestAt(rep, e, tool, wish);
      e
    else if HasRun(rep.runs, |rep.runs|, tool) then Deciding(sort, rep, tool)
    else 0
  }

  ghost function Places(sort: Sorter, rep: ReportValue, wish: bool): (c: string -> nat)
    ensures IsChoice(rep, c)
  {
    var c := t => PlaceOf(sort, rep, t, wish);
    assert forall t :: c(t) == PlaceOf(sort, rep, t, wish);
    c
  }

  // The report with its runs so ordered that each tool's run that counts is as wished.
  ghost function Wished(sort: Sorter, rep: ReportValue, wish: bool): (rep': ReportValue)
    ensures Shuffled(rep, rep') && rep'.findings == rep.findings
  {
    var p := Choosing(sort, rep, Places(sort, rep, wish));
    ChoosingPermutes(sort, rep, Places(sort, rep, wish));
    RunsInOrder(rep, p);
    rep.(runs := Permute(p, rep.runs))
  }

  lemma {:induction false} WishGranted(sort: Sorter, rep: ReportValue, wish: bool, r: RunOutcome, name: string)
    requires Greatest(rep, r, name) && Completed(r) == wish
    ensures RanToCompletion(sort, Wished(sort, rep, wish), name) <==> wish
  {
    var i: nat :| i < |rep.runs| && rep.runs[i] == r;
    assert GreatestAt(rep, i, name, wish);
    ToolHasRun(rep.runs, i);
    ChosenCounts(sort, rep, Places(sort, rep, wish), name);
  }

  lemma {:induction false} CompletionCarried(sort: Sorter, rep: ReportValue, rep': ReportValue, name: string)
    requires SameParts(rep, rep') && GreatestAgree(rep', name) && RanToCompletion(sort, rep, name)
    ensures RanToCompletion(sort, rep', name)
  {
    CompletedByGreatest(sort, rep, name);
    CompletedByGreatest(sort, rep', name);
    var r :| Greatest(rep, r, name) && Completed(r);
    var s := GreatestCarried(rep, rep', r, name);
  }

  // One answer, in every order, to whether a tool completed exactly when its greatest runs agree.
  lemma {:induction false} CompletionOrderFreeExactly(sort: Sorter, rep: ReportValue, name: string)
    ensures (forall rep' | Shuffled(rep, rep') :: RanToCompletion(sort, rep', name) == RanToCompletion(sort, rep, name))
       <==> GreatestAgree(rep, name)
  {
    if GreatestAgree(rep, name) {
      forall rep' | Shuffled(rep, rep') ensures RanToCompletion(sort, rep', name) == RanToCompletion(sort, rep, name) {
        ShuffledSameParts(rep, rep');
        AgreementCarried(rep, rep', name);
        if RanToCompletion(sort, rep, name) { CompletionCarried(sort, rep, rep', name); }
        if RanToCompletion(sort, rep', name) { CompletionCarried(sort, rep', rep, name); }
      }
    } else {
      var r, s :| Greatest(rep, r, name) && Greatest(rep, s, name) && Completed(r) && !Completed(s);
      WishGranted(sort, rep, true, r, name);
      WishGranted(sort, rep, false, s, name);
      assert Shuffled(rep, Wished(sort, rep, true)) && Shuffled(rep, Wished(sort, rep, false));
    }
  }

  ghost predicate SomeAlwaysFails(cfg: Config, rep: ReportValue) {
    exists name | name in cfg.required :: AlwaysFails(rep, name)
  }

  ghost predicate AllAgree(cfg: Config, rep: ReportValue) {
    forall name | name in cfg.required :: GreatestAgree(rep, name)
  }

  // If every required name has a completed greatest run, some order leaves nothing incomplete.
  lemma {:induction false} CompleteInSomeOrder(sort: Sorter, cfg: Config, rep: ReportValue) returns (rep': ReportValue)
    requires !SomeAlwaysFails(cfg, rep)
    ensures Shuffled(rep, rep') && AllSatisfied(sort, cfg, rep')
  {
    rep' := Wished(sort, rep, true);
    ShuffledSameParts(rep, rep');
    forall name | name in cfg.required ensures Satisfied(sort, rep', name) {
      assert !AlwaysFails(rep, name);
      var r :| Greatest(rep, r, name) && Completed(r);
      WishGranted(sort, rep, true, r, name);
      if ReportedUnavailable(rep', name) { ReportedCarried(rep', rep, name); }
    }
  }

  // If a required name's greatest runs disagree, some order leaves it unsatisfied.
  lemma {:induction false} IncompleteInSomeOrder(sort: Sorter, cfg: Config, rep: ReportValue) returns (rep': ReportValue)
    requires !AllAgree(cfg, rep)
    ensures Shuffled(rep, rep') && !AllSatisfied(sort, cfg, rep')
  {
    var name :| name in cfg.required && !GreatestAgree(rep, name);
    var r :| Greatest(rep, r, name) && !Completed(r);
    rep' := Wished(sort, rep, false);
    WishGranted(sort, rep, false, r, name);
    assert !Satisfied(sort, rep', name);
  }

  // What every order has in common: whether a required name fails whatever the order, and whether the
  // greatest runs of all of them agree.
  lemma {:induction false} RequirementsCarried(cfg: Config, rep: ReportValue, rep': ReportValue)
    requires SameParts(rep, rep') && SameParts(rep', rep)
    ensures SomeAlwaysFails(cfg, rep) ==> SomeAlwaysFails(cfg, rep')
    ensures AllAgree(cfg, rep) ==> AllAgree(cfg, rep')
  {
    if name :| name in cfg.required && AlwaysFails(rep, name) { FailureCarried(rep, rep', name); }
    if AllAgree(cfg, rep) {
      forall name | name in cfg.required ensures GreatestAgree(rep', name) {
        AgreementCarried(rep, rep', name);
      }
    }
  }

  lemma {:induction false} FailsInEveryOrder(sort: Sorter, cfg: Config, rep: ReportValue, rep': ReportValue)
    requires Shuffled(rep, rep') && SomeAlwaysFails(cfg, rep)
    ensures !AllSatisfied(sort, cfg, rep')
  {
    ShuffledSameParts(rep, rep');
    RequirementsCarried(cfg, rep, rep');
    var name :| name in cfg.required && AlwaysFails(rep', name);
    CompletedByGreatest(sort, rep', name);
  }

  lemma {:induction false} HoldsInEveryOrder(sort: Sorter, cfg: Config, rep: ReportValue, rep': ReportValue)
    requires Shuffled(rep, rep') && !SomeAlwaysFails(cfg, rep) && AllAgree(cfg, rep)
    ensures AllSatisfied(sort, cfg, rep')
  {
    ShuffledSameParts(rep, rep');
    RequirementsCarried(cfg, rep', rep);
    RequirementsCarried(cfg, rep, rep');
    forall name | name in cfg.required ensures Satisfied(sort, rep', name) {
      SatisfiedWhenAgreed(sort, rep', name);
    }
  }

  ghost predicate IncompleteOrderFree(sort: Sorter, cfg: Config, rep: ReportValue) {
    forall rep' | Shuffled(rep, rep') :: AllSatisfied(sort, cfg, rep') == AllSatisfied(sort, cfg, rep)
  }

  // One answer to whether the verdict is incomplete, in every order, exactly when some required name
  // fails whichever of its greatest runs counts, or those of no required name disagree.
  lemma {:induction false} IncompleteOrderFreeExactly(sort: Sorter, cfg: Config, rep: ReportValue)
    ensures (forall rep' | Shuffled(rep, rep') ::
              (VerdictOf(sort, cfg, rep').outcome == Incomplete) == (VerdictOf(sort, cfg, rep).outcome == Incomplete))
       <==> SomeAlwaysFails(cfg, rep) || AllAgree(cfg, rep)
  {
    forall r ensures VerdictOf(sort, cfg, r).outcome == Incomplete <==> !AllSatisfied(sort, cfg, r) {
      IncompleteUnlessSatisfied(sort, cfg, r);
    }
    IncompleteByOrder(sort, cfg, rep);
  }

  lemma {:induction false} IncompleteByOrder(sort: Sorter, cfg: Config, rep: ReportValue)
    ensures IncompleteOrderFree(sort, cfg, rep) <==> SomeAlwaysFails(cfg, rep) || AllAgree(cfg, rep)
  {
    Unshuffled(rep);
    if SomeAlwaysFails(cfg, rep) {
      forall rep' | Shuffled(rep, rep') ensures !AllSatisfied(sort, cfg, rep') {
        FailsInEveryOrder(sort, cfg, rep, rep');
      }
    } else if AllAgree(cfg, rep) {
      forall rep' | Shuffled(rep, rep') ensures AllSatisfied(sort, cfg, rep') {
        HoldsInEveryOrder(sort, cfg, rep, rep');
      }
    } else {
      var a := CompleteInSomeOrder(sort, cfg, rep);
      var b := IncompleteInSomeOrder(sort, cfg, rep);
    }
  }

  // ---- Which findings can be judged ----

  // No run of a lesser key holds the id.
  ghost predicate LeastHolder(rep: ReportValue, r: RunOutcome, id: string) {
    r in rep.runs && forall s | s in rep.runs && HasID(s.findings, id) :: KeyLe(RunKey(r), RunKey(s))
  }

  // A finding that could be the one its id is judged by.
  ghost predicate Candidate(rep: ReportValue, f: Finding) {
    if rep.findings != [] then f in rep.findings else exists r | LeastHolder(rep, r, f.id) :: f in r.findings
  }

  ghost predicate CandidatesAgree(cfg: Config, rep: ReportValue) {
    forall f, g | Candidate(rep, f) && Candidate(rep, g) && f.id == g.id ::
      ContributionOf(cfg, RefTime(rep), f) == ContributionOf(cfg, RefTime(rep), g)
  }

  lemma {:induction false} SomeOfItsID(fs: seq<Finding>, n: nat, k: nat)
    requires k < n <= |fs|
    ensures HasID(FirstOfEachID(fs, n), fs[k].id)
  {
    FirstOfEachIDExact(fs, n);
  }

  lemma {:induction false} FirstOfItsID(fs: seq<Finding>, n: nat, f: Finding) returns (m: nat)
    requires n <= |fs| && f in FirstOfEachID(fs, n)
    ensures m < n && fs[m] == f && forall k | 0 <= k < m :: fs[k].id != f.id
    decreases n
  {
    if f in FirstOfEachID(fs, n - 1) {
      m := FirstOfItsID(fs, n - 1, f);
    } else {
      m := n - 1;
      forall k | 0 <= k < m ensures fs[k].id != f.id {
        SomeOfItsID(fs, m, k);
      }
    }
  }

  lemma {:induction false} FirstIsKept(fs: seq<Finding>, n: nat, m: nat)
    requires m < n <= |fs| && forall k | 0 <= k < m :: fs[k].id != fs[m].id
    ensures fs[m] in FirstOfEachID(fs, n)
    decreases n
  {
    if m < n - 1 {
      FirstIsKept(fs, n - 1, m);
    } else {
      FirstOfEachIDExact(fs, m);
      assert forall g | g in FirstOfEachID(fs, m) :: g in fs[..m];
    }
  }

  lemma {:induction false} FindingsGrow(runs: seq<RunOutcome>, x: nat, n: nat)
    requires x <= n <= |runs|
    ensures FindingsOfRuns(runs, x) <= FindingsOfRuns(runs, n)
    decreases n
  {
    if x < n { FindingsGrow(runs, x, n - 1); }
  }

  lemma {:induction false} FindingOfRun(runs: seq<RunOutcome>, y: nat, n: nat, f: Finding)
    requires y < n <= |runs| && f in runs[y].findings
    ensures f in FindingsOfRuns(runs, n)
  {
    FindingsGrow(runs, y + 1, n);
    assert f in FindingsOfRuns(runs, y + 1);
  }

  // The run that a finding of the collected list comes from.
  lemma {:induction false} RunHolding(runs: seq<RunOutcome>, n: nat, m: nat) returns (x: nat)
    requires n <= |runs| && m < |FindingsOfRuns(runs, n)|
    ensures x < n && |FindingsOfRuns(runs, x)| <= m && FindingsOfRuns(runs, n)[m] in runs[x].findings
    decreases n
  {
    var before := FindingsOfRuns(runs, n - 1);
    if m < |before| {
      x := RunHolding(runs, n - 1, m);
    } else {
      x := n - 1;
      assert FindingsOfRuns(runs, n)[m] == runs[x].findings[m - |before|];
    }
  }

  // The first finding of an id is in a run before which no run holds it.
  lemma {:induction false} FirstHolder(runs: seq<RunOutcome>, f: Finding) returns (x: nat)
    requires var fs := FindingsOfRuns(runs, |runs|); f in FirstOfEachID(fs, |fs|)
    ensures x < |runs| && f in runs[x].findings && forall y | 0 <= y < x :: !HasID(runs[y].findings, f.id)
  {
    var fs := FindingsOfRuns(runs, |runs|);
    var m := FirstOfItsID(fs, |fs|, f);
    x := RunHolding(runs, |runs|, m);
    FindingsGrow(runs, x, |runs|);
    forall y, g | 0 <= y < x && g in runs[y].findings ensures g.id != f.id {
      FindingOfRun(runs, y, x, g);
      var k :| 0 <= k < |FindingsOfRuns(runs, x)| && FindingsOfRuns(runs, x)[k] == g;
      assert fs[k] == g;
    }
  }

  lemma {:induction false} JudgedIsCandidate(sort: Sorter, rep: ReportValue, f: Finding)
    requires f in OrderedFindings(sort, rep)
    ensures Candidate(rep, f)
  {
    if rep.findings != [] {
      OrderedFindingsOf(sort, rep);
    } else {
      var runs := OrderedRuns(sort, rep);
      var x := FirstHolder(runs, f);
      assert runs[x] in runs;
      forall s | s in rep.runs && HasID(s.findings, f.id) ensures KeyLe(RunKey(runs[x]), RunKey(s)) {
        assert s in runs;
        var z :| 0 <= z < |runs| && runs[z] == s;
        KeyLeTotal(RunKey(s), RunKey(s));
      }
      assert LeastHolder(rep, runs[x], f.id);
    }
  }

  lemma {:induction false} CandidateIDIsJudged(sort: Sorter, rep: ReportValue, f: Finding)
    requires Candidate(rep, f)
    ensures HasID(OrderedFindings(sort, rep), f.id)
  {
    if rep.findings != [] {
      OrderedFindingsOf(sort, rep);
    } else {
      var r :| LeastHolder(rep, r, f.id) && f in r.findings;
      var runs := OrderedRuns(sort, rep);
      assert r in runs;
      var y :| 0 <= y < |runs| && runs[y] == r;
      FindingOfRun(runs, y, |runs|, f);
      var fs := FindingsOfRuns(runs, |runs|);
      var k :| 0 <= k < |fs| && fs[k] == f;
      FirstOfEachIDExact(fs, |fs|);
      assert HasID(FirstOfEachID(fs, |fs|), fs[k].id);
      var g :| g in FirstOfEachID(fs, |fs|) && g.id == f.id;
      assert g in OrderedFindings(sort, rep);
    }
  }

  lemma {:induction false} SameMembersEmpty(fs: seq<Finding>, gs: seq<Finding>)
    requires forall f :: f in fs <==> f in gs
    ensures fs == [] <==> gs == []
  {
    assert fs != [] ==> fs[0] in gs;
    assert gs != [] ==> gs[0] in fs;
  }

  lemma {:induction false} CandidateCarried(rep: ReportValue, rep': ReportValue, f: Finding)
    requires SameParts(rep, rep') && SameParts(rep', rep) && Candidate(rep, f)
    ensures Candidate(rep', f)
  {
    if rep.findings == [] {
      SameMembersEmpty(rep.findings, rep'.findings);
      var r :| LeastHolder(rep, r, f.id) && f in r.findings;
      assert HasAlike(rep'.runs, r);
      var s :| s in rep'.runs && Alike(s, r);
      forall t | t in rep'.runs && HasID(t.findings, f.id) ensures KeyLe(RunKey(s), RunKey(t)) {
        assert HasAlike(rep.runs, t);
        var u :| u in rep.runs && Alike(u, t);
        var g :| g in t.findings && g.id == f.id;
        assert g in u.findings;
        assert KeyLe(RunKey(r), RunKey(u));
      }
      assert LeastHolder(rep', s, f.id);
    }
  }

  lemma {:induction false} AgreeingCandidatesMatch(sort: Sorter, cfg: Config, rep: ReportValue, rep': ReportValue)
    requires SameParts(rep, rep') && SameParts(rep', rep) && CandidatesAgree(cfg, rep)
    ensures MatchedIn(sort, cfg, rep, rep')
  {
    forall f | f in OrderedFindings(sort, rep) ensures Puts(sort, cfg, rep', ContributionOf(cfg, RefTime(rep), f)) {
      JudgedIsCandidate(sort, rep, f);
      CandidateCarried(rep, rep', f);
      var g := JudgedForCandidate(sort, rep', f);
      CandidateCarried(rep', rep, g);
    }
  }

  lemma {:induction false} PairCarried(cfg: Config, rep: ReportValue, rep': ReportValue, f: Finding, g: Finding)
    requires SameParts(rep, rep') && SameParts(rep', rep) && CandidatesAgree(cfg, rep)
    requires Candidate(rep', f) && Candidate(rep', g) && f.id == g.id
    ensures ContributionOf(cfg, RefTime(rep'), f) == ContributionOf(cfg, RefTime(rep'), g)
  {
    CandidateCarried(rep', rep, f);
    CandidateCarried(rep', rep, g);
  }

  lemma {:induction false} AgreeingCandidatesCarried(cfg: Config, rep: ReportValue, rep': ReportValue)
    requires SameParts(rep, rep') && SameParts(rep', rep) && CandidatesAgree(cfg, rep)
    ensures CandidatesAgree(cfg, rep')
  {
    forall f, g | Candidate(rep', f) && Candidate(rep', g) && f.id == g.id
      ensures ContributionOf(cfg, RefTime(rep'), f) == ContributionOf(cfg, RefTime(rep'), g)
    {
      PairCarried(cfg, rep, rep', f, g);
    }
  }

  lemma {:induction false} JudgedForCandidate(sort: Sorter, rep: ReportValue, f: Finding) returns (g: Finding)
    requires Candidate(rep, f)
    ensures g in OrderedFindings(sort, rep) && g.id == f.id && Candidate(rep, g)
  {
    CandidateIDIsJudged(sort, rep, f);
    g :| g in OrderedFindings(sort, rep) && g.id == f.id;
    JudgedIsCandidate(sort, rep, g);
  }

  // ---- Every candidate is judged in some order ----

  lemma {:induction false} ListedCandidate(sort: Sorter, rep: ReportValue, f: Finding) returns (rep': ReportValue)
    requires f in rep.findings
    ensures Shuffled(rep, rep') && f in OrderedFindings(sort, rep')
  {
    var k: nat :| k < |rep.findings| && rep.findings[k] == f;
    var q := FrontFirst(|rep.findings|, k);
    FrontFirstPermutes(|rep.findings|, k);
    rep' := rep.(findings := Permute(q, rep.findings));
    Unshuffled(rep);
    assert exists p :: RunsShuffled(p, rep.runs, rep'.runs);
    FirstStays(rep'.findings, |rep'.findings|);
  }

  // Of the runs with one key, in sorted order, the first.
  lemma {:induction false} FirstOfKey(runs: seq<RunOutcome>, z: nat) returns (x: nat)
    requires z < |runs|
    ensures x < |runs| && RunKey(runs[x]) == RunKey(runs[z])
    ensures forall y | 0 <= y < x :: RunKey(runs[y]) != RunKey(runs[z])
  {
    x := 0;
    while RunKey(runs[x]) != RunKey(runs[z])
      invariant x <= z
      invariant forall y | 0 <= y < x :: RunKey(runs[y]) != RunKey(runs[z])
      decreases z - x
    {
      x := x + 1;
    }
  }

  function Swapping(n: nat, a: nat, b: nat): seq<nat>
    requires a < n && b < n
  {
    seq(n, i requires 0 <= i < n => SwapAt(a, b, i))
  }

  // Run i, with its finding k first, in place d; the run of place d in place i.
  function RunInFront(runs: seq<RunOutcome>, i: nat, k: nat, d: nat): seq<RunOutcome>
    requires i < |runs| && k < |runs[i].findings| && d < |runs|
  {
    var r := runs[i];
    runs[i := runs[d]][d := r.(findings := Permute(FrontFirst(|r.findings|, k), r.findings))]
  }

  lemma {:induction false} RunInFrontShuffles(rep: ReportValue, i: nat, k: nat, d: nat)
    requires i < |rep.runs| && k < |rep.runs[i].findings| && d < |rep.runs|
    ensures Shuffled(rep, rep.(runs := RunInFront(rep.runs, i, k, d)))
  {
    var runs, p := RunInFront(rep.runs, i, k, d), Swapping(|rep.runs|, d, i);
    InvolutionPermutes(p);
    forall j | 0 <= j < |runs| ensures ListShuffled(rep.runs[p[j]], runs[j]) {
      if j == d {
        FrontFirstPermutes(|rep.runs[i].findings|, k);
      } else {
        ListUnchanged(runs[j]);
      }
    }
    assert RunsShuffled(p, rep.runs, runs);
    IdentityPermutes(rep.findings);
  }

  // A finding at the head of a run before which no run holds its id is the one its id is judged by.
  lemma {:induction false} HeadOfHolderIsFirst(runs: seq<RunOutcome>, x: nat)
    requires x < |runs| && runs[x].findings != []
    requires forall y | 0 <= y < x :: !HasID(runs[y].findings, runs[x].findings[0].id)
    ensures var fs := FindingsOfRuns(runs, |runs|); runs[x].findings[0] in FirstOfEachID(fs, |fs|)
  {
    var fs, f, m := FindingsOfRuns(runs, |runs|), runs[x].findings[0], |FindingsOfRuns(runs, x)|;
    FindingsGrow(runs, x + 1, |runs|);
    assert FindingsOfRuns(runs, x + 1)[m] == f;
    assert fs[..m] == FindingsOfRuns(runs, x) && fs[m] == f;
    forall j | 0 <= j < m ensures fs[j].id != f.id {
      var y := RunHolding(runs, x, j);
      assert FindingsOfRuns(runs, x)[j] == fs[j];
    }
    FirstIsKept(fs, |fs|, m);
  }

  lemma {:induction false} HolderIsNotLess(rep: ReportValue, rep': ReportValue, r: RunOutcome, t: RunOutcome, g: Finding)
    requires SameParts(rep', rep) && LeastHolder(rep, r, g.id) && t in rep'.runs && g in t.findings
    ensures KeyLe(RunKey(r), RunKey(t))
  {
    assert HasAlike(rep.runs, t);
    var s :| s in rep.runs && Alike(s, t);
    assert g in s.findings;
  }

  // Before the first run of the least key no run holds the id, in any order.
  lemma {:induction false} NoneBefore(sort: Sorter, rep: ReportValue, rep': ReportValue, r: RunOutcome, id: string, x: nat)
    requires SameParts(rep', rep) && LeastHolder(rep, r, id)
    requires x < |OrderedRuns(sort, rep')| && RunKey(OrderedRuns(sort, rep')[x]) == RunKey(r)
    requires forall y | 0 <= y < x :: RunKey(OrderedRuns(sort, rep')[y]) != RunKey(r)
    ensures forall y | 0 <= y < x :: !HasID(OrderedRuns(sort, rep')[y].findings, id)
  {
    var now := OrderedRuns(sort, rep');
    forall y, g | 0 <= y < x && g in now[y].findings ensures g.id != id {
      if g.id == id {
        HolderIsNotLess(rep, rep', r, now[y], g);
        KeyLeTotal(RunKey(now[y]), RunKey(r));
        assert false;
      }
    }
  }

  lemma {:induction false} FrontKeys(runs: seq<RunOutcome>, i: nat, k: nat, d: nat)
    requires i < |runs| && k < |runs[i].findings| && d < |runs| && RunKey(runs[d]) == RunKey(runs[i])
    ensures var runs' := RunInFront(runs, i, k, d);
            && (forall j | 0 <= j < |runs| :: RunKey(runs'[j]) == RunKey(runs[j]))
            && runs'[d].findings != [] && runs'[d].findings[0] == runs[i].findings[k]
  {
  }

  // Where, in sorted order, the first run with the key of run i stands.
  lemma {:induction false} FirstPlaceOfKey(sort: Sorter, rep: ReportValue, i: nat) returns (x: nat)
    requires i < |rep.runs|
    ensures var o := sort(Map(RunKey, rep.runs));
            && IsPermutation(o, |rep.runs|) && x < |o| && RunKey(rep.runs[o[x]]) == RunKey(rep.runs[i])
            && forall y | 0 <= y < x :: RunKey(rep.runs[o[y]]) != RunKey(rep.runs[i])
  {
    var o, was := sort(Map(RunKey, rep.runs)), OrderedRuns(sort, rep);
    assert rep.runs[i] in was;
    var z :| 0 <= z < |was| && was[z] == rep.runs[i];
    x := FirstOfKey(was, z);
    assert Arranges(Map(RunKey, rep.runs), o);
    forall y | 0 <= y < |o| ensures was[y] == rep.runs[o[y]] {
    }
  }

  lemma {:induction false} SortedAt(sort: Sorter, rep: ReportValue, runs: seq<RunOutcome>, y: nat)
    requires |runs| == |rep.runs| && forall j | 0 <= j < |runs| :: RunKey(runs[j]) == RunKey(rep.runs[j])
    requires y < |runs|
    ensures var o, now := sort(Map(RunKey, rep.runs)), OrderedRuns(sort, rep.(runs := runs));
            |now| == |o| == |runs| && o[y] < |runs| && now[y] == runs[o[y]]
  {
    SortedAlike(sort, rep.runs, runs);
    assert Arranges(Map(RunKey, rep.runs), sort(Map(RunKey, rep.runs)));
  }

  // The report with run i in place of the first of its key, and its finding k first of all its findings.
  lemma {:induction false} FrontRunSorted(sort: Sorter, rep: ReportValue, i: nat, k: nat)
    returns (rep': ReportValue, x: nat)
    requires i < |rep.runs| && k < |rep.runs[i].findings|
    ensures Shuffled(rep, rep') && rep'.findings == rep.findings
    ensures var now := OrderedRuns(sort, rep');
            && x < |now| && RunKey(now[x]) == RunKey(rep.runs[i])
            && now[x].findings != [] && now[x].findings[0] == rep.runs[i].findings[k]
            && forall y | 0 <= y < x :: RunKey(now[y]) != RunKey(rep.runs[i])
  {
    x := FirstPlaceOfKey(sort, rep, i);
    var o := sort(Map(RunKey, rep.runs));
    var runs := RunInFront(rep.runs, i, k, o[x]);
    FrontKeys(rep.runs, i, k, o[x]);
    RunInFrontShuffles(rep, i, k, o[x]);
    rep' := rep.(runs := runs);
    SortedAt(sort, rep, runs, x);
    forall y | 0 <= y < x ensures RunKey(OrderedRuns(sort, rep')[y]) != RunKey(rep.runs[i]) {
      SortedAt(sort, rep, runs, y);
    }
  }

  lemma {:induction false} HeldCandidate(sort: Sorter, rep: ReportValue, r: RunOutcome, f: Finding)
    returns (rep': ReportValue)
    requires rep.findings == [] && LeastHolder(rep, r, f.id) && f in r.findings
    ensures Shuffled(rep, rep') && f in OrderedFindings(sort, rep')
  {
    var i: nat :| i < |rep.runs| && rep.runs[i] == r;
    var k: nat :| k < |r.findings| && r.findings[k] == f;
    var x: nat;
    rep', x := FrontRunSorted(sort, rep, i, k);
    ShuffledSameParts(rep, rep');
    NoneBefore(sort, rep, rep', r, f.id, x);
    HeadOfHolderIsFirst(OrderedRuns(sort, rep'), x);
  }

  lemma {:induction false} CandidateIsJudged(sort: Sorter, rep: ReportValue, f: Finding) returns (rep': ReportValue)
    requires Candidate(rep, f)
    ensures Shuffled(rep, rep') && f in OrderedFindings(sort, rep')
  {
    if rep.findings != [] {
      rep' := ListedCandidate(sort, rep, f);
    } else {
      var r :| LeastHolder(rep, r, f.id) && f in r.findings;
      rep' := HeldCandidate(sort, rep, r, f);
    }
  }

  // ---- The decision in every order ----

  // What a verdict decides: everything but the wording of why, and the list of uncovered checks.
  datatype Decision = Decision(outcome: Outcome, blocking: seq<string>, residual: seq<ResidualRiskItem>)

  function DecisionOf(sort: Sorter, cfg: Config, rep: ReportValue): Decision {
    var v := VerdictOf(sort, cfg, rep);
    Decision(v.outcome, v.blocking, v.residual)
  }

  lemma {:induction false} DecisionByStage(sort: Sorter, cfg: Config, rep: ReportValue)
    ensures var d := DecisionOf(sort, cfg, rep);
            if !AllSatisfied(sort, cfg, rep) then d == Decision(Incomplete, [], [])
            else if !cfg.allowDirty && rep.dirty then d == Decision(Blocked, [], [])
            else d.outcome != Incomplete && d.blocking == Blocking(sort, cfg, rep) && d.residual == Residual(sort, cfg, rep)
                 && d.outcome == Judgement(d.blocking, d.residual).0
  {
    IncompleteUnlessSatisfied(sort, cfg, rep);
    ReachesFindingsExactly(sort, cfg, rep);
  }

  ghost predicate DecisionOrderFree(sort: Sorter, cfg: Config, rep: ReportValue) {
    forall rep' | Shuffled(rep, rep') :: DecisionOf(sort, cfg, rep') == DecisionOf(sort, cfg, rep)
  }

  // A caller can see all of this in the report and the configuration.
  ghost predicate OrderCannotMatter(cfg: Config, rep: ReportValue) {
    || SomeAlwaysFails(cfg, rep)
    || (AllAgree(cfg, rep) && ((!cfg.allowDirty && rep.dirty) || CandidatesAgree(cfg, rep)))
  }

  lemma {:induction false} SameDecision(sort: Sorter, cfg: Config, rep: ReportValue, rep': ReportValue)
    requires Shuffled(rep, rep') && OrderCannotMatter(cfg, rep)
    ensures DecisionOf(sort, cfg, rep') == DecisionOf(sort, cfg, rep)
  {
    Unshuffled(rep);
    ShuffledSameParts(rep, rep');
    DecisionByStage(sort, cfg, rep);
    DecisionByStage(sort, cfg, rep');
    if SomeAlwaysFails(cfg, rep) {
      FailsInEveryOrder(sort, cfg, rep, rep);
      FailsInEveryOrder(sort, cfg, rep, rep');
    } else {
      HoldsInEveryOrder(sort, cfg, rep, rep);
      HoldsInEveryOrder(sort, cfg, rep, rep');
      if cfg.allowDirty || !rep.dirty {
        AgreeingCandidatesMatch(sort, cfg, rep, rep');
        AgreeingCandidatesCarried(cfg, rep, rep');
        AgreeingCandidatesMatch(sort, cfg, rep', rep);
        MatchedSameLists(sort, cfg, rep, rep');
      }
    }
  }

  lemma {:induction false} FreeCandidatesAgree(sort: Sorter, cfg: Config, rep: ReportValue, f: Finding, g: Finding)
    requires DecisionOrderFree(sort, cfg, rep) && !SomeAlwaysFails(cfg, rep) && AllAgree(cfg, rep)
    requires (cfg.allowDirty || !rep.dirty) && Candidate(rep, f) && Candidate(rep, g) && f.id == g.id
    ensures ContributionOf(cfg, RefTime(rep), f) == ContributionOf(cfg, RefTime(rep), g)
  {
    var repF := CandidateIsJudged(sort, rep, f);
    var repG := CandidateIsJudged(sort, rep, g);
    HoldsInEveryOrder(sort, cfg, rep, repF);
    HoldsInEveryOrder(sort, cfg, rep, repG);
    DecisionByStage(sort, cfg, repF);
    DecisionByStage(sort, cfg, repG);
    assert DecisionOf(sort, cfg, repF) == DecisionOf(sort, cfg, rep) == DecisionOf(sort, cfg, repG);
    SameListsAgree(sort, cfg, repF, repG, f, g);
  }

  lemma {:induction false} FreeOrdersAgree(sort: Sorter, cfg: Config, rep: ReportValue)
    requires DecisionOrderFree(sort, cfg, rep)
    ensures SomeAlwaysFails(cfg, rep) || AllAgree(cfg, rep)
  {
    forall rep' | Shuffled(rep, rep') ensures AllSatisfied(sort, cfg, rep') == AllSatisfied(sort, cfg, rep) {
      assert DecisionOf(sort, cfg, rep') == DecisionOf(sort, cfg, rep);
      DecisionByStage(sort, cfg, rep);
      DecisionByStage(sort, cfg, rep');
    }
    IncompleteByOrder(sort, cfg, rep);
  }

  // The decision is the same for every order of the runs, of the findings, and of the findings inside
  // each run, exactly when a required name fails in all of them; or the greatest runs of each required
  // name agree, and the tree is dirty where it may not be, or all findings that an id could be judged by
  // put the same into the verdict.
  lemma {:induction false} DecisionOrderFreeExactly(sort: Sorter, cfg: Config, rep: ReportValue)
    ensures DecisionOrderFree(sort, cfg, rep) <==> OrderCannotMatter(cfg, rep)
  {
    if OrderCannotMatter(cfg, rep) {
      forall rep' | Shuffled(rep, rep') ensures DecisionOf(sort, cfg, rep') == DecisionOf(sort, cfg, rep) {
        SameDecision(sort, cfg, rep, rep');
      }
    }
    if DecisionOrderFree(sort, cfg, rep) {
      FreeOrdersAgree(sort, cfg, rep);
      if !SomeAlwaysFails(cfg, rep) && (cfg.allowDirty || !rep.dirty) {
        forall f, g | Candidate(rep, f) && Candidate(rep, g) && f.id == g.id
          ensures ContributionOf(cfg, RefTime(rep), f) == ContributionOf(cfg, RefTime(rep), g)
        {
          FreeCandidatesAgree(sort, cfg, rep, f, g);
        }
      }
    }
  }
}
