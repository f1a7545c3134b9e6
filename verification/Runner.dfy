// Running external processes: what becomes of one, and of many run in parallel.
module Runner {
  import opened Parallel

  datatype Failure = NoFailure | NotOnPath | StartFailure | AttachFailure | ContextDone | PanicFailure(what: string)

  datatype Result = Result(name: string, exitCode: int, timedOut: bool, killed: bool, err: Failure)

  datatype Kind = OKState | TimedOutState | Cancelled | CrashedState

  // Result.State
  function StateOf(r: Result): Kind {
    if r.timedOut then TimedOutState
    else if r.killed then Cancelled
    else if r.err != NoFailure || (r.exitCode != 0 && r.exitCode != 1) then CrashedState
    else OKState
  }

  // What happens to one process: not found, not started, not contained, ended by itself (code is -1
  // when it has no exit code), or cut short, by its deadline or otherwise; or Run itself panics.
  datatype Process = Missing | NotStarted | NotContained | Exited(code: int) | CutShort(deadline: bool)
                   | RunPanics(what: string)

  // What Run gives, or the recovery from its panic does, by what happens to its process.
  function RunProcess(name: string, p: Process): Result {
    match p
    case Missing => Result(name, -1, false, false, NotOnPath)
    case NotStarted => Result(name, -1, false, false, StartFailure)
    case NotContained => Result(name, -1, false, false, AttachFailure)
    case Exited(code) => Result(name, code, false, false, NoFailure)
    case CutShort(deadline) => Result(name, -1, deadline, true, NoFailure)
    case RunPanics(what) => Result(name, -1, false, false, PanicFailure(what))
  }

  function EndingOf(name: string, p: Process): Ending<Result> {
    if p.RunPanics? then Panics(p.what) else Returns(RunProcess(name, p))
  }

  // Each thing that can happen to a process is told apart from a pass, and the two ways of being cut short from each other.
  lemma {:induction false} StateTellsExactly(name: string, p: Process)
    ensures StateOf(RunProcess(name, p)) == OKState <==> p == Exited(0) || p == Exited(1)
    ensures StateOf(RunProcess(name, p)) == TimedOutState <==> p == CutShort(true)
    ensures StateOf(RunProcess(name, p)) == Cancelled <==> p == CutShort(false)
    ensures StateOf(RunProcess(name, p)) == CrashedState <==>
      p in {Missing, NotStarted, NotContained} || p.RunPanics? || (p.Exited? && p.code != 0 && p.code != 1)
  {
  }

  // A result tells what became of its process, and a process that exited has its exit code there.
  lemma {:induction false} ResultTellsProcess(name: string, p: Process, q: Process)
    ensures RunProcess(name, p) == RunProcess(name, q) <==> p == q
    ensures RunProcess(name, p).exitCode == if p.Exited? then p.code else -1
    ensures RunProcess(name, p).name == name && (RunProcess(name, p).killed <==> p.CutShort?)
  {
  }

  // What RunParallel's goroutines are given: at most maxConcurrency at a time, or all when that is not
  // positive. happens(i, c, p): p can happen to process i, c being whether the context is cancelled by then.
  ghost function JobOf(names: seq<string>, maxConcurrency: int, happens: (nat, bool, Process) -> bool): Job<Result> {
    Job(|names|, if maxConcurrency <= 0 then |names| else maxConcurrency,
        (i: nat, c, e: Ending<Result>) =>
          i < |names| && exists p :: happens(i, c, p) && e == EndingOf(names[i], p),
        (i: nat) => Result(if i < |names| then names[i] else "", -1, false, true, ContextDone),
        (i: nat, what: string) => Result(if i < |names| then names[i] else "", -1, false, false, PanicFailure(what)),
        Result("", 0, false, false, NoFailure))
  }

  // Something happens to every process: each Run returns or panics.
  ghost predicate EachReturns(n: nat, happens: (nat, bool, Process) -> bool) {
    forall i, c: bool | 0 <= i < n :: SomethingHappens(happens, i, c)
  }

  ghost predicate SomethingHappens(happens: (nat, bool, Process) -> bool, i: nat, c: bool) {
    exists p :: happens(i, c, p)
  }

  lemma {:induction false} JobIsWellFormed(names: seq<string>, maxConcurrency: int,
                                           happens: (nat, bool, Process) -> bool)
    requires EachReturns(|names|, happens)
    ensures WellFormed(JobOf(names, maxConcurrency, happens))
  {
    var job := JobOf(names, maxConcurrency, happens);
    forall i, c: bool | 0 <= i < job.n ensures CanEnd(job, i, c) {
      assert SomethingHappens(happens, i, c);
      var p :| happens(i, c, p);
      assert job.may(i, c, EndingOf(names[i], p));
    }
  }

  // With a positive maximum no more processes than that run at once, at any moment of any interleaving.
  lemma {:induction false} NeverMoreThanMaximum(names: seq<string>, maxConcurrency: int,
                                                happens: (nat, bool, Process) -> bool, run: seq<State<Result>>, k: nat)
    requires IsRun(JobOf(names, maxConcurrency, happens), run) && k < |run| && maxConcurrency > 0
    ensures Total(Busy, run[k].pcs) <= maxConcurrency
  {
    RunIsSafe(JobOf(names, maxConcurrency, happens), run, k);
  }

  // And as many do in some: the maximum, or every process when there are no more or there is no maximum.
  lemma {:induction false} MaximumIsReached(names: seq<string>, maxConcurrency: int,
                                            happens: (nat, bool, Process) -> bool) returns (run: seq<State<Result>>)
    ensures IsRun(JobOf(names, maxConcurrency, happens), run)
    ensures Total(Busy, run[|run| - 1].pcs) ==
            if 0 < maxConcurrency < |names| then maxConcurrency else |names|
  {
    run := BoundIsReached(JobOf(names, maxConcurrency, happens), if 0 < maxConcurrency < |names| then maxConcurrency else |names|);
  }

  // r is what becomes of process i, of what can happen to it.
  ghost predicate IsFate(happens: (nat, bool, Process) -> bool, name: string, i: nat, r: Result) {
    exists c, p :: happens(i, c, p) && r == RunProcess(name, p)
  }

  ghost predicate ExitedFrom(happens: (nat, bool, Process) -> bool, name: string, i: nat, r: Result) {
    exists c, p | happens(i, c, p) :: (p == Exited(0) || p == Exited(1)) && r == RunProcess(name, p)
  }

  lemma {:induction false} EndingIsFate(names: seq<string>, maxConcurrency: int, happens: (nat, bool, Process) -> bool,
                                        i: nat, c: bool, e: Ending<Result>)
    requires i < |names| && JobOf(names, maxConcurrency, happens).may(i, c, e)
    ensures IsFate(happens, names[i], i, Settle(JobOf(names, maxConcurrency, happens), i, e))
  {
    var p :| happens(i, c, p) && e == EndingOf(names[i], p);
    assert Settle(JobOf(names, maxConcurrency, happens), i, e) == RunProcess(names[i], p);
  }

  lemma {:induction false} AllowedIsFate(names: seq<string>, maxConcurrency: int, happens: (nat, bool, Process) -> bool,
                                         cancelled: bool, i: nat, r: Result)
    requires i < |names| && Allowed(JobOf(names, maxConcurrency, happens), cancelled, i, r)
    ensures IsFate(happens, names[i], i, r) || (cancelled && r == Result(names[i], -1, false, true, ContextDone))
  {
    var job := JobOf(names, maxConcurrency, happens);
    if !(cancelled && r == job.killed(i)) {
      var e :| Genuine(job, cancelled, i, e) && r == Settle(job, i, e);
      EndingIsFate(names, maxConcurrency, happens, i, !job.may(i, false, e), e);
    }
  }

  lemma {:induction false} PassIsExit(happens: (nat, bool, Process) -> bool, name: string, i: nat, r: Result)
    requires IsFate(happens, name, i, r) && StateOf(r) == OKState
    ensures ExitedFrom(happens, name, i, r)
  {
    var c, p :| happens(i, c, p) && r == RunProcess(name, p);
    StateTellsExactly(name, p);
  }

  // No slot reads as a pass unless its own process exited by itself with code 0 or 1: not one that
  // was never started, was cut short, was kept waiting by a cancellation, or panicked.
  lemma {:induction false} PassedMeansExited(names: seq<string>, maxConcurrency: int,
                                             happens: (nat, bool, Process) -> bool, run: seq<State<Result>>,
                                             i: nat)
    requires IsRun(JobOf(names, maxConcurrency, happens), run) && run[|run| - 1].returned && i < |names|
    requires |run[|run| - 1].slots| == |names| && StateOf(run[|run| - 1].slots[i]) == OKState
    ensures ExitedFrom(happens, names[i], i, run[|run| - 1].slots[i])
  {
    var job, s := JobOf(names, maxConcurrency, happens), run[|run| - 1];
    RunHolds(job, run);
    ReturnIsComplete(job, s, i);
    AllowedIsFate(names, maxConcurrency, happens, s.cancelled, i, s.slots[i]);
    PassIsExit(happens, names[i], i, s.slots[i]);
  }

  lemma {:induction false} FateIsNamed(happens: (nat, bool, Process) -> bool, name: string, i: nat, r: Result)
    requires IsFate(happens, name, i, r)
    ensures r.name == name
  {
  }

  // On return each slot holds what became of its own process, under its own name, or, after a cancellation,
  // that its process was never started, which reads as cancelled.
  lemma {:induction false} SlotsAreOwn(names: seq<string>, maxConcurrency: int, happens: (nat, bool, Process) -> bool,
                                       run: seq<State<Result>>, i: nat)
    requires IsRun(JobOf(names, maxConcurrency, happens), run) && run[|run| - 1].returned && i < |names|
    ensures var s := run[|run| - 1];
            && |s.slots| == |names| && s.slots[i].name == names[i]
            && (IsFate(happens, names[i], i, s.slots[i]) || (s.cancelled && StateOf(s.slots[i]) == Cancelled))
  {
    var job, s := JobOf(names, maxConcurrency, happens), run[|run| - 1];
    RunHolds(job, run);
    ReturnIsComplete(job, s, i);
    AllowedIsFate(names, maxConcurrency, happens, s.cancelled, i, s.slots[i]);
    if IsFate(happens, names[i], i, s.slots[i]) { FateIsNamed(happens, names[i], i, s.slots[i]); }
  }

  // Uncancelled, RunParallel returns each spec's result in the spec's place, whatever the interleaving.
  lemma {:induction false} RunParallelInOrder(names: seq<string>, maxConcurrency: int,
                                              happens: (nat, bool, Process) -> bool, fate: seq<Process>,
                                              run: seq<State<Result>>)
    requires |fate| == |names| && forall i, p | 0 <= i < |names| && happens(i, false, p) :: p == fate[i]
    requires IsRun(JobOf(names, maxConcurrency, happens), run)
    requires run[|run| - 1].returned && !run[|run| - 1].cancelled
    ensures var slots := run[|run| - 1].slots;
            |slots| == |names| && forall i | 0 <= i < |names| :: slots[i] == RunProcess(names[i], fate[i])
  {
    var job := JobOf(names, maxConcurrency, happens);
    var ends := seq(|names|, i requires 0 <= i < |names| => EndingOf(names[i], fate[i]));
    ParallelIsSequential(job, run, ends);
  }
}
