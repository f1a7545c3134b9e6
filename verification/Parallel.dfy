// The goroutine protocol shared by RunParallel and the engine's scan: one goroutine and one result
// slot a task, a counting semaphore, recovery from panics, cancellation, and a WaitGroup to end on.
module Parallel {

  // How a task's call ends.
  datatype Ending<R> = Returns(value: R) | Panics(what: string)

  // n tasks, at most bound of them at a time. may(i, c, e): task i can end as e, c being whether the
  // context is cancelled by then. What the slots hold otherwise, and to begin with, is given too.
  datatype Job<!R(!new)> = Job(
    n: nat, bound: nat, may: (nat, bool, Ending<R>) -> bool,
    killed: nat -> R, panicked: (nat, string) -> R, zero: R)

  ghost predicate WellFormed<R(!new)>(job: Job<R>) {
    && (job.n > 0 ==> job.bound > 0)
    && forall i, c: bool | 0 <= i < job.n :: CanEnd(job, i, c)
  }

  ghost predicate CanEnd<R(!new)>(job: Job<R>, i: nat, c: bool) {
    exists e :: job.may(i, c, e)
  }

  // Where a goroutine is. Ended to Stored is the slot's assignment; a panic unwinds through the
  // deferred functions last to first: the token is given back, then the slot is written, then Done.
  datatype PC<R> = Unborn | Waiting | Refused | Running | Ended(value: R) | Stored
                 | Panicking(what: string) | Recovering(what: string) | Finishing | Gone

  datatype State<R> = State(
    pcs: seq<PC<R>>, slots: seq<R>, writes: seq<nat>,  // writes: how often each slot was assigned
    tokens: nat,                                       // what the semaphore's channel holds
    pending: nat,                                      // the WaitGroup's counter
    spawned: nat, cancelled: bool, returned: bool)

  predicate Sized<R(!new)>(job: Job<R>, s: State<R>) {
    |s.pcs| == job.n && |s.slots| == job.n && |s.writes| == job.n
  }

  function Copies<T>(n: nat, x: T): seq<T> { seq(n, _ => x) }

  function Init<R(!new)>(job: Job<R>): State<R> {
    State(Copies(job.n, Unborn), Copies(job.n, job.zero), Copies(job.n, 0), 0, 0, 0, false, false)
  }

  // ---- Steps ----

  ghost predicate Spawns<R(!new)>(job: Job<R>, s: State<R>, s': State<R>)
    requires Sized(job, s)
  {
    && s.spawned < job.n && !s.returned
    && s' == s.(pcs := s.pcs[s.spawned := Waiting], pending := s.pending + 1, spawned := s.spawned + 1)
  }

  ghost predicate WaitEnds<R(!new)>(job: Job<R>, s: State<R>, s': State<R>) {
    s.spawned == job.n && s.pending == 0 && !s.returned && s' == s.(returned := true)
  }

  ghost predicate Cancels<R(!new)>(s: State<R>, s': State<R>) {
    !s.cancelled && s' == s.(cancelled := true)
  }

  function Assign<R(!new)>(s: State<R>, i: nat, r: R, pc: PC<R>): State<R>
    requires i < |s.pcs| && i < |s.slots| && i < |s.writes|
  {
    s.(slots := s.slots[i := r], writes := s.writes[i := s.writes[i] + 1], pcs := s.pcs[i := pc])
  }

  function After<R(!new)>(e: Ending<R>): PC<R> {
    match e
    case Returns(v) => Ended(v)
    case Panics(w) => Panicking(w)
  }

  // Receiving from the semaphore's channel blocks when it is empty, and Done below zero is a panic,
  // so both are guarded here; that they never are in the way is a consequence of the invariant.
  ghost predicate Moves<R(!new)>(job: Job<R>, s: State<R>, i: nat, s': State<R>)
    requires Sized(job, s) && i < job.n
  {
    match s.pcs[i]
    case Unborn => false
    case Waiting =>
      || (s.tokens < job.bound && s' == s.(pcs := s.pcs[i := Running], tokens := s.tokens + 1))
      || (s.cancelled && s' == s.(pcs := s.pcs[i := Refused]))
    case Refused => s' == Assign(s, i, job.killed(i), Finishing)
    case Running => exists e :: job.may(i, s.cancelled, e) && s' == s.(pcs := s.pcs[i := After(e)])
    case Ended(v) => s' == Assign(s, i, v, Stored)
    case Stored => s.tokens > 0 && s' == s.(pcs := s.pcs[i := Finishing], tokens := s.tokens - 1)
    case Panicking(w) => s.tokens > 0 && s' == s.(pcs := s.pcs[i := Recovering(w)], tokens := s.tokens - 1)
    case Recovering(w) => s' == Assign(s, i, job.panicked(i, w), Finishing)
    case Finishing => s.pending > 0 && s' == s.(pcs := s.pcs[i := Gone], pending := s.pending - 1)
    case Gone => false
  }

  ghost predicate Next<R(!new)>(job: Job<R>, s: State<R>, s': State<R>)
    requires Sized(job, s)
  {
    Spawns(job, s, s') || WaitEnds(job, s, s') || Cancels(s, s') || exists i | 0 <= i < job.n :: Moves(job, s, i, s')
  }

  // ---- Counting ----

  function Holds<R(!new)>(pc: PC<R>): nat { if pc.Running? || pc.Ended? || pc.Stored? || pc.Panicking? then 1 else 0 }

  function Alive<R(!new)>(pc: PC<R>): nat { if pc.Unborn? || pc.Gone? then 0 else 1 }

  function Busy<R(!new)>(pc: PC<R>): nat { if pc.Running? then 1 else 0 }

  predicate Wrote<R(!new)>(pc: PC<R>) { pc.Stored? || pc.Finishing? || pc.Gone? }

  // An upper bound on the steps a goroutine has yet to take.
  function Left<R(!new)>(pc: PC<R>): nat {
    match pc
    case Unborn => 6
    case Waiting => 5
    case Running => 4
    case Ended(_) => 3
    case Panicking(_) => 3
    case Stored => 2
    case Recovering(_) => 2
    case Refused => 2
    case Finishing => 1
    case Gone => 0
  }

  function Total<R(!new)>(f: PC<R> -> nat, pcs: seq<PC<R>>): nat {
    if pcs == [] then 0 else f(pcs[0]) + Total(f, pcs[1..])
  }

  lemma {:induction false} TotalAfter<R(!new)>(f: PC<R> -> nat, pcs: seq<PC<R>>, i: nat, pc: PC<R>)
    requires i < |pcs|
    ensures Total(f, pcs[i := pc]) == Total(f, pcs) - f(pcs[i]) + f(pc)
    ensures f(pcs[i]) <= Total(f, pcs)
  {
    if i == 0 {
      assert pcs[0 := pc][1..] == pcs[1..];
    } else {
      assert pcs[i := pc][1..] == pcs[1..][i - 1 := pc];
      TotalAfter(f, pcs[1..], i - 1, pc);
    }
  }

  lemma {:induction false} TotalOf<R(!new)>(f: PC<R> -> nat, pcs: seq<PC<R>>) returns (i: nat)
    ensures if Total(f, pcs) == 0 then forall k | 0 <= k < |pcs| :: f(pcs[k]) == 0
            else i < |pcs| && f(pcs[i]) > 0
  {
    i := 0;
    if pcs != [] {
      var k := TotalOf(f, pcs[1..]);
      if f(pcs[0]) == 0 { i := k + 1; }
      if Total(f, pcs) == 0 {
        forall j | 0 <= j < |pcs| ensures f(pcs[j]) == 0 {
          if j > 0 { assert pcs[j] == pcs[1..][j - 1]; }
        }
      }
    }
  }

  lemma {:induction false} TotalSame<R(!new)>(f: PC<R> -> nat, n: nat, pc: PC<R>)
    ensures Total(f, Copies(n, pc)) == n * f(pc)
  {
    if n > 0 {
      assert Copies(n, pc)[1..] == Copies(n - 1, pc);
      TotalSame(f, n - 1, pc);
    }
  }

  lemma {:induction false} BusyHold<R(!new)>(pcs: seq<PC<R>>)
    ensures Total(Busy, pcs) <= Total(Holds, pcs)
  {
    if pcs != [] { BusyHold(pcs[1..]); }
  }

  // ---- The invariant ----

  // Task i can end as e, given whether the context is cancelled so far.
  ghost predicate Genuine<R(!new)>(job: Job<R>, cancelled: bool, i: nat, e: Ending<R>) {
    job.may(i, false, e) || (cancelled && job.may(i, true, e))
  }

  function Settle<R(!new)>(job: Job<R>, i: nat, e: Ending<R>): R {
    match e
    case Returns(v) => v
    case Panics(w) => job.panicked(i, w)
  }

  // What slot i may hold: the task's own result, or that of its panic, or, after a cancellation, that of being killed.
  ghost predicate Allowed<R(!new)>(job: Job<R>, cancelled: bool, i: nat, r: R) {
    || (cancelled && r == job.killed(i))
    || exists e :: Genuine(job, cancelled, i, e) && r == Settle(job, i, e)
  }

  ghost predicate Fits<R(!new)>(job: Job<R>, s: State<R>, i: nat)
    requires Sized(job, s) && i < job.n
  {
    var pc := s.pcs[i];
    && (pc.Unborn? <==> i >= s.spawned)
    && s.writes[i] == (if Wrote(pc) then 1 else 0)
    && (pc.Refused? ==> s.cancelled)
    && (pc.Ended? ==> Genuine(job, s.cancelled, i, Returns(pc.value)))
    && (pc.Panicking? || pc.Recovering? ==> Genuine(job, s.cancelled, i, Panics(pc.what)))
    && (if Wrote(pc) then Allowed(job, s.cancelled, i, s.slots[i]) else s.slots[i] == job.zero)
  }

  ghost predicate Inv<R(!new)>(job: Job<R>, s: State<R>) {
    && Sized(job, s) && s.spawned <= job.n
    && (forall i | 0 <= i < job.n :: Fits(job, s, i))
    && s.tokens == Total(Holds, s.pcs) <= job.bound
    && s.pending == Total(Alive, s.pcs)
    && (s.returned ==> s.spawned == job.n && s.pending == 0)
  }

  lemma {:induction false} InitInv<R(!new)>(job: Job<R>)
    ensures Inv(job, Init(job))
  {
    TotalSame(Holds<R>, job.n, Unborn);
    TotalSame(Alive<R>, job.n, Unborn);
    var s := Init(job);
    forall i | 0 <= i < job.n ensures Fits(job, s, i) {
    }
  }

  lemma {:induction false} SpawnKeepsInv<R(!new)>(job: Job<R>, s: State<R>, s': State<R>)
    requires Inv(job, s) && Spawns(job, s, s')
    ensures Inv(job, s')
  {
    assert Fits(job, s, s.spawned);
    TotalAfter(Holds<R>, s.pcs, s.spawned, Waiting);
    TotalAfter(Alive<R>, s.pcs, s.spawned, Waiting);
    forall i | 0 <= i < job.n ensures Fits(job, s', i) {
      assert Fits(job, s, i);
    }
  }

  lemma {:induction false} CancelKeepsInv<R(!new)>(job: Job<R>, s: State<R>, s': State<R>)
    requires Inv(job, s) && Cancels(s, s')
    ensures Inv(job, s')
  {
    forall i | 0 <= i < job.n ensures Fits(job, s', i) {
      assert Fits(job, s, i);
      if Wrote(s.pcs[i]) {
        var e :| Genuine(job, s.cancelled, i, e) && s.slots[i] == Settle(job, i, e);
        assert Genuine(job, true, i, e);
      }
    }
  }

  // A goroutine's move touches its own slot only, and brings it closer to its end.
  lemma {:induction false} MoveIsOwn<R(!new)>(job: Job<R>, s: State<R>, i: nat, s': State<R>)
    requires Sized(job, s) && i < job.n && Moves(job, s, i, s')
    ensures Sized(job, s')
    ensures forall k | 0 <= k < job.n && k != i ::
      s'.pcs[k] == s.pcs[k] && s'.slots[k] == s.slots[k] && s'.writes[k] == s.writes[k]
    ensures s'.spawned == s.spawned && s'.cancelled == s.cancelled && s'.returned == s.returned
    ensures s'.pcs == s.pcs[i := s'.pcs[i]]
    ensures s'.tokens == s.tokens - Holds(s.pcs[i]) + Holds(s'.pcs[i])
    ensures s'.pending == s.pending - Alive(s.pcs[i]) + Alive(s'.pcs[i])
    ensures Left(s'.pcs[i]) < Left(s.pcs[i])
  {
  }

  // And it writes that slot at most once, with what its task allows.
  lemma {:induction false} MoveKeepsFit<R(!new)>(job: Job<R>, s: State<R>, i: nat, s': State<R>)
    requires Sized(job, s) && i < job.n && Fits(job, s, i) && Moves(job, s, i, s')
    ensures Sized(job, s') && Fits(job, s', i)
  {
    match s.pcs[i]
    case Ended(v) => assert s'.slots[i] == Settle(job, i, Returns(v));
    case Recovering(w) => assert s'.slots[i] == Settle(job, i, Panics(w));
    case _ =>
  }

  lemma {:induction false} MoveKeepsInv<R(!new)>(job: Job<R>, s: State<R>, i: nat, s': State<R>)
    requires Inv(job, s) && i < job.n && Moves(job, s, i, s')
    ensures Inv(job, s')
  {
    assert Fits(job, s, i);
    MoveIsOwn(job, s, i, s');
    MoveKeepsFit(job, s, i, s');
    TotalAfter(Holds<R>, s.pcs, i, s'.pcs[i]);
    TotalAfter(Alive<R>, s.pcs, i, s'.pcs[i]);
    forall k | 0 <= k < job.n ensures Fits(job, s', k) {
      assert Fits(job, s, k);
    }
  }

  // Whatever happens next, the invariant survives it.
  lemma {:induction false} NextKeepsInv<R(!new)>(job: Job<R>, s: State<R>, s': State<R>)
    requires Inv(job, s) && Next(job, s, s')
    ensures Inv(job, s')
  {
    if Spawns(job, s, s') {
      SpawnKeepsInv(job, s, s');
    } else if Cancels(s, s') {
      CancelKeepsInv(job, s, s');
    } else if WaitEnds(job, s, s') {
      forall i | 0 <= i < job.n ensures Fits(job, s', i) {
        assert Fits(job, s, i);
      }
    } else {
      var i :| 0 <= i < job.n && Moves(job, s, i, s');
      MoveKeepsInv(job, s, i, s');
    }
  }

  // ---- Progress ----

  // A goroutine that holds a token can always move: giving it back never blocks.
  lemma {:induction false} HolderMoves<R(!new)>(job: Job<R>, s: State<R>, i: nat) returns (s': State<R>)
    requires WellFormed(job) && Inv(job, s) && i < job.n && Holds(s.pcs[i]) > 0
    ensures Moves(job, s, i, s')
  {
    TotalAfter(Holds<R>, s.pcs, i, s.pcs[i]);
    match s.pcs[i]
    case Running =>
      assert CanEnd(job, i, s.cancelled);
      var e :| job.may(i, s.cancelled, e);
      s' := s.(pcs := s.pcs[i := After(e)]);
    case Ended(v) => s' := Assign(s, i, v, Stored);
    case Stored => s' := s.(pcs := s.pcs[i := Finishing], tokens := s.tokens - 1);
    case Panicking(w) => s' := s.(pcs := s.pcs[i := Recovering(w)], tokens := s.tokens - 1);
  }

  lemma {:induction false} OtherMoves<R(!new)>(job: Job<R>, s: State<R>, i: nat) returns (s': State<R>)
    requires Inv(job, s) && i < job.n && Alive(s.pcs[i]) > 0 && Holds(s.pcs[i]) == 0
    requires s.pcs[i].Waiting? ==> s.tokens < job.bound
    ensures Moves(job, s, i, s')
  {
    TotalAfter(Alive<R>, s.pcs, i, s.pcs[i]);
    match s.pcs[i]
    case Waiting => s' := s.(pcs := s.pcs[i := Running], tokens := s.tokens + 1);
    case Refused => s' := Assign(s, i, job.killed(i), Finishing);
    case Recovering(w) => s' := Assign(s, i, job.panicked(i, w), Finishing);
    case Finishing => s' := s.(pcs := s.pcs[i := Gone], pending := s.pending - 1);
  }

  // No deadlock: until the call returns, something other than a cancellation can happen.
  lemma {:induction false} Progress<R(!new)>(job: Job<R>, s: State<R>) returns (s': State<R>)
    requires WellFormed(job) && Inv(job, s) && !s.returned
    ensures Next(job, s, s') && s'.cancelled == s.cancelled
  {
    var holder := TotalOf(Holds<R>, s.pcs);
    var alive := TotalOf(Alive<R>, s.pcs);
    if s.spawned < job.n {
      s' := s.(pcs := s.pcs[s.spawned := Waiting], pending := s.pending + 1, spawned := s.spawned + 1);
      assert Spawns(job, s, s');
    } else if s.pending == 0 {
      s' := s.(returned := true);
      assert WaitEnds(job, s, s');
    } else if s.tokens > 0 {
      s' := HolderMoves(job, s, holder);
      MoveIsOwn(job, s, holder, s');
    } else {
      s' := OtherMoves(job, s, alive);
      MoveIsOwn(job, s, alive, s');
    }
  }

  // ---- Runs ----

  ghost predicate Steps<R(!new)>(job: Job<R>, s: State<R>, s': State<R>) {
    Sized(job, s) && Next(job, s, s')
  }

  ghost predicate Stuck<R(!new)>(job: Job<R>, s: State<R>) {
    forall s' :: !Steps(job, s, s')
  }

  ghost predicate IsRun<R(!new)>(job: Job<R>, run: seq<State<R>>) {
    && run != [] && run[0] == Init(job)
    && forall k | 0 < k < |run| :: Steps(job, run[k - 1], run[k])
  }

  function Measure<R(!new)>(s: State<R>): nat {
    Total(Left, s.pcs) + (if s.cancelled then 0 else 1) + (if s.returned then 0 else 1)
  }

  lemma {:induction false} NextDecreases<R(!new)>(job: Job<R>, s: State<R>, s': State<R>)
    requires Inv(job, s) && Next(job, s, s')
    ensures Measure(s') < Measure(s)
  {
    if Spawns(job, s, s') {
      assert Fits(job, s, s.spawned);
      TotalAfter(Left<R>, s.pcs, s.spawned, Waiting);
    } else if !WaitEnds(job, s, s') && !Cancels(s, s') {
      var i :| 0 <= i < job.n && Moves(job, s, i, s');
      MoveIsOwn(job, s, i, s');
      TotalAfter(Left<R>, s.pcs, i, s'.pcs[i]);
    }
  }

  lemma {:induction false} RunHolds<R(!new)>(job: Job<R>, run: seq<State<R>>)
    requires IsRun(job, run)
    ensures forall k | 0 <= k < |run| :: Inv(job, run[k])
    ensures |run| + Measure(run[|run| - 1]) <= 6 * job.n + 3
  {
    if |run| == 1 {
      InitInv(job);
      TotalSame(Left<R>, job.n, Unborn);
    } else {
      var last := |run| - 1;
      var before := run[..last];
      RunHolds(job, before);
      assert before[last - 1] == run[last - 1];
      assert Steps(job, run[last - 1], run[last]);
      NextKeepsInv(job, run[last - 1], run[last]);
      NextDecreases(job, run[last - 1], run[last]);
      forall k | 0 <= k < |run| ensures Inv(job, run[k]) {
        if k < last { assert before[k] == run[k]; }
      }
    }
  }

  // In every interleaving, at every moment: as many tokens are out as goroutines hold one, never more
  // than the bound, so never do more tasks run at once; and no slot has been written twice.
  lemma {:induction false} RunIsSafe<R(!new)>(job: Job<R>, run: seq<State<R>>, k: nat)
    requires IsRun(job, run) && k < |run|
    ensures var s := run[k];
            && Total(Busy, s.pcs) <= s.tokens == Total(Holds, s.pcs) <= job.bound
            && |s.writes| == job.n && forall i | 0 <= i < job.n :: s.writes[i] <= 1
  {
    RunHolds(job, run);
    var s := run[k];
    BusyHold(s.pcs);
    forall i | 0 <= i < job.n ensures s.writes[i] <= 1 {
      assert Fits(job, s, i);
    }
  }

  // Every run is short, and one that can go no further has returned.
  lemma {:induction false} RunTerminates<R(!new)>(job: Job<R>, run: seq<State<R>>)
    requires WellFormed(job) && IsRun(job, run)
    ensures |run| <= 6 * job.n + 3
    ensures Stuck(job, run[|run| - 1]) ==> run[|run| - 1].returned
  {
    RunHolds(job, run);
    var s := run[|run| - 1];
    assert Inv(job, s);
    if !s.returned {
      var s' := Progress(job, s);
      assert Steps(job, s, s');
    }
  }

  lemma {:induction false} ExtendRun<R(!new)>(job: Job<R>, run: seq<State<R>>, s': State<R>)
    requires IsRun(job, run) && Steps(job, run[|run| - 1], s')
    ensures IsRun(job, run + [s'])
  {
    var next := run + [s'];
    forall k | 0 < k < |next| ensures Steps(job, next[k - 1], next[k]) {
      if k < |run| { assert Steps(job, run[k - 1], run[k]); }
    }
  }

  // Every run can be carried on, without a further cancellation, until the call returns.
  lemma {:induction false} RunCanFinish<R(!new)>(job: Job<R>, run: seq<State<R>>) returns (longer: seq<State<R>>)
    requires WellFormed(job) && IsRun(job, run)
    ensures IsRun(job, longer) && run <= longer
    ensures longer[|longer| - 1].returned && longer[|longer| - 1].cancelled == run[|run| - 1].cancelled
    decreases Measure(run[|run| - 1])
  {
    RunHolds(job, run);
    var s := run[|run| - 1];
    assert Inv(job, s);
    if s.returned {
      longer := run;
    } else {
      var s' := Progress(job, s);
      NextDecreases(job, s, s');
      ExtendRun(job, run, s');
      longer := RunCanFinish(job, run + [s']);
    }
  }

  // ---- The bound is reached ----

  // n goroutines in one of three places: the first r running, the next w waiting, the rest unborn.
  function Spread<R(!new)>(n: nat, r: nat, w: nat): (pcs: seq<PC<R>>)
    requires r + w <= n
    ensures |pcs| == n
    ensures forall i | 0 <= i < n :: pcs[i] == if i < r then Running else if i < r + w then Waiting else Unborn
  {
    seq(n, i requires 0 <= i < n => if i < r then Running else if i < r + w then Waiting else Unborn)
  }

  function SpreadState<R(!new)>(job: Job<R>, r: nat, w: nat): State<R>
    requires r + w <= job.n
  {
    Init(job).(pcs := Spread(job.n, r, w), tokens := r, pending := r + w, spawned := r + w)
  }

  lemma {:induction false} SpawnsAll<R(!new)>(job: Job<R>, w: nat) returns (run: seq<State<R>>)
    requires w <= job.n
    ensures IsRun(job, run) && run[|run| - 1] == SpreadState(job, 0, w)
  {
    if w == 0 {
      assert Spread<R>(job.n, 0, 0) == Copies(job.n, Unborn);
      run := [Init(job)];
    } else {
      run := SpawnsAll(job, w - 1);
      var s, s' := SpreadState(job, 0, w - 1), SpreadState(job, 0, w);
      assert s'.pcs == s.pcs[w - 1 := Waiting];
      assert Spawns(job, s, s');
      ExtendRun(job, run, s');
      run := run + [s'];
    }
  }

  lemma {:induction false} StartsSome<R(!new)>(job: Job<R>, r: nat) returns (run: seq<State<R>>)
    requires r <= job.n && r <= job.bound
    ensures IsRun(job, run) && run[|run| - 1] == SpreadState(job, r, job.n - r)
  {
    if r == 0 {
      run := SpawnsAll(job, job.n);
    } else {
      run := StartsSome(job, r - 1);
      var s, s' := SpreadState(job, r - 1, job.n - r + 1), SpreadState(job, r, job.n - r);
      assert s'.pcs == s.pcs[r - 1 := Running];
      assert Moves(job, s, r - 1, s');
      ExtendRun(job, run, s');
      run := run + [s'];
    }
  }

  lemma {:induction false} SpreadBusy<R(!new)>(n: nat, r: nat, w: nat)
    requires r + w <= n
    ensures Total(Busy, Spread<R>(n, r, w)) == r
  {
    if n > 0 {
      var tail := Spread<R>(n, r, w)[1..];
      if r > 0 {
        assert tail == Spread<R>(n - 1, r - 1, w);
        SpreadBusy<R>(n - 1, r - 1, w);
      } else {
        assert tail == Spread<R>(n - 1, 0, if w > 0 then w - 1 else 0);
        SpreadBusy<R>(n - 1, 0, if w > 0 then w - 1 else 0);
      }
    }
  }

  // As many tasks as the bound allows, if there are as many, run at once in some interleaving.
  lemma {:induction false} BoundIsReached<R(!new)>(job: Job<R>, r: nat) returns (run: seq<State<R>>)
    requires r <= job.n && r <= job.bound
    ensures IsRun(job, run) && Total(Busy, run[|run| - 1].pcs) == r
  {
    run := StartsSome(job, r);
    SpreadBusy<R>(job.n, r, job.n - r);
  }

  // ---- What the call returns ----

  // On return every slot was written exactly once, with what its own task allows; no token is out
  // and no goroutine is left.
  lemma {:induction false} ReturnIsComplete<R(!new)>(job: Job<R>, s: State<R>, i: nat)
    requires Inv(job, s) && s.returned && i < job.n
    ensures s.pcs[i].Gone? && s.writes[i] == 1 && Allowed(job, s.cancelled, i, s.slots[i])
    ensures s.tokens == 0
  {
    assert Fits(job, s, i);
    var holder := TotalOf(Holds<R>, s.pcs);
    assert s.tokens > 0 ==> Alive(s.pcs[holder]) > 0;
    var _ := TotalOf(Alive<R>, s.pcs);
  }

  // Every task ends in the one given way as long as nothing is cancelled.
  ghost predicate EndsAs<R(!new)>(job: Job<R>, ends: seq<Ending<R>>) {
    |ends| == job.n && forall i, e | 0 <= i < job.n && job.may(i, false, e) :: e == ends[i]
  }

  // The tasks one by one, each panic recovered.
  function OneByOne<R(!new)>(job: Job<R>, ends: seq<Ending<R>>): seq<R> {
    seq(|ends|, i requires 0 <= i < |ends| => Settle(job, i, ends[i]))
  }

  // Without a cancellation, every interleaving returns what running the tasks one by one would: a
  // panic shows in its own slot and in no other.
  lemma {:induction false} ParallelIsSequential<R(!new)>(job: Job<R>, run: seq<State<R>>, ends: seq<Ending<R>>)
    requires IsRun(job, run) && run[|run| - 1].returned && !run[|run| - 1].cancelled && EndsAs(job, ends)
    ensures run[|run| - 1].slots == OneByOne(job, ends)
  {
    RunHolds(job, run);
    var s := run[|run| - 1];
    forall i | 0 <= i < job.n ensures s.slots[i] == Settle(job, i, ends[i]) {
      ReturnIsComplete(job, s, i);
      var e :| Genuine(job, s.cancelled, i, e) && s.slots[i] == Settle(job, i, e);
    }
  }

  // With a cancellation each slot still holds its task's own ending or the killed result, no other.
  lemma {:induction false} CancelledSlotsAreOwn<R(!new)>(job: Job<R>, run: seq<State<R>>, ends: seq<Ending<R>>,
                                                         i: nat)
    requires IsRun(job, run) && run[|run| - 1].returned && EndsAs(job, ends) && i < job.n
    requires forall e | job.may(i, true, e) :: e == ends[i] || e == Returns(job.killed(i))
    ensures var s := run[|run| - 1];
            |s.slots| == job.n && (s.slots[i] == OneByOne(job, ends)[i] || (s.cancelled && s.slots[i] == job.killed(i)))
  {
    RunHolds(job, run);
    ReturnIsComplete(job, run[|run| - 1], i);
  }
}
