/** The life cycle of the crawl scheduler: one mutex, one WaitGroup and one
    cancellable context shared by loop goroutines, after-sync jobs, RunOnce
    callers and Stop callers.

    Every goroutine is a process with a program counter. A step moves one process
    across one shared access, so a run of the system is any interleaving of them. */
module Scheduler {

  /** The context Start installs: absent before Start, then live, then done for
      ever. The context handed to Start may end it as well as Stop. */
  datatype Context = Unset | Live | Ended

  datatype Process =
    // Start: `loops` loops still to launch once the context is installed.
    | StartCalled(loops: nat)
    | StartLaunching(loops: nat)
    | StartReturned
    // loop: the tick body, the walk over the after-sync jobs (the sync loop only),
    // the gap between its context check and wg.Add, the select, and the exit.
    | LoopBody(jobs: nat)
    | LoopJobs(jobs: nat, next: nat)
    | LoopAdding(jobs: nat, next: nat)
    | LoopSelect(jobs: nat)
    | LoopExited
    // One after-sync job.
    | JobRunning
    | JobExited
    // RunOnce: lock, check, add, unlock, go, return.
    | OnceCalled
    | OnceLocked
    | OnceChecked
    | OnceAdded
    | OnceUnlocked
    | OnceLaunched(fn: nat)
    | OnceAnswered(answer: bool, fn: nat)
    // The function a RunOnce launched.
    | FnRunning
    | FnExited
    // Stop: lock, cancel, Wait, unlock, return.
    | StopCalled
    | StopLocked
    | StopWaiting
    | StopWaited
    | StopReturned

  /** `holder` is the process inside the mutex. */
  datatype State = State(holder: int, ctx: Context, wg: int, procs: seq<Process>)

  const NOBODY := -1

  // ---------------------------------------------------------------- steps

  /** What one step of one process does: its next program counter, the goroutine it
      launches (at most one), and the shared state it leaves. */
  datatype Effect = Effect(next: Process, launched: seq<Process>, holder: int, ctx: Context, wg: int)

  function Quietly(s: State, next: Process): Effect {
    Effect(next, [], s.holder, s.ctx, s.wg)
  }

  ghost predicate StartDoes(s: State, p: Process, e: Effect) {
    match p
    case StartCalled(n) =>
      s.holder == NOBODY && e == Quietly(s, StartLaunching(n)).(ctx := Live)
    case StartLaunching(n) =>
      if n == 0 then e == Quietly(s, StartReturned)
      else |e.launched| == 1 && e.launched[0].LoopBody?
           && e == Quietly(s, StartLaunching(n - 1)).(launched := e.launched, wg := s.wg + 1)
    case _ => false
  }

  ghost predicate LoopDoes(s: State, p: Process, e: Effect) {
    match p
    case LoopBody(jobs) => e == Quietly(s, LoopJobs(jobs, 0))
    case LoopJobs(jobs, next) =>
      if next < jobs && s.ctx != Ended then e == Quietly(s, LoopAdding(jobs, next))
      else e == Quietly(s, LoopSelect(jobs))
    case LoopAdding(jobs, next) =>
      e == Quietly(s, LoopJobs(jobs, next + 1)).(launched := [JobRunning], wg := s.wg + 1)
    case LoopSelect(jobs) =>
      // A tick may win the select even after the context has ended.
      || e == Quietly(s, LoopBody(jobs))
      || (s.ctx == Ended && e == Quietly(s, LoopExited).(wg := s.wg - 1))
    case JobRunning => e == Quietly(s, JobExited).(wg := s.wg - 1)
    case FnRunning => e == Quietly(s, FnExited).(wg := s.wg - 1)
    case _ => false
  }

  ghost predicate OnceDoes(s: State, i: nat, p: Process, e: Effect) {
    match p
    case OnceCalled => s.holder == NOBODY && e == Quietly(s, OnceLocked).(holder := i)
    case OnceLocked =>
      if s.ctx == Live then e == Quietly(s, OnceChecked)
      else e == Quietly(s, OnceAnswered(false, 0)).(holder := NOBODY)
    case OnceChecked => e == Quietly(s, OnceAdded).(wg := s.wg + 1)
    case OnceAdded => e == Quietly(s, OnceUnlocked).(holder := NOBODY)
    case OnceUnlocked => e == Quietly(s, OnceLaunched(|s.procs|)).(launched := [FnRunning])
    case OnceLaunched(f) => e == Quietly(s, OnceAnswered(true, f))
    case _ => false
  }

  ghost predicate StopDoes(s: State, i: nat, p: Process, e: Effect) {
    match p
    case StopCalled => s.holder == NOBODY && e == Quietly(s, StopLocked).(holder := i)
    case StopLocked => e == Quietly(s, StopWaiting).(ctx := if s.ctx == Unset then Unset else Ended)
    case StopWaiting => s.wg == 0 && e == Quietly(s, StopWaited)
    case StopWaited => e == Quietly(s, StopReturned).(holder := NOBODY)
    case _ => false
  }

  ghost predicate Does(s: State, i: nat, p: Process, e: Effect) {
    StartDoes(s, p, e) || LoopDoes(s, p, e) || OnceDoes(s, i, p, e) || StopDoes(s, i, p, e)
  }

  function After(s: State, i: nat, e: Effect): State
    requires i < |s.procs|
  {
    State(e.holder, e.ctx, e.wg, s.procs[i := e.next] + e.launched)
  }

  /** New callers may arrive at any time, and the context given to Start may end.
      `overlap` lets a Stop be called while Start is still running. */
  ghost predicate Arrival(s: State, t: State, overlap: bool) {
    || t == s.(procs := s.procs + [OnceCalled])
    || (t == s.(procs := s.procs + [StopCalled]) && (overlap || StartReturned in s.procs))
    || (s.ctx == Live && t == s.(ctx := Ended))
  }

  ghost predicate StepOf(s: State, t: State, i: nat, e: Effect) {
    i < |s.procs| && Does(s, i, s.procs[i], e) && t == After(s, i, e)
  }

  ghost predicate Next(s: State, t: State, overlap: bool) {
    Arrival(s, t, overlap) || exists i, e :: StepOf(s, t, i, e)
  }

  /** Start is about to be called, once; it will launch `loops` loops. */
  function Init(loops: nat): State {
    State(NOBODY, Unset, 0, [StartCalled(loops)])
  }

  ghost predicate Run(tr: seq<State>, loops: nat, overlap: bool) {
    && |tr| > 0
    && tr[0] == Init(loops)
    && forall k :: 0 <= k < |tr| - 1 ==> Next(tr[k], tr[k + 1], overlap)
  }

  // ------------------------------------------------------- what Stop promises

  /** A loop body, an after-sync job or a RunOnce function that is running or that
      some process is already committed to starting. */
  predicate Active(p: Process) {
    p.LoopBody? || p.LoopJobs? || p.LoopAdding? || p.LoopSelect? || p.JobRunning?
    || p.FnRunning? || p.OnceChecked? || p.OnceAdded? || p.OnceUnlocked?
  }

  ghost predicate At(s: State, i: nat, p: Process) {
    i < |s.procs| && s.procs[i] == p
  }

  ghost predicate Quiet(s: State) {
    && (forall i :: 0 <= i < |s.procs| ==> !Active(s.procs[i]))
    && (forall i :: 0 <= i < |s.procs| && Launched(s.procs[i]) ==> At(s, s.procs[i].fn, FnExited))
  }

  /** Some Stop has come out of Wait. */
  ghost predicate Stopped(s: State) {
    exists i :: 0 <= i < |s.procs| && (s.procs[i].StopWaited? || s.procs[i].StopReturned?)
  }

  // --------------------------------------------------------------- invariant

  /** How much of the WaitGroup's counter a process accounts for. */
  function Weight(p: Process): nat {
    if p.LoopBody? || p.LoopJobs? || p.LoopAdding? || p.LoopSelect? || p.JobRunning?
       || p.FnRunning? || p.OnceAdded? || p.OnceUnlocked? then 1 else 0
  }

  /** The sum of what a measure says of each process. */
  function Total(procs: seq<Process>, f: Process -> nat): nat {
    if procs == [] then 0 else f(procs[0]) + Total(procs[1..], f)
  }

  function Load(procs: seq<Process>): nat {
    Total(procs, Weight)
  }

  predicate Inside(p: Process) {
    p.OnceLocked? || p.OnceChecked? || p.OnceAdded? || p.StopLocked? || p.StopWaiting? || p.StopWaited?
  }

  predicate StopBegun(p: Process) {
    p.StopCalled? || p.StopLocked? || p.StopWaiting? || p.StopWaited? || p.StopReturned?
  }

  predicate Starting(p: Process) {
    p.StartCalled? || p.StartLaunching?
  }

  ghost predicate Locked(s: State) {
    && NOBODY <= s.holder < |s.procs|
    && forall i :: 0 <= i < |s.procs| ==> (Inside(s.procs[i]) <==> s.holder == i)
  }

  /** Start is process 0, and the context is unset until it has installed one. */
  ghost predicate StartOnce(s: State) {
    && |s.procs| > 0
    && (Starting(s.procs[0]) || s.procs[0].StartReturned?)
    && (s.procs[0].StartCalled? <==> s.ctx == Unset)
    && (forall i :: 1 <= i < |s.procs| ==> !Starting(s.procs[i]) && !s.procs[i].StartReturned?)
  }

  /** A Stop exists only once Start has returned. */
  ghost predicate StartFirst(s: State) {
    && StartOnce(s)
    && (forall i :: 0 <= i < |s.procs| && StopBegun(s.procs[i]) ==> s.procs[0].StartReturned?)
  }

  /** A Stop past its cancel leaves the context ended for ever. */
  ghost predicate Cancelled(s: State) {
    forall i :: 0 <= i < |s.procs| && (s.procs[i].StopWaiting? || s.procs[i].StopWaited? || s.procs[i].StopReturned?)
      ==> s.ctx == Ended
  }

  predicate Launched(p: Process) {
    p.OnceLaunched? || (p.OnceAnswered? && p.answer)
  }

  /** Whatever a RunOnce launched is one of the processes. */
  ghost predicate Linked(s: State) {
    forall i :: 0 <= i < |s.procs| && Launched(s.procs[i])
      ==> s.procs[i].fn < |s.procs| && (s.procs[s.procs[i].fn].FnRunning? || s.procs[s.procs[i].fn].FnExited?)
  }

  /** Once a Stop is out of Wait the counter is zero and nobody is past the check. */
  ghost predicate Drained(s: State) {
    Stopped(s) ==> s.wg == 0 && forall i :: 0 <= i < |s.procs| ==> !s.procs[i].OnceChecked?
  }

  ghost predicate Inv(s: State) {
    && s.wg == Load(s.procs)
    && Locked(s)
    && StartFirst(s)
    && Cancelled(s)
    && Linked(s)
    && Drained(s)
  }

  lemma {:induction false} TotalMove(procs: seq<Process>, f: Process -> nat, i: int, p: Process)
    requires 0 <= i < |procs|
    ensures Total(procs[i := p], f) == Total(procs, f) - f(procs[i]) + f(p)
  {
    if i == 0 {
      assert procs[i := p][1..] == procs[1..];
    } else {
      TotalMove(procs[1..], f, i - 1, p);
      assert procs[i := p][1..] == procs[1..][i - 1 := p];
    }
  }

  lemma {:induction false} TotalSpawn(procs: seq<Process>, f: Process -> nat, p: Process)
    ensures Total(procs + [p], f) == Total(procs, f) + f(p)
  {
    if procs == [] {
      assert procs + [p] == [p];
    } else {
      TotalSpawn(procs[1..], f, p);
      assert (procs + [p])[1..] == procs[1..] + [p];
    }
  }

  lemma TotalOne(p: Process, f: Process -> nat)
    ensures Total([p], f) == f(p)
  {
    assert [p][1..] == [];
  }

  /** How a total moves with one step of one process. */
  lemma TotalStep(s: State, i: nat, e: Effect, f: Process -> nat)
    requires i < |s.procs| && |e.launched| <= 1
    ensures Total(After(s, i, e).procs, f) == Total(s.procs, f) - f(s.procs[i]) + f(e.next) + Total(e.launched, f)
  {
    TotalMove(s.procs, f, i, e.next);
    if e.launched == [] {
      assert s.procs[i := e.next] + [] == s.procs[i := e.next];
    } else {
      TotalSpawn(s.procs[i := e.next], f, e.launched[0]);
      TotalOne(e.launched[0], f);
      assert e.launched == [e.launched[0]];
    }
  }

  /** A process that accounts for nothing is all that an empty counter allows. */
  lemma {:induction false} LoadZero(procs: seq<Process>, i: int)
    requires 0 <= i < |procs|
    ensures Weight(procs[i]) <= Load(procs)
  {
    if i > 0 {
      LoadZero(procs[1..], i - 1);
    }
  }

  /** What every step respects about its own process, whatever the others are doing. */
  ghost predicate Local(s: State, i: nat, p: Process, e: Effect) {
    && e.wg - s.wg == Weight(e.next) + Load(e.launched) - Weight(p)
    && |e.launched| <= 1
    && (e.launched == [] || e.launched[0].LoopBody? || e.launched[0].JobRunning? || e.launched[0].FnRunning?)
    && (Inside(e.next) <==> e.holder == i)
    && (e.holder == s.holder || (e.holder == i && s.holder == NOBODY) || (e.holder == NOBODY && s.holder == i))
    && (s.ctx == Ended ==> e.ctx == Ended)
    && (e.ctx == Unset ==> s.ctx == Unset)
  }

  lemma DoesIsLocal(s: State, i: nat, p: Process, e: Effect)
    requires Does(s, i, p, e) && (Inside(p) <==> s.holder == i)
    requires p.StartCalled? ==> s.ctx == Unset
    ensures Local(s, i, p, e)
  {
    if e.launched != [] {
      TotalOne(e.launched[0], Weight);
      assert |e.launched| == 1 && e.launched == [e.launched[0]];
    }
  }

  lemma StepCounts(s: State, i: nat, e: Effect)
    requires i < |s.procs| && s.wg == Load(s.procs) && Local(s, i, s.procs[i], e)
    ensures e.wg == Load(s.procs[i := e.next] + e.launched)
  {
    TotalStep(s, i, e, Weight);
  }

  lemma StepLocks(s: State, i: nat, e: Effect)
    requires i < |s.procs| && Locked(s) && Local(s, i, s.procs[i], e)
    ensures Locked(After(s, i, e))
  {
  }

  lemma StepStartsOnce(s: State, i: nat, e: Effect)
    requires i < |s.procs| && StartOnce(s) && Does(s, i, s.procs[i], e) && Local(s, i, s.procs[i], e)
    ensures StartOnce(After(s, i, e))
  {
    StartAlone(s, i, s.procs[i], e);
  }

  lemma StepStartsFirst(s: State, i: nat, e: Effect)
    requires i < |s.procs| && StartFirst(s) && Does(s, i, s.procs[i], e) && Local(s, i, s.procs[i], e)
    ensures StartFirst(After(s, i, e))
  {
    StepStartsOnce(s, i, e);
    StartAlone(s, i, s.procs[i], e);
  }

  /** Only Start moves towards its return, and it is never before its call again. */
  lemma StartAlone(s: State, i: nat, p: Process, e: Effect)
    requires Does(s, i, p, e) && (p.StartCalled? ==> s.ctx == Unset) && (Starting(p) && !p.StartCalled? ==> s.ctx != Unset)
    ensures StopBegun(e.next) ==> StopBegun(p)
    ensures Starting(p) <==> Starting(e.next) || e.next.StartReturned?
    ensures !p.StartReturned? && !e.next.StartCalled?
    ensures Starting(p) ==> e.ctx != Unset
    ensures !Starting(p) ==> (e.ctx == Unset <==> s.ctx == Unset)
  {
  }

  lemma StepCancels(s: State, i: nat, e: Effect)
    requires i < |s.procs| && Cancelled(s) && StartFirst(s)
    requires Does(s, i, s.procs[i], e) && Local(s, i, s.procs[i], e)
    ensures Cancelled(After(s, i, e))
  {
    var p := s.procs[i];
    assert e.next.StopWaiting? || e.next.StopWaited? || e.next.StopReturned? ==> e.ctx == Ended by {
      assert p.StopLocked? ==> StopBegun(p);
    }
  }

  /** A RunOnce keeps the function it launched, and a function only ever exits. */
  ghost predicate KeepsLink(s: State, p: Process, e: Effect) {
    && (Launched(e.next) ==> (Launched(p) && e.next.fn == p.fn) || (e.next.fn == |s.procs| && e.launched == [FnRunning]))
    && (p.FnRunning? || p.FnExited? ==> e.next.FnExited?)
  }

  lemma DoesKeepsLink(s: State, i: nat, p: Process, e: Effect)
    requires Does(s, i, p, e)
    ensures KeepsLink(s, p, e)
  {
  }

  lemma LinksLift(s: State, i: nat, e: Effect)
    requires i < |s.procs| && Linked(s) && KeepsLink(s, s.procs[i], e)
    requires |e.launched| == 1 ==> !Launched(e.launched[0])
    requires |e.launched| <= 1
    ensures Linked(After(s, i, e))
  {
  }

  lemma StepLinks(s: State, i: nat, e: Effect)
    requires i < |s.procs| && Linked(s)
    requires Does(s, i, s.procs[i], e) && Local(s, i, s.procs[i], e)
    ensures Linked(After(s, i, e))
  {
    DoesKeepsLink(s, i, s.procs[i], e);
    LinksLift(s, i, e);
  }

  /** Among processes that account for nothing and are not past the check, no step
      raises the counter or gets past the check. */
  lemma IdleStaysIdle(s: State, i: nat, p: Process, e: Effect)
    requires Does(s, i, p, e) && Weight(p) == 0 && !p.OnceChecked? && !Starting(p) && s.ctx == Ended
    ensures e.wg == s.wg && e.launched == [] && !e.next.OnceChecked?
  {
  }

  lemma WaitedFrom(s: State, i: nat, p: Process, e: Effect)
    requires Does(s, i, p, e) && (e.next.StopWaited? || e.next.StopReturned?)
    ensures p.StopWaited? || (p.StopWaiting? && s.wg == 0 && e == Quietly(s, StopWaited))
  {
  }

  lemma StepDrains(s: State, i: nat, e: Effect)
    requires i < |s.procs| && Inv(s)
    requires Does(s, i, s.procs[i], e) && Local(s, i, s.procs[i], e)
    ensures Drained(After(s, i, e))
  {
    var p, t := s.procs[i], After(s, i, e);
    if Stopped(s) {
      var j :| 0 <= j < |s.procs| && (s.procs[j].StopWaited? || s.procs[j].StopReturned?);
      assert StopBegun(s.procs[j]);
      LoadZero(s.procs, i);
      IdleStaysIdle(s, i, p, e);
      assert t.procs == s.procs[i := e.next];
    } else if Stopped(t) {
      assert e.next.StopWaited? || e.next.StopReturned?;
      WaitedFrom(s, i, p, e);
      assert t.procs == s.procs[i := e.next];
    }
  }

  lemma StepKeeps(s: State, t: State, i: nat, e: Effect)
    requires Inv(s) && StepOf(s, t, i, e)
    ensures Inv(t)
  {
    DoesIsLocal(s, i, s.procs[i], e);
    StepCounts(s, i, e);
    StepLocks(s, i, e);
    StepStartsFirst(s, i, e);
    StepCancels(s, i, e);
    StepLinks(s, i, e);
    StepDrains(s, i, e);
  }

  lemma CallKeeps(s: State, p: Process)
    requires Inv(s) && (p.OnceCalled? || (p.StopCalled? && StartReturned in s.procs))
    ensures Inv(s.(procs := s.procs + [p]))
  {
    TotalSpawn(s.procs, Weight, p);
    CallKeepsRest(s, p);
  }

  lemma CallKeepsRest(s: State, p: Process)
    requires Inv(s) && (p.OnceCalled? || (p.StopCalled? && StartReturned in s.procs))
    ensures var t := s.(procs := s.procs + [p]); Locked(t) && StartFirst(t) && Linked(t) && Cancelled(t) && Drained(t)
  {
    var t := s.(procs := s.procs + [p]);
    assert forall i :: 0 <= i < |s.procs| ==> t.procs[i] == s.procs[i];
    assert Stopped(t) ==> Stopped(s);
  }

  lemma ArrivalKeeps(s: State, t: State)
    requires Inv(s) && Arrival(s, t, false)
    ensures Inv(t)
  {
    if t == s.(procs := s.procs + [OnceCalled]) {
      CallKeeps(s, OnceCalled);
    } else if t == s.(procs := s.procs + [StopCalled]) && StartReturned in s.procs {
      CallKeeps(s, StopCalled);
    } else {
      assert t.procs == s.procs;
    }
  }

  lemma NextKeeps(s: State, t: State)
    requires Inv(s) && Next(s, t, false)
    ensures Inv(t)
  {
    if Arrival(s, t, false) {
      ArrivalKeeps(s, t);
    } else {
      var i: nat, e :| StepOf(s, t, i, e);
      StepKeeps(s, t, i, e);
    }
  }

  lemma {:induction false} RunKeeps(tr: seq<State>, loops: nat, k: nat)
    requires Run(tr, loops, false) && k < |tr|
    ensures Inv(tr[k])
  {
    if k == 0 {
      TotalOne(StartCalled(loops), Weight);
    } else {
      RunKeeps(tr, loops, k - 1);
      NextKeeps(tr[k - 1], tr[k]);
    }
  }

  // ---------------------------------------------------------------- theorems

  lemma StoppedIsQuiet(s: State)
    requires Inv(s) && Stopped(s)
    ensures Quiet(s)
  {
    forall i | 0 <= i < |s.procs| ensures Weight(s.procs[i]) == 0 {
      LoadZero(s.procs, i);
    }
  }

  lemma StaysStopped(s: State, t: State)
    requires Next(s, t, false) && Stopped(s)
    ensures Stopped(t)
  {
    var j :| 0 <= j < |s.procs| && (s.procs[j].StopWaited? || s.procs[j].StopReturned?);
    if !Arrival(s, t, false) {
      var i: nat, e :| StepOf(s, t, i, e);
      assert i == j ==> e.next.StopReturned?;
    }
    assert t.procs[j].StopWaited? || t.procs[j].StopReturned?;
  }

  lemma {:induction false} StoppedFor(tr: seq<State>, loops: nat, from: nat, k: nat)
    requires Run(tr, loops, false) && from <= k < |tr| && Stopped(tr[from])
    ensures Stopped(tr[k])
  {
    if from < k {
      StoppedFor(tr, loops, from, k - 1);
      StaysStopped(tr[k - 1], tr[k]);
    }
  }

  /** Over every run in which no Stop overlaps Start: from the moment any Stop is
      out of Wait, and for ever after, nothing runs, nothing is committed to running,
      and the function of every RunOnce that answered true has finished. */
  lemma StopIsFinal(tr: seq<State>, loops: nat, from: nat, k: nat)
    requires Run(tr, loops, false) && from <= k < |tr|
    requires StopReturned in tr[from].procs
    ensures Quiet(tr[k])
  {
    StoppedFor(tr, loops, from, k);
    RunKeeps(tr, loops, k);
    StoppedIsQuiet(tr[k]);
  }

  /** A RunOnce that is called after a Stop has returned can only answer false. */
  lemma RunOnceAfterStopRefuses(tr: seq<State>, loops: nat, from: nat, k: nat, i: nat, e: Effect)
    requires Run(tr, loops, false) && from <= k < |tr| - 1
    requires StopReturned in tr[from].procs
    requires StepOf(tr[k], tr[k + 1], i, e) && tr[k].procs[i] == OnceLocked
    ensures At(tr[k + 1], i, OnceAnswered(false, 0))
  {
    StoppedFor(tr, loops, from, k);
    RunKeeps(tr, loops, k);
  }

  /** wg.Add never raises the counter from zero while a Stop is inside Wait: the
      misuse of a WaitGroup that would let Wait return too early. */
  lemma AddNeverRacesWait(tr: seq<State>, loops: nat, k: nat)
    requires Run(tr, loops, false) && k < |tr| - 1
    requires StopWaiting in tr[k].procs && tr[k + 1].wg > tr[k].wg
    ensures tr[k].wg > 0
  {
    var s, t := tr[k], tr[k + 1];
    RunKeeps(tr, loops, k);
    var i: nat, e :| StepOf(s, t, i, e);
    LoadZero(s.procs, i);
  }

  /** The mutex excludes: no two processes are between its Lock and Unlock. */
  lemma MutexExcludes(tr: seq<State>, loops: nat, k: nat, i: nat, j: nat)
    requires Run(tr, loops, false) && k < |tr|
    requires i < |tr[k].procs| && j < |tr[k].procs|
    requires Inside(tr[k].procs[i]) && Inside(tr[k].procs[j])
    ensures i == j
  {
    RunKeeps(tr, loops, k);
  }
}
