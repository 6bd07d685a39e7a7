/** The scheduler when a Stop may overlap Start, which releases the mutex before it launches
    its loops: exactly when a Stop is final nevertheless. And that a Stop always can finish. */
module SchedulerOverlap {
  import opened Scheduler

  // --------------------------------------------------------- what still holds

  /** Nobody installs a context while a Stop is past its cancel and holds the mutex. */
  ghost predicate NotLive(s: State) {
    forall i :: 0 <= i < |s.procs| && (s.procs[i].StopWaiting? || s.procs[i].StopWaited?) ==> s.ctx != Live
  }

  ghost predicate Base(s: State) {
    s.wg == Load(s.procs) && Locked(s) && StartOnce(s) && Linked(s) && NotLive(s)
  }

  lemma WaitingFrom(s: State, i: nat, p: Process, e: Effect)
    requires Does(s, i, p, e)
    ensures e.next.StopWaiting? || e.next.StopWaited? ==> (p.StopLocked? && e.ctx != Live) || (p.StopWaiting? && e.ctx == s.ctx)
    ensures e.ctx == Live && s.ctx != Live ==> s.holder == NOBODY
  {
  }

  lemma StepKeepsNotLive(s: State, i: nat, e: Effect)
    requires i < |s.procs| && Locked(s) && NotLive(s) && Does(s, i, s.procs[i], e) && Local(s, i, s.procs[i], e)
    ensures NotLive(After(s, i, e))
  {
    WaitingFrom(s, i, s.procs[i], e);
  }

  lemma StepKeepsBase(s: State, t: State, i: nat, e: Effect)
    requires Base(s) && StepOf(s, t, i, e)
    ensures Base(t)
  {
    DoesIsLocal(s, i, s.procs[i], e);
    StepCounts(s, i, e);
    StepLocks(s, i, e);
    StepStartsOnce(s, i, e);
    StepLinks(s, i, e);
    StepKeepsNotLive(s, i, e);
  }

  lemma CallKeepsBase(s: State, p: Process)
    requires Base(s) && (p.OnceCalled? || p.StopCalled?)
    ensures Base(s.(procs := s.procs + [p]))
  {
    TotalSpawn(s.procs, Weight, p);
    var t := s.(procs := s.procs + [p]);
    assert Locked(t) && Linked(t);
  }

  lemma ArrivalKeepsBase(s: State, t: State)
    requires Base(s) && Arrival(s, t, true)
    ensures Base(t)
  {
    if t == s.(procs := s.procs + [OnceCalled]) {
      CallKeepsBase(s, OnceCalled);
    } else if t == s.(procs := s.procs + [StopCalled]) {
      CallKeepsBase(s, StopCalled);
    } else {
      assert t.procs == s.procs;
    }
  }

  lemma NextKeepsBase(s: State, t: State)
    requires Base(s) && Next(s, t, true)
    ensures Base(t)
  {
    if Arrival(s, t, true) {
      ArrivalKeepsBase(s, t);
    } else {
      var i: nat, e :| StepOf(s, t, i, e);
      StepKeepsBase(s, t, i, e);
    }
  }

  lemma {:induction false} RunKeepsBase(tr: seq<State>, loops: nat, k: nat)
    requires Run(tr, loops, true) && k < |tr|
    ensures Base(tr[k])
  {
    if k == 0 {
      TotalOne(StartCalled(loops), Weight);
    } else {
      RunKeepsBase(tr, loops, k - 1);
      NextKeepsBase(tr[k - 1], tr[k]);
    }
  }

  // ------------------------------------------------------------------ settled

  /** Start has not installed its context yet, or has a loop left to launch. */
  predicate Launches(p: Process) {
    p.StartCalled? || (p.StartLaunching? && p.loops > 0)
  }

  /** Nothing runs, and nothing is left that could start anything. */
  ghost predicate Settled(s: State) {
    && Base(s) && s.ctx == Ended && s.wg == 0
    && !Launches(s.procs[0])
    && forall i :: 0 <= i < |s.procs| ==> !s.procs[i].OnceChecked?
  }

  lemma SettledStep(s: State, i: nat, p: Process, e: Effect)
    requires Does(s, i, p, e) && Weight(p) == 0 && !p.OnceChecked? && !Launches(p) && s.ctx == Ended
    ensures e.wg == s.wg && e.ctx == Ended && e.launched == [] && !e.next.OnceChecked? && !Launches(e.next)
  {
  }

  lemma SettledStays(s: State, t: State)
    requires Settled(s) && Next(s, t, true)
    ensures Settled(t)
  {
    NextKeepsBase(s, t);
    if !Arrival(s, t, true) {
      var i: nat, e :| StepOf(s, t, i, e);
      LoadZero(s.procs, i);
      SettledStep(s, i, s.procs[i], e);
      assert t.procs == s.procs[i := e.next];
    }
  }

  lemma SettledIsQuiet(s: State)
    requires Settled(s)
    ensures Quiet(s)
  {
    forall i | 0 <= i < |s.procs| ensures Weight(s.procs[i]) == 0 {
      LoadZero(s.procs, i);
    }
  }

  lemma {:induction false} SettledFor(tr: seq<State>, loops: nat, from: nat, k: nat)
    requires Run(tr, loops, true) && from <= k < |tr| && Settled(tr[from])
    ensures Settled(tr[k])
  {
    if from < k {
      SettledFor(tr, loops, from, k - 1);
      SettledStays(tr[k - 1], tr[k]);
    }
  }

  // ------------------------------------------------------- the exact condition

  /** Process j is a Stop that comes out of Wait in this step. */
  ghost predicate LeavesWait(s: State, t: State, j: nat) {
    At(s, j, StopWaiting) && At(t, j, StopWaited) && Next(s, t, true)
  }

  lemma OutOfWait(s: State, t: State, j: nat)
    requires Base(s) && LeavesWait(s, t, j)
    ensures s.wg == 0 && t == After(s, j, Quietly(s, StopWaited)) && s.holder == j
  {
    if !Arrival(s, t, true) {
      var i: nat, e :| StepOf(s, t, i, e);
      assert i == j;
      WaitedFrom(s, i, s.procs[i], e);
    }
  }

  /** Every state of every run that goes on from step k + 1 is quiet. */
  ghost predicate FinalAfter(tr: seq<State>, loops: nat, k: nat)
    requires k + 1 < |tr|
  {
    forall run, n :: Run(run, loops, true) && tr[..k + 2] <= run && k + 1 <= n < |run| ==> Quiet(run[n])
  }

  lemma DoneIsFinal(tr: seq<State>, loops: nat, k: nat, j: nat)
    requires Run(tr, loops, true) && k + 1 < |tr| && LeavesWait(tr[k], tr[k + 1], j)
    requires !Launches(tr[k].procs[0])
    ensures FinalAfter(tr, loops, k)
  {
    RunKeepsBase(tr, loops, k);
    RunKeepsBase(tr, loops, k + 1);
    OutOfWait(tr[k], tr[k + 1], j);
    assert Settled(tr[k + 1]);
    forall run, n | Run(run, loops, true) && tr[..k + 2] <= run && k + 1 <= n < |run| ensures Quiet(run[n]) {
      assert run[k + 1] == tr[..k + 2][k + 1] == tr[k + 1];
      SettledFor(run, loops, k + 1, n);
      SettledIsQuiet(run[n]);
    }
  }

  lemma GoOn(tr: seq<State>, loops: nat, overlap: bool, s: State)
    requires Run(tr, loops, overlap) && Next(tr[|tr| - 1], s, overlap)
    ensures Run(tr + [s], loops, overlap)
  {
    var more := tr + [s];
    forall k | 0 <= k < |more| - 1 ensures Next(more[k], more[k + 1], overlap) {
      if k < |tr| - 1 {
        assert more[k] == tr[k] && more[k + 1] == tr[k + 1];
      }
    }
  }

  lemma Steps(s: State, i: nat, e: Effect, overlap: bool)
    requires i < |s.procs| && Does(s, i, s.procs[i], e)
    ensures Next(s, After(s, i, e), overlap)
  {
    assert StepOf(s, After(s, i, e), i, e);
  }

  lemma NotFinal(tr: seq<State>, loops: nat, k: nat, run: seq<State>)
    requires k + 1 < |tr| && Run(run, loops, true) && tr[..k + 2] <= run && !Quiet(run[|run| - 1])
    ensures !FinalAfter(tr, loops, k)
  {
  }

  /** A loop that is left is launched after the Stop. */
  lemma LoopIsLeft(tr: seq<State>, loops: nat, k: nat)
    requires Run(tr, loops, true) && k + 1 < |tr|
    requires |tr[k + 1].procs| > 0 && tr[k + 1].procs[0].StartLaunching? && tr[k + 1].procs[0].loops > 0
    ensures !FinalAfter(tr, loops, k)
  {
    var s := tr[k + 1];
    var e := Quietly(s, StartLaunching(s.procs[0].loops - 1)).(launched := [LoopBody(0)], wg := s.wg + 1);
    var here := tr[..k + 2];
    Steps(s, 0, e, true);
    GoOn(here, loops, true, After(s, 0, e));
    assert Active(After(s, 0, e).procs[|s.procs|]);
    NotFinal(tr, loops, k, here + [After(s, 0, e)]);
  }

  /** A Start that waited for the mutex installs its context after the Stop, and a RunOnce
      then gets in. */
  lemma StartIsLeft(tr: seq<State>, loops: nat, k: nat, j: nat)
    requires Run(tr, loops, true) && k + 1 < |tr|
    requires At(tr[k + 1], j, StopWaited) && tr[k + 1].procs[0].StartCalled?
    ensures !FinalAfter(tr, loops, k)
  {
    var s0 := tr[k + 1];
    var n, m := s0.procs[0].loops, |s0.procs|;
    var s1 := After(s0, j, Quietly(s0, StopReturned).(holder := NOBODY));
    var s2 := After(s1, 0, Quietly(s1, StartLaunching(n)).(ctx := Live));
    var s3 := s2.(procs := s2.procs + [OnceCalled]);
    var s4 := After(s3, m, Quietly(s3, OnceLocked).(holder := m));
    var s5 := After(s4, m, Quietly(s4, OnceChecked));
    Steps(s0, j, Quietly(s0, StopReturned).(holder := NOBODY), true);
    Steps(s1, 0, Quietly(s1, StartLaunching(n)).(ctx := Live), true);
    Steps(s3, m, Quietly(s3, OnceLocked).(holder := m), true);
    Steps(s4, m, Quietly(s4, OnceChecked), true);
    var here := tr[..k + 2];
    GoOn(here, loops, true, s1);
    GoOn(here + [s1], loops, true, s2);
    GoOn(here + [s1] + [s2], loops, true, s3);
    GoOn(here + [s1] + [s2] + [s3], loops, true, s4);
    GoOn(here + [s1] + [s2] + [s3] + [s4], loops, true, s5);
    assert Active(s5.procs[m]);
    NotFinal(tr, loops, k, here + [s1] + [s2] + [s3] + [s4] + [s5]);
  }

  /** Over every run, overlapping or not: a Stop that comes out of Wait is final if and only
      if Start has by then installed its context and launched all its loops. */
  lemma FinalExactly(tr: seq<State>, loops: nat, k: nat, j: nat)
    requires Run(tr, loops, true) && k + 1 < |tr| && LeavesWait(tr[k], tr[k + 1], j)
    ensures FinalAfter(tr, loops, k) <==> tr[k].procs[0] == StartReturned || tr[k].procs[0] == StartLaunching(0)
  {
    RunKeepsBase(tr, loops, k);
    OutOfWait(tr[k], tr[k + 1], j);
    if !Launches(tr[k].procs[0]) {
      DoneIsFinal(tr, loops, k, j);
    } else {
      assert tr[k + 1].procs[0] == tr[k].procs[0];
      if tr[k].procs[0].StartCalled? {
        StartIsLeft(tr, loops, k, j);
      } else {
        LoopIsLeft(tr, loops, k);
      }
    }
  }

  // ------------------------------------------- the failing case is always there

  /** Start has released the mutex and has all its loops to launch when a Stop comes. */
  function OverlapRun(loops: nat): seq<State>
    requires loops > 0
  {
    [ Init(loops),
      State(NOBODY, Live, 0, [StartLaunching(loops)]),
      State(NOBODY, Live, 0, [StartLaunching(loops), StopCalled]),
      State(1, Live, 0, [StartLaunching(loops), StopLocked]),
      State(1, Ended, 0, [StartLaunching(loops), StopWaiting]),
      State(1, Ended, 0, [StartLaunching(loops), StopWaited]) ]
  }

  lemma OverlapSteps(loops: nat, k: nat)
    requires loops > 0 && k < |OverlapRun(loops)| - 1
    ensures Next(OverlapRun(loops)[k], OverlapRun(loops)[k + 1], true)
  {
    var s, t := OverlapRun(loops)[k], OverlapRun(loops)[k + 1];
    if k == 0 {
      assert StepOf(s, t, 0, Quietly(s, StartLaunching(loops)).(ctx := Live));
    } else if k == 1 {
      assert t == s.(procs := s.procs + [StopCalled]);
    } else if k == 2 {
      assert StepOf(s, t, 1, Quietly(s, StopLocked).(holder := 1));
    } else if k == 3 {
      assert StepOf(s, t, 1, Quietly(s, StopWaiting).(ctx := Ended));
    } else {
      assert StepOf(s, t, 1, Quietly(s, StopWaited));
    }
  }

  /** However many loops there are to launch, a Stop that overlaps Start can come out of Wait
      too early to be final. */
  lemma OverlappingStopIsNotFinal(loops: nat)
    requires loops > 0
    ensures Run(OverlapRun(loops), loops, true)
    ensures LeavesWait(OverlapRun(loops)[4], OverlapRun(loops)[5], 1) && !FinalAfter(OverlapRun(loops), loops, 4)
  {
    var tr := OverlapRun(loops);
    forall k | 0 <= k < |tr| - 1 ensures Next(tr[k], tr[k + 1], true) {
      OverlapSteps(loops, k);
    }
    FinalExactly(tr, loops, 4, 1);
  }

  // ------------------------------------------------------ a Stop can finish

  /** The steps a process has to take before the counter no longer counts it, or what it
      launches, once the context has ended. */
  function Work(p: Process): nat {
    match p
    case LoopBody(_) => 3
    case LoopJobs(_, _) => 2
    case LoopAdding(_, _) => 4
    case LoopSelect(_) => 1
    case JobRunning => 1
    case FnRunning => 1
    case OnceUnlocked => 2
    case _ => 0
  }

  function AllWork(procs: seq<Process>): nat {
    Total(procs, Work)
  }

  /** The step that brings a counted process nearer to its end. */
  function Onward(s: State, p: Process): Effect
    requires Work(p) > 0
  {
    match p
    case LoopBody(jobs) => Quietly(s, LoopJobs(jobs, 0))
    case LoopJobs(jobs, _) => Quietly(s, LoopSelect(jobs))
    case LoopAdding(jobs, next) => Quietly(s, LoopJobs(jobs, next + 1)).(launched := [JobRunning], wg := s.wg + 1)
    case LoopSelect(_) => Quietly(s, LoopExited).(wg := s.wg - 1)
    case JobRunning => Quietly(s, JobExited).(wg := s.wg - 1)
    case FnRunning => Quietly(s, FnExited).(wg := s.wg - 1)
    case OnceUnlocked => Quietly(s, OnceLaunched(|s.procs|)).(launched := [FnRunning])
  }

  lemma OnwardDoes(s: State, i: nat, p: Process)
    requires Work(p) > 0 && s.ctx == Ended
    ensures Does(s, i, p, Onward(s, p))
    ensures Work(Onward(s, p).next) + AllWork(Onward(s, p).launched) < Work(p) && |Onward(s, p).launched| <= 1
  {
    TotalOne(JobRunning, Work);
    TotalOne(FnRunning, Work);
  }

  lemma {:induction false} SomeoneCounts(procs: seq<Process>) returns (i: nat)
    requires Load(procs) > 0
    ensures i < |procs| && Weight(procs[i]) > 0
  {
    if Weight(procs[0]) > 0 {
      i := 0;
    } else {
      i := SomeoneCounts(procs[1..]);
      i := i + 1;
    }
  }

  lemma OnwardLessens(s: State, i: nat)
    requires i < |s.procs| && Work(s.procs[i]) > 0 && s.ctx == Ended
    ensures AllWork(After(s, i, Onward(s, s.procs[i])).procs) < AllWork(s.procs)
  {
    OnwardDoes(s, i, s.procs[i]);
    TotalStep(s, i, Onward(s, s.procs[i]), Work);
  }

  /** Before there is a context nothing is counted, and nobody is past the check. */
  ghost predicate IdleUnset(s: State) {
    s.ctx == Unset ==> s.wg == 0 && forall i :: 0 <= i < |s.procs| ==> !s.procs[i].OnceChecked?
  }

  lemma UnsetStep(s: State, i: nat, p: Process, e: Effect)
    requires Does(s, i, p, e) && Weight(p) == 0 && !p.OnceChecked? && !p.StartLaunching? && s.ctx == Unset && e.ctx == Unset
    ensures e.wg == s.wg && e.launched == [] && !e.next.OnceChecked?
  {
  }

  lemma NextKeepsIdle(s: State, t: State)
    requires Base(s) && IdleUnset(s) && Next(s, t, true)
    ensures IdleUnset(t)
  {
    if !Arrival(s, t, true) {
      var i: nat, e :| StepOf(s, t, i, e);
      DoesIsLocal(s, i, s.procs[i], e);
      if t.ctx == Unset {
        LoadZero(s.procs, i);
        UnsetStep(s, i, s.procs[i], e);
        assert t.procs == s.procs[i := e.next];
      }
    }
  }

  lemma {:induction false} RunKeepsIdle(tr: seq<State>, loops: nat, k: nat)
    requires Run(tr, loops, true) && k < |tr|
    ensures IdleUnset(tr[k])
  {
    if k > 0 {
      RunKeepsIdle(tr, loops, k - 1);
      RunKeepsBase(tr, loops, k - 1);
      NextKeepsIdle(tr[k - 1], tr[k]);
    }
  }

  lemma StricterRun(tr: seq<State>, loops: nat, overlap: bool)
    requires Run(tr, loops, overlap)
    ensures Run(tr, loops, true)
  {
  }

  lemma WaitedFor(s: State, j: nat, i: nat)
    requires Base(s) && IdleUnset(s) && At(s, j, StopWaiting) && s.wg > 0 && i < |s.procs| && Weight(s.procs[i]) > 0
    ensures s.ctx == Ended && Work(s.procs[i]) > 0 && i != j
  {
    assert Inside(s.procs[j]);
  }

  /** Wherever a Stop is in Wait, overlapping Start or not, the run can go on until that Stop
      has returned: nothing it waits for needs the mutex it holds. */
  lemma {:induction false} StopCanFinish(tr: seq<State>, loops: nat, overlap: bool, j: nat) returns (run: seq<State>)
    requires Run(tr, loops, overlap) && At(tr[|tr| - 1], j, StopWaiting)
    ensures Run(run, loops, overlap) && tr <= run && At(run[|run| - 1], j, StopReturned)
    decreases AllWork(tr[|tr| - 1].procs)
  {
    if tr[|tr| - 1].wg == 0 {
      run := ReturnNow(tr, loops, overlap, j);
    } else {
      var t := OneLess(tr, loops, overlap, j);
      run := StopCanFinish(tr + [t], loops, overlap, j);
    }
  }

  /** While the counter is not zero, someone it counts can move on, and the Stop waits on. */
  lemma OneLess(tr: seq<State>, loops: nat, overlap: bool, j: nat) returns (t: State)
    requires Run(tr, loops, overlap) && At(tr[|tr| - 1], j, StopWaiting) && tr[|tr| - 1].wg != 0
    ensures Run(tr + [t], loops, overlap) && At(t, j, StopWaiting) && AllWork(t.procs) < AllWork(tr[|tr| - 1].procs)
  {
    var s := tr[|tr| - 1];
    StricterRun(tr, loops, overlap);
    RunKeepsBase(tr, loops, |tr| - 1);
    RunKeepsIdle(tr, loops, |tr| - 1);
    var i := SomeoneCounts(s.procs);
    WaitedFor(s, j, i);
    OnwardDoes(s, i, s.procs[i]);
    Steps(s, i, Onward(s, s.procs[i]), overlap);
    OnwardLessens(s, i);
    t := After(s, i, Onward(s, s.procs[i]));
    GoOn(tr, loops, overlap, t);
  }

  lemma ReturnNow(tr: seq<State>, loops: nat, overlap: bool, j: nat) returns (run: seq<State>)
    requires Run(tr, loops, overlap) && At(tr[|tr| - 1], j, StopWaiting) && tr[|tr| - 1].wg == 0
    ensures Run(run, loops, overlap) && tr <= run && At(run[|run| - 1], j, StopReturned)
  {
    var s := tr[|tr| - 1];
    var s1 := After(s, j, Quietly(s, StopWaited));
    var s2 := After(s1, j, Quietly(s1, StopReturned).(holder := NOBODY));
    Steps(s, j, Quietly(s, StopWaited), overlap);
    Steps(s1, j, Quietly(s1, StopReturned).(holder := NOBODY), overlap);
    GoOn(tr, loops, overlap, s1);
    GoOn(tr + [s1], loops, overlap, s2);
    run := tr + [s1] + [s2];
  }
}
