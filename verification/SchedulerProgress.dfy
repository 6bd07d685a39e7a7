/** What the scheduler does while it runs: Start launches all its loops, a loop ticks for as
    long as the context lives and launches every after-sync job on each round, and a RunOnce
    gets its function running exactly if no Stop has come before it. */
module SchedulerProgress {
  import opened Scheduler
  import opened SchedulerOverlap

  // ------------------------------------------------------------------- Start

  predicate IsLoop(p: Process) {
    p.LoopBody? || p.LoopJobs? || p.LoopAdding? || p.LoopSelect? || p.LoopExited?
  }

  /** A loop, or a loop that Start still has to launch. */
  function LoopShare(p: Process): nat {
    if IsLoop(p) then 1 else if Starting(p) then p.loops else 0
  }

  lemma StepKeepsShare(s: State, i: nat, p: Process, e: Effect)
    requires Does(s, i, p, e)
    ensures LoopShare(e.next) + Total(e.launched, LoopShare) == LoopShare(p) && |e.launched| <= 1
  {
    if e.launched != [] {
      assert e.launched == [e.launched[0]];
      TotalOne(e.launched[0], LoopShare);
    }
  }

  /** At every moment of every run, the loops there are and the loops Start has still to launch
      are as many as it was to launch: when it has returned, all of them are there. */
  lemma {:induction false} StartLaunchesAll(tr: seq<State>, loops: nat, overlap: bool, k: nat)
    requires Run(tr, loops, overlap) && k < |tr|
    ensures Total(tr[k].procs, LoopShare) == loops
  {
    if k == 0 {
      TotalOne(StartCalled(loops), LoopShare);
    } else {
      StartLaunchesAll(tr, loops, overlap, k - 1);
      var s, t := tr[k - 1], tr[k];
      assert Next(tr[k - 1], tr[k - 1 + 1], overlap);
      if Arrival(s, t, overlap) {
        TotalSpawn(s.procs, LoopShare, OnceCalled);
        TotalSpawn(s.procs, LoopShare, StopCalled);
      } else {
        var i: nat, e :| StepOf(s, t, i, e);
        StepKeepsShare(s, i, s.procs[i], e);
        TotalStep(s, i, e, LoopShare);
      }
    }
  }

  // ------------------------------------------------------------------- loops

  /** A loop exits only once the context has ended. */
  ghost predicate LoopsLast(s: State) {
    s.ctx != Ended ==> forall i :: 0 <= i < |s.procs| ==> !s.procs[i].LoopExited?
  }

  lemma {:induction false} LoopsLastWhileLive(tr: seq<State>, loops: nat, overlap: bool, k: nat)
    requires Run(tr, loops, overlap) && k < |tr|
    ensures LoopsLast(tr[k])
  {
    if k > 0 {
      LoopsLastWhileLive(tr, loops, overlap, k - 1);
      StricterRun(tr, loops, overlap);
      RunKeepsBase(tr, loops, k - 1);
      assert Next(tr[k - 1], tr[k - 1 + 1], overlap);
      NextKeepsLast(tr[k - 1], tr[k], overlap);
    }
  }

  lemma NextKeepsLast(s: State, t: State, overlap: bool)
    requires Base(s) && LoopsLast(s) && Next(s, t, overlap)
    ensures LoopsLast(t)
  {
    if t.ctx != Ended && !Arrival(s, t, overlap) {
      var i: nat, e :| StepOf(s, t, i, e);
      DoesIsLocal(s, i, s.procs[i], e);
      ExitsOnlyEnded(s, i, s.procs[i], e);
    }
  }

  lemma ExitsOnlyEnded(s: State, i: nat, p: Process, e: Effect)
    requires Does(s, i, p, e) && !p.LoopExited?
    ensures e.next.LoopExited? ==> s.ctx == Ended
  {
  }

  /** The last state of a run differs from an earlier one only in process i, in the counter and
      in processes that were launched. */
  ghost predicate OnlyRan(s: State, t: State, i: nat) {
    && |s.procs| <= |t.procs| && t.ctx == s.ctx && t.holder == s.holder
    && forall k :: 0 <= k < |s.procs| && k != i ==> t.procs[k] == s.procs[k]
  }

  ghost predicate AllRunning(s: State, from: nat) {
    forall k :: from <= k < |s.procs| ==> s.procs[k] == JobRunning
  }

  /** In a live context a loop that is at its jobs can launch every one that is left, each as a
      running job, and come to its select. */
  lemma {:induction false} LaunchesEveryJob(tr: seq<State>, loops: nat, overlap: bool, i: nat) returns (run: seq<State>)
    requires Run(tr, loops, overlap) && i < |tr[|tr| - 1].procs| && tr[|tr| - 1].ctx == Live
    requires tr[|tr| - 1].procs[i].LoopJobs? && tr[|tr| - 1].procs[i].next <= tr[|tr| - 1].procs[i].jobs
    ensures Run(run, loops, overlap) && tr <= run
    ensures var s, t := tr[|tr| - 1], run[|run| - 1];
            && OnlyRan(s, t, i) && At(t, i, LoopSelect(s.procs[i].jobs))
            && |t.procs| == |s.procs| + s.procs[i].jobs - s.procs[i].next && AllRunning(t, |s.procs|)
    decreases tr[|tr| - 1].procs[i].jobs - tr[|tr| - 1].procs[i].next
  {
    var s := tr[|tr| - 1];
    var jobs, next := s.procs[i].jobs, s.procs[i].next;
    if next == jobs {
      var e := Quietly(s, LoopSelect(jobs));
      Steps(s, i, e, overlap);
      GoOn(tr, loops, overlap, After(s, i, e));
      run := tr + [After(s, i, e)];
    } else {
      var e := Quietly(s, LoopAdding(jobs, next));
      var s1 := After(s, i, e);
      var e1 := Quietly(s1, LoopJobs(jobs, next + 1)).(launched := [JobRunning], wg := s1.wg + 1);
      var s2 := After(s1, i, e1);
      Steps(s, i, e, overlap);
      Steps(s1, i, e1, overlap);
      GoOn(tr, loops, overlap, s1);
      GoOn(tr + [s1], loops, overlap, s2);
      run := LaunchesEveryJob(tr + [s1] + [s2], loops, overlap, i);
    }
  }

  /** In a live context a loop at its body comes round to its body again, having launched every
      one of its jobs in between, whatever anyone else is doing. */
  lemma LoopComesRound(tr: seq<State>, loops: nat, overlap: bool, i: nat) returns (run: seq<State>)
    requires Run(tr, loops, overlap) && i < |tr[|tr| - 1].procs| && tr[|tr| - 1].ctx == Live && tr[|tr| - 1].procs[i].LoopBody?
    ensures Run(run, loops, overlap) && tr <= run && |run| > |tr|
    ensures var s, t := tr[|tr| - 1], run[|run| - 1];
            OnlyRan(s, t, i) && t.procs[i] == s.procs[i] && |t.procs| == |s.procs| + s.procs[i].jobs && AllRunning(t, |s.procs|)
  {
    var s := tr[|tr| - 1];
    var e := Quietly(s, LoopJobs(s.procs[i].jobs, 0));
    Steps(s, i, e, overlap);
    GoOn(tr, loops, overlap, After(s, i, e));
    run := LaunchesEveryJob(tr + [After(s, i, e)], loops, overlap, i);
    run := Ticks(run, loops, overlap, i);
  }

  /** In a live context a loop that waits can tick. */
  lemma Ticks(tr: seq<State>, loops: nat, overlap: bool, i: nat) returns (run: seq<State>)
    requires Run(tr, loops, overlap) && i < |tr[|tr| - 1].procs| && tr[|tr| - 1].ctx == Live && tr[|tr| - 1].procs[i].LoopSelect?
    ensures Run(run, loops, overlap) && tr <= run
    ensures var s, t := tr[|tr| - 1], run[|run| - 1];
            OnlyRan(s, t, i) && |t.procs| == |s.procs| && At(t, i, LoopBody(s.procs[i].jobs))
  {
    var s := tr[|tr| - 1];
    var e := Quietly(s, LoopBody(s.procs[i].jobs));
    Steps(s, i, e, overlap);
    GoOn(tr, loops, overlap, After(s, i, e));
    run := tr + [After(s, i, e)];
  }

  /** And that is all it can do: while the context lives, no step takes a waiting loop anywhere
      but to its body. */
  lemma WaitsForTheTick(s: State, t: State, i: nat, e: Effect)
    requires StepOf(s, t, i, e) && s.ctx == Live && s.procs[i].LoopSelect?
    ensures At(t, i, LoopBody(s.procs[i].jobs)) && |t.procs| == |s.procs|
  {
  }

  // ----------------------------------------------------------------- RunOnce

  /** A RunOnce answers false only where it found no live context under the mutex. */
  lemma RefusesOnlyUnlessLive(s: State, t: State, i: nat, e: Effect, f: nat)
    requires StepOf(s, t, i, e) && e.next == OnceAnswered(false, f)
    ensures s.procs[i] == OnceLocked && s.ctx != Live
  {
  }

  /** Nobody can get a function running any more: the context has ended, or the Stop that will
      end it holds the mutex. */
  predicate TooLate(s: State) {
    s.ctx == Ended || (s.ctx == Live && 0 <= s.holder < |s.procs| && s.procs[s.holder] == StopLocked)
  }

  ghost predicate NotYet(s: State, i: nat) {
    i < |s.procs| && (s.procs[i] == OnceCalled || (s.ctx == Ended && (s.procs[i] == OnceLocked || s.procs[i] == OnceAnswered(false, 0))))
  }

  lemma StaysTooLate(s: State, t: State, i: nat, overlap: bool)
    requires Base(s) && TooLate(s) && NotYet(s, i) && Next(s, t, overlap)
    ensures TooLate(t) && NotYet(t, i)
  {
    if !Arrival(s, t, overlap) {
      var j: nat, e :| StepOf(s, t, j, e);
      LateStep(s, j, s.procs[j], e);
    }
  }

  lemma LateStep(s: State, j: nat, p: Process, e: Effect)
    requires j < |s.procs| && s.procs[j] == p && Does(s, j, p, e) && TooLate(s)
    requires (Inside(p) <==> s.holder == j) && (p.StartCalled? ==> s.ctx == Unset)
    ensures s.ctx == Ended ==> e.ctx == Ended
    ensures s.ctx == Live ==> (e.ctx == Live && e.holder == s.holder && s.holder != j) || e.ctx == Ended
    ensures p == OnceCalled ==> s.ctx == Ended && e.next == OnceLocked
    ensures p == OnceLocked && s.ctx == Ended ==> e.next == OnceAnswered(false, 0)
    ensures !p.OnceAnswered?
  {
  }

  lemma StepAt(run: seq<State>, loops: nat, overlap: bool, k: nat)
    requires Run(run, loops, overlap) && k + 1 < |run|
    ensures Base(run[k]) && Next(run[k], run[k + 1], overlap)
  {
    StricterRun(run, loops, overlap);
    RunKeepsBase(run, loops, k);
  }

  lemma LateAt(run: seq<State>, loops: nat, overlap: bool, k: nat, i: nat)
    requires Run(run, loops, overlap) && k + 1 < |run| && TooLate(run[k]) && NotYet(run[k], i)
    ensures TooLate(run[k + 1]) && NotYet(run[k + 1], i)
  {
    StepAt(run, loops, overlap, k);
    StaysTooLate(run[k], run[k + 1], i, overlap);
  }

  lemma {:induction false} NeverAfterwards(run: seq<State>, loops: nat, overlap: bool, from: nat, k: nat, i: nat)
    requires Run(run, loops, overlap) && from <= k < |run| && TooLate(run[from]) && NotYet(run[from], i)
    ensures TooLate(run[k]) && NotYet(run[k], i)
  {
    if from < k {
      NeverAfterwards(run, loops, overlap, from, k - 1, i);
      LateAt(run, loops, overlap, k - 1, i);
    }
  }

  /** The steps the holder of the mutex has left before it lets go. */
  function Held(p: Process): nat {
    match p
    case OnceLocked => 3
    case OnceChecked => 2
    case OnceAdded => 1
    case StopLocked => 3
    case StopWaiting => 2
    case StopWaited => 1
    case _ => 0
  }

  function HeldBy(s: State): nat {
    if 0 <= s.holder < |s.procs| then Held(s.procs[s.holder]) else 0
  }

  /** The holder's next step. */
  function LettingGo(s: State, p: Process): Effect
    requires Held(p) > 0
  {
    match p
    case OnceLocked => if s.ctx == Live then Quietly(s, OnceChecked) else Quietly(s, OnceAnswered(false, 0)).(holder := NOBODY)
    case OnceChecked => Quietly(s, OnceAdded).(wg := s.wg + 1)
    case OnceAdded => Quietly(s, OnceUnlocked).(holder := NOBODY)
    case StopLocked => Quietly(s, StopWaiting).(ctx := if s.ctx == Unset then Unset else Ended)
    case StopWaiting => Quietly(s, StopWaited)
    case StopWaited => Quietly(s, StopReturned).(holder := NOBODY)
  }

  lemma LetsGo(s: State, h: nat)
    requires Base(s) && IdleUnset(s) && h < |s.procs| && s.holder == h && s.ctx != Ended && !TooLate(s)
    ensures Held(s.procs[h]) > 0 && Does(s, h, s.procs[h], LettingGo(s, s.procs[h]))
    ensures var e := LettingGo(s, s.procs[h]);
            e.ctx == s.ctx && e.launched == [] && e.next != StopLocked && Held(e.next) < Held(s.procs[h])
  {
    assert Inside(s.procs[h]);
  }

  ghost predicate Waits(s: State, i: nat) {
    At(s, i, OnceCalled) && s.ctx != Ended && !TooLate(s)
  }

  /** While it is not too late, whoever holds the mutex can let go of it. */
  lemma {:induction false} FreeMutex(tr: seq<State>, loops: nat, overlap: bool, i: nat) returns (run: seq<State>)
    requires Run(tr, loops, overlap) && Waits(tr[|tr| - 1], i)
    ensures Run(run, loops, overlap) && tr <= run && Waits(run[|run| - 1], i) && run[|run| - 1].holder == NOBODY
    decreases HeldBy(tr[|tr| - 1])
  {
    var s := tr[|tr| - 1];
    StricterRun(tr, loops, overlap);
    RunKeepsBase(tr, loops, |tr| - 1);
    RunKeepsIdle(tr, loops, |tr| - 1);
    if s.holder == NOBODY {
      run := tr;
    } else {
      var h := s.holder;
      LetsGo(s, h);
      var t := After(s, h, LettingGo(s, s.procs[h]));
      assert Inside(s.procs[h]);
      Steps(s, h, LettingGo(s, s.procs[h]), overlap);
      GoOn(tr, loops, overlap, t);
      run := FreeMutex(tr + [t], loops, overlap, i);
    }
  }

  /** With the mutex free, a context there or about to be, a RunOnce gets through. */
  lemma ThroughNow(tr: seq<State>, loops: nat, overlap: bool, i: nat) returns (run: seq<State>, f: nat)
    requires Run(tr, loops, overlap) && At(tr[|tr| - 1], i, OnceCalled) && tr[|tr| - 1].ctx == Live && tr[|tr| - 1].holder == NOBODY
    ensures Run(run, loops, overlap) && tr <= run
    ensures At(run[|run| - 1], i, OnceAnswered(true, f)) && At(run[|run| - 1], f, FnRunning)
  {
    f := |tr[|tr| - 1].procs|;
    run := EntersNow(tr, loops, overlap, i);
    run := Advance(run, loops, overlap, i, Quietly(run[|run| - 1], OnceUnlocked).(holder := NOBODY));
    run := Advance(run, loops, overlap, i, Quietly(run[|run| - 1], OnceLaunched(f)).(launched := [FnRunning]));
    run := Advance(run, loops, overlap, i, Quietly(run[|run| - 1], OnceAnswered(true, f)));
  }

  lemma EntersNow(tr: seq<State>, loops: nat, overlap: bool, i: nat) returns (run: seq<State>)
    requires Run(tr, loops, overlap) && At(tr[|tr| - 1], i, OnceCalled) && tr[|tr| - 1].ctx == Live && tr[|tr| - 1].holder == NOBODY
    ensures Run(run, loops, overlap) && tr <= run && At(run[|run| - 1], i, OnceAdded)
    ensures |run[|run| - 1].procs| == |tr[|tr| - 1].procs|
  {
    run := Advance(tr, loops, overlap, i, Quietly(tr[|tr| - 1], OnceLocked).(holder := i));
    run := Advance(run, loops, overlap, i, Quietly(run[|run| - 1], OnceChecked));
    run := Advance(run, loops, overlap, i, Quietly(run[|run| - 1], OnceAdded).(wg := run[|run| - 1].wg + 1));
  }

  /** A run with one more step of one process. */
  lemma Advance(tr: seq<State>, loops: nat, overlap: bool, i: nat, e: Effect) returns (run: seq<State>)
    requires Run(tr, loops, overlap) && i < |tr[|tr| - 1].procs| && Does(tr[|tr| - 1], i, tr[|tr| - 1].procs[i], e)
    ensures Run(run, loops, overlap) && tr <= run && |run| == |tr| + 1 && run[|run| - 1] == After(tr[|tr| - 1], i, e)
  {
    Steps(tr[|tr| - 1], i, e, overlap);
    GoOn(tr, loops, overlap, After(tr[|tr| - 1], i, e));
    run := tr + [After(tr[|tr| - 1], i, e)];
  }

  /** A Start that has not installed its context can do so. */
  lemma InstallNow(tr: seq<State>, loops: nat, overlap: bool, i: nat) returns (run: seq<State>)
    requires Run(tr, loops, overlap) && At(tr[|tr| - 1], i, OnceCalled) && tr[|tr| - 1].ctx == Unset && tr[|tr| - 1].holder == NOBODY
    ensures Run(run, loops, overlap) && tr <= run
    ensures At(run[|run| - 1], i, OnceCalled) && run[|run| - 1].ctx == Live && run[|run| - 1].holder == NOBODY
  {
    var s := tr[|tr| - 1];
    StricterRun(tr, loops, overlap);
    RunKeepsBase(tr, loops, |tr| - 1);
    var e := Quietly(s, StartLaunching(s.procs[0].loops)).(ctx := Live);
    Steps(s, 0, e, overlap);
    GoOn(tr, loops, overlap, After(s, 0, e));
    run := tr + [After(s, 0, e)];
  }

  lemma GetsThrough(tr: seq<State>, loops: nat, overlap: bool, i: nat) returns (run: seq<State>, f: nat)
    requires Run(tr, loops, overlap) && At(tr[|tr| - 1], i, OnceCalled) && !TooLate(tr[|tr| - 1])
    ensures Run(run, loops, overlap) && tr <= run
    ensures At(run[|run| - 1], i, OnceAnswered(true, f)) && At(run[|run| - 1], f, FnRunning)
  {
    run := FreeMutex(tr, loops, overlap, i);
    if run[|run| - 1].ctx == Unset {
      run := InstallNow(run, loops, overlap, i);
    }
    run, f := ThroughNow(run, loops, overlap, i);
  }

  /** The run can go on until this RunOnce has answered true. */
  ghost predicate CanSucceed(tr: seq<State>, loops: nat, overlap: bool, i: nat) {
    exists run, f :: Run(run, loops, overlap) && tr <= run && At(run[|run| - 1], i, OnceAnswered(true, f))
  }

  /** Wherever a run stands, a RunOnce that has been called can still get its function running
      and answer true if and only if it is not too late. */
  lemma SucceedsExactly(tr: seq<State>, loops: nat, overlap: bool, i: nat)
    requires Run(tr, loops, overlap) && At(tr[|tr| - 1], i, OnceCalled)
    ensures CanSucceed(tr, loops, overlap, i) <==> !TooLate(tr[|tr| - 1])
  {
    if !TooLate(tr[|tr| - 1]) {
      var run, f := GetsThrough(tr, loops, overlap, i);
    } else if CanSucceed(tr, loops, overlap, i) {
      var run, f :| Run(run, loops, overlap) && tr <= run && At(run[|run| - 1], i, OnceAnswered(true, f));
      NeverAfterwards(run, loops, overlap, |tr| - 1, |run| - 1, i);
    }
  }

  // ----------------------------------------------------------- what may happen

  /** Nothing is ruled out of the runs: RunOnce may be called at any time, Stop as well where it
      may overlap Start or Start has returned, and the context Start was given may end. */
  lemma MayHappen(tr: seq<State>, loops: nat, overlap: bool)
    requires Run(tr, loops, overlap)
    ensures var s := tr[|tr| - 1];
            && Run(tr + [s.(procs := s.procs + [OnceCalled])], loops, overlap)
            && (overlap || StartReturned in s.procs ==> Run(tr + [s.(procs := s.procs + [StopCalled])], loops, overlap))
            && (s.ctx == Live ==> Run(tr + [s.(ctx := Ended)], loops, overlap))
  {
    var s := tr[|tr| - 1];
    GoOn(tr, loops, overlap, s.(procs := s.procs + [OnceCalled]));
    if overlap || StartReturned in s.procs {
      GoOn(tr, loops, overlap, s.(procs := s.procs + [StopCalled]));
    }
    if s.ctx == Live {
      GoOn(tr, loops, overlap, s.(ctx := Ended));
    }
  }
}
