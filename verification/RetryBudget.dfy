/** How many times a scheduled publish is attempted before its firing is given up on.
    A firing that is given up on is marked served in the run log, which may refuse. */
module RetryBudget {
  import opened Options

  const MAX_ATTEMPTS := 3

  /** The failures counted against one pipeline, whether they were too many, and the last
      fault reported. */
  datatype Budget = Budget(count: nat, gaveUp: bool, reported: string)

  const FRESH := Budget(0, false, "")

  /** How one run of a pipeline came out. `NotRun` is a pipeline that was not due, or
      whose firing another replica owns. */
  datatype Outcome = Succeeded | Transient | Permanent(fault: string) | NotRun

  /** One run: the pipeline's key, whether the sweep's own context had ended when the outcome
      was recorded, whether it had by the time the sweep looks again, and whether the run log
      would take a mark. */
  datatype Event = Event(key: string, outcome: Outcome, ctxEnded: bool, endsAfter: bool, logTakes: bool)

  /** Runs that reach the budget at all. */
  predicate Counts(e: Event) {
    e.key != "" && !e.ctxEnded && !e.outcome.NotRun?
  }

  /** The budget a failure is charged to: a failure after a give-up starts a new one. */
  function Current(b: Option<Budget>): Budget {
    if b.None? || b.value.gaveUp then FRESH else b.value
  }

  /** Whether this run asks the log to mark the firing served. */
  predicate Attempts(b: Option<Budget>, e: Event) {
    Counts(e) && e.outcome.Transient? && Current(b).count + 1 >= MAX_ATTEMPTS
  }

  /** Whether this run reports a broken pipeline: once for each distinct fault. */
  predicate Says(b: Option<Budget>, e: Event) {
    Counts(e) && e.outcome.Permanent? && Current(b).reported != e.outcome.fault
  }

  function Charge(b: Option<Budget>, e: Event, hasLog: bool): Option<Budget> {
    if !Counts(e) then b
    else match e.outcome
      case Succeeded => None
      case Permanent(fault) => Some(Current(b).(reported := fault))
      case Transient =>
        var count := Current(b).count + 1;
        Some(Current(b).(count := count, gaveUp := count >= MAX_ATTEMPTS && (!hasLog || e.logTakes)))
      case NotRun => b
  }

  function Of(failures: map<string, Budget>, key: string): Option<Budget> {
    if key in failures then Some(failures[key]) else None
  }

  function Put(failures: map<string, Budget>, key: string, b: Option<Budget>): map<string, Budget> {
    if b.Some? then failures[key := b.value] else failures - {key}
  }

  function Charged(failures: map<string, Budget>, e: Event, hasLog: bool): map<string, Budget> {
    Put(failures, e.key, Charge(Of(failures, e.key), e, hasLog))
  }

  /** The budgets after a history of runs. */
  function Failures(h: seq<Event>, hasLog: bool): map<string, Budget> {
    ChargeAll(map[], h, hasLog)
  }

  function ChargeAll(failures: map<string, Budget>, h: seq<Event>, hasLog: bool): map<string, Budget> {
    if h == [] then failures
    else Charged(ChargeAll(failures, h[..|h| - 1], hasLog), h[|h| - 1], hasLog)
  }

  /** A sweep goes on with the history: what holds of every history holds across sweeps. */
  lemma {:induction false} SweepsContinue(h: seq<Event>, swept: seq<Event>, hasLog: bool)
    ensures ChargeAll(Failures(h, hasLog), swept, hasLog) == Failures(h + swept, hasLog)
  {
    if swept == [] {
      assert h + swept == h;
    } else {
      SweepsContinue(h, swept[..|swept| - 1], hasLog);
      assert (h + swept)[..|h + swept| - 1] == h + swept[..|swept| - 1];
    }
  }

  class PublishSweep {
    var failures: map<string, Budget>
    const hasLog: bool

    constructor (hasLog: bool)
      ensures failures == Failures([], hasLog) && this.hasLog == hasLog
    {
      failures := map[];
      this.hasLog := hasLog;
    }

    /** Records the outcome of one run. `marks` is a mark asked of the log, `says` a
        broken pipeline reported to the operator. */
    method AfterRun(e: Event) returns (marks: bool, says: bool)
      requires !e.outcome.NotRun?
      modifies this`failures
      ensures failures == Charged(old(failures), e, hasLog)
      ensures marks <==> hasLog && Attempts(Of(old(failures), e.key), e)
      ensures says <==> Says(Of(old(failures), e.key), e)
    {
      marks, says := false, false;
      if e.key == "" || e.ctxEnded {
        assert Put(failures, e.key, Of(failures, e.key)) == failures;
        return;
      }
      if e.outcome.Succeeded? {
        failures := failures - {e.key};
        return;
      }
      var budget := FRESH;
      if e.key in failures && !failures[e.key].gaveUp {
        budget := failures[e.key];
      }
      if e.outcome.Permanent? {
        if budget.reported != e.outcome.fault {
          budget := budget.(reported := e.outcome.fault);
          says := true;
        }
        failures := failures[e.key := budget];
        return;
      }
      budget := budget.(count := budget.count + 1);
      failures := failures[e.key := budget];
      if budget.count < MAX_ATTEMPTS {
        return;
      }
      if hasLog {
        marks := true;
        if !e.logTakes {
          return;
        }
      }
      failures := failures[e.key := budget.(gaveUp := true)];
    }

    /** One sweep over what discovery found. A failure of one pipeline never stops the
        next; only the sweep's own context ending does. */
    method Tick(targets: seq<Event>) returns (ran: nat)
      modifies this`failures
      ensures ran <= |targets|
      ensures failures == ChargeAll(old(failures), targets[..ran], hasLog)
      ensures ran < |targets| ==> ran > 0 && StopsSweep(targets[ran - 1])
      ensures forall i :: 0 <= i < ran - 1 ==> !StopsSweep(targets[i])
    {
      ran := 0;
      assert targets[..0] == [];
      while ran < |targets|
        invariant ran <= |targets|
        invariant failures == ChargeAll(old(failures), targets[..ran], hasLog)
        invariant forall i :: 0 <= i < ran ==> !StopsSweep(targets[i])
      {
        var e := targets[ran];
        if e.outcome.NotRun? {
          assert Put(failures, e.key, Of(failures, e.key)) == failures;
        } else {
          var _, _ := AfterRun(e);
        }
        assert targets[..ran + 1][..ran] == targets[..ran];
        ran := ran + 1;
        if StopsSweep(e) {
          return;
        }
      }
    }
  }

  predicate StopsSweep(e: Event) {
    (e.ctxEnded || e.endsAfter) && (e.outcome.Transient? || e.outcome.Permanent?)
  }

  // -------------------------------------------------------- read off the history

  /** The run is one of this pipeline, which has a name, and the sweep was not ending. */
  predicate Bears(e: Event, key: string) {
    e.key == key && key != "" && !e.ctxEnded
  }

  /** Transient failures of one pipeline since its last success or the last firing of its
      that was given up on, counted from the history alone. */
  function Spent(h: seq<Event>, key: string, hasLog: bool): nat {
    if h == [] then 0
    else
      var before, e := Spent(h[..|h| - 1], key, hasLog), h[|h| - 1];
      if !Bears(e, key) then before
      else match e.outcome
        case Succeeded => 0
        case Transient => if before + 1 >= 3 && (!hasLog || e.logTakes) then 0 else before + 1
        case _ => before
  }

  /** Transient failures of one pipeline since its last success. */
  function Streak(h: seq<Event>, key: string): nat {
    if h == [] then 0
    else
      var before, e := Streak(h[..|h| - 1], key), h[|h| - 1];
      if !Bears(e, key) then before
      else if e.outcome.Succeeded? then 0
      else if e.outcome.Transient? then before + 1
      else before
  }

  lemma {:induction false} BudgetTellsSpent(h: seq<Event>, key: string, hasLog: bool)
    ensures Current(Of(Failures(h, hasLog), key)).count == Spent(h, key, hasLog)
    ensures key == "" ==> key !in Failures(h, hasLog)
  {
    if h != [] {
      BudgetTellsSpent(h[..|h| - 1], key, hasLog);
    }
  }

  /** Over every history, the next run asks for the mark exactly if it is a transient
      failure and at least the third since the last success or give-up. So a permanent
      fault never marks, and a mark the log refused is asked for again by each later
      transient failure. */
  lemma MarksExactly(h: seq<Event>, e: Event, hasLog: bool)
    ensures Attempts(Of(Failures(h, hasLog), e.key), e)
       <==> Bears(e, e.key) && e.outcome.Transient? && Spent(h, e.key, hasLog) + 1 >= 3
  {
    BudgetTellsSpent(h, e.key, hasLog);
  }

  ghost predicate LogTakesAll(h: seq<Event>) {
    forall i :: 0 <= i < |h| ==> h[i].logTakes
  }

  lemma {:induction false} SpentIsStreak(h: seq<Event>, key: string, hasLog: bool)
    requires LogTakesAll(h)
    ensures Spent(h, key, hasLog) == Streak(h, key) % 3
  {
    if h != [] {
      SpentIsStreak(h[..|h| - 1], key, hasLog);
    }
  }

  /** With a log that takes every mark, a firing is marked served on exactly every third
      transient failure since the last success. */
  lemma EveryThird(h: seq<Event>, e: Event, hasLog: bool)
    requires LogTakesAll(h)
    ensures Attempts(Of(Failures(h, hasLog), e.key), e)
       <==> Bears(e, e.key) && e.outcome.Transient? && Streak(h + [e], e.key) % 3 == 0
  {
    MarksExactly(h, e, hasLog);
    SpentIsStreak(h, e.key, hasLog);
    assert (h + [e])[..|h|] == h;
  }

  /** A refused mark leaves the budget where every later transient failure asks again,
      whatever else happens, until a mark is taken or a run succeeds. */
  lemma {:induction false} RefusedIsRetried(h: seq<Event>, later: seq<Event>, e: Event)
    requires Spent(h, e.key, true) >= MAX_ATTEMPTS
    requires forall i :: 0 <= i < |later| && later[i].key == e.key ==> !later[i].outcome.Succeeded? && !later[i].logTakes
    requires Counts(e) && e.outcome.Transient?
    ensures Attempts(Of(Failures(h + later, true), e.key), e)
  {
    StillSpent(h, later, e.key);
    MarksExactly(h + later, e, true);
  }

  lemma {:induction false} StillSpent(h: seq<Event>, later: seq<Event>, key: string)
    requires Spent(h, key, true) >= MAX_ATTEMPTS
    requires forall i :: 0 <= i < |later| && later[i].key == key ==> !later[i].outcome.Succeeded? && !later[i].logTakes
    ensures Spent(h + later, key, true) >= MAX_ATTEMPTS
  {
    if later == [] {
      assert h + later == h;
    } else {
      StillSpent(h, later[..|later| - 1], key);
      assert (h + later)[..|h + later| - 1] == h + later[..|later| - 1];
    }
  }

  function Only(h: seq<Event>, key: string): seq<Event> {
    if h == [] then []
    else if h[|h| - 1].key == key then Only(h[..|h| - 1], key) + [h[|h| - 1]]
    else Only(h[..|h| - 1], key)
  }

  /** Pipelines never touch each other's budgets: what a pipeline has spent is what it
      would have spent alone. */
  lemma {:induction false} PipelinesAreIndependent(h: seq<Event>, key: string, hasLog: bool)
    ensures Of(Failures(h, hasLog), key) == Of(Failures(Only(h, key), hasLog), key)
  {
    if h != [] {
      var before, e := h[..|h| - 1], h[|h| - 1];
      PipelinesAreIndependent(before, key, hasLog);
      ChargedTouchesOwn(Failures(before, hasLog), e, hasLog, key);
      if e.key == key {
        assert (Only(before, key) + [e])[..|Only(before, key)|] == Only(before, key);
        ChargedTouchesOwn(Failures(Only(before, key), hasLog), e, hasLog, key);
      }
    }
  }

  lemma ChargedTouchesOwn(failures: map<string, Budget>, e: Event, hasLog: bool, key: string)
    ensures Of(Charged(failures, e, hasLog), key)
         == if e.key == key then Charge(Of(failures, key), e, hasLog) else Of(failures, key)
  {
  }

  // ------------------------------------------------------------ what is reported

  /** The fault last reported of a pipeline since its last success or give-up, read off the
      history. */
  function LastFault(h: seq<Event>, key: string, hasLog: bool): string {
    if h == [] then ""
    else
      var before, e := h[..|h| - 1], h[|h| - 1];
      if !Bears(e, key) then LastFault(before, key, hasLog)
      else match e.outcome
        case Succeeded => ""
        case Permanent(fault) => fault
        case Transient => if Spent(before, key, hasLog) + 1 >= 3 && (!hasLog || e.logTakes) then "" else LastFault(before, key, hasLog)
        case NotRun => LastFault(before, key, hasLog)
  }

  lemma {:induction false} BudgetTellsFault(h: seq<Event>, key: string, hasLog: bool)
    ensures Current(Of(Failures(h, hasLog), key)).reported == LastFault(h, key, hasLog)
  {
    if h != [] {
      var before, e := h[..|h| - 1], h[|h| - 1];
      BudgetTellsFault(before, key, hasLog);
      BudgetTellsSpent(before, key, hasLog);
      ChargedTouchesOwn(Failures(before, hasLog), e, hasLog, key);
    }
  }

  /** Over every history, a run reports a fault exactly if it fails permanently with another
      fault than the one last reported. */
  lemma SaysExactly(h: seq<Event>, e: Event, hasLog: bool)
    ensures Says(Of(Failures(h, hasLog), e.key), e)
       <==> Bears(e, e.key) && e.outcome.Permanent? && e.outcome.fault != LastFault(h, e.key, hasLog)
  {
    BudgetTellsFault(h, e.key, hasLog);
  }

  /** A fault that goes on is said once: after a run with it, no later run with it says it
      again, while nothing else comes of the pipeline. */
  lemma {:induction false} SaidOnce(h: seq<Event>, e: Event, later: seq<Event>, again: Event, hasLog: bool)
    requires Bears(e, e.key) && e.outcome.Permanent? && again.key == e.key && again.outcome == e.outcome
    requires forall i :: 0 <= i < |later| && Bears(later[i], e.key) ==> later[i].outcome == e.outcome || later[i].outcome.NotRun?
    ensures !Says(Of(Failures(h + [e] + later, hasLog), e.key), again)
  {
    StillSaid(h, e, later, hasLog);
    SaysExactly(h + [e] + later, again, hasLog);
  }

  lemma {:induction false} StillSaid(h: seq<Event>, e: Event, later: seq<Event>, hasLog: bool)
    requires Bears(e, e.key) && e.outcome.Permanent?
    requires forall i :: 0 <= i < |later| && Bears(later[i], e.key) ==> later[i].outcome == e.outcome || later[i].outcome.NotRun?
    ensures LastFault(h + [e] + later, e.key, hasLog) == e.outcome.fault
  {
    if later == [] {
      assert h + [e] + later == h + [e] && (h + [e])[..|h|] == h;
    } else {
      var all := h + [e] + later;
      StillSaid(h, e, later[..|later| - 1], hasLog);
      assert all[..|all| - 1] == h + [e] + later[..|later| - 1] && all[|all| - 1] == later[|later| - 1];
    }
  }
}
