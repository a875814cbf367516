/** When the uninterrupted run of a workflow comes to its end, and with which exit. */
module CompensationTermination {
  import opened Wrappers
  import opened CompensationRecords
  import opened CompensationProtocol
  import opened CompensationGuarantees
  import opened CompensationOperators
  import opened CompensationReplay

  /** How the handler exits under the oracle, and what it has registered by then. */
  function Fate(o: Oracle, at: Handler, registered: seq<StepId>): (Exit, seq<StepId>) {
    match at
    case Finish(exit) => (exit, registered)
    case Run(id, args, onSuccess, onFailure) =>
      match KindOfStep(args)
      case Dies => Fate(o, onFailure, registered)
      case kind =>
        if o.forward(id).Failed? then Fate(o, onFailure, registered)
        else Fate(o, onSuccess, if kind.Registers? then registered + [id] else registered)
  }

  predicate RollsBack(exit: Exit) {
    exit.Failure? && !HasInterruptsOnly(exit.cause)
  }

  /** Attempt `n` is the end of a step that gets there: it succeeds, or an operator stops it. */
  predicate EndsAt(o: Oracle, s: StepId, n: int) {
    n >= 1 && (o.undo(Key(s, n)).Succeeded? || o.decide(Key(s, n)).Stop?)
  }

  ghost predicate EventuallyEnds(o: Oracle, s: StepId) {
    exists n :: EndsAt(o, s, n)
  }

  /** If the handler's exit is rolled back, every registered step has an attempt that ends it. */
  ghost predicate RollbackCanEnd(h: Handler, o: Oracle) {
    var (exit, registered) := Fate(o, h, []);
    RollsBack(exit) ==> forall s :: s in registered ==> EventuallyEnds(o, s)
  }

  lemma {:induction false} ReplayKeepsFate(o: Oracle, at: Handler, registered: seq<StepId>, forward: map<StepId, Outcome>)
    requires forall s :: s in forward ==> forward[s] == o.forward(s)
    ensures var (at', registered') := Replay(at, registered, forward); Fate(o, at', registered') == Fate(o, at, registered)
  {
    if at.Run? {
      var registered' := if KindOfStep(at.args).Registers? then registered + [at.id] else registered;
      ReplayKeepsFate(o, at.onFailure, registered, forward);
      ReplayKeepsFate(o, at.onSuccess, registered', forward);
    }
  }

  /** What is rolled back is what the oracle's handler registered. */
  lemma RollbackIsFate(h: Handler, o: Oracle, d: Records, cause: Cause, plan: seq<StepId>)
    requires Conforms(o, d) && Rollback(h, d, cause, plan)
    ensures Fate(o, h, []).0 == Failure(cause) && RollsBack(Failure(cause))
    ensures forall s :: s in plan <==> s in Fate(o, h, []).1
  {
    ReplayKeepsFate(o, h, [], d.forward);
    ReverseMirrors(Replay(h, [], d.forward).1);
  }

  // --- The run ends ------------------------------------------------------------------

  /** The attempts up to `bound`, which ends the step the process is at. */
  ghost predicate Bounded(o: Oracle, p: Process, bound: int) {
    p.Compensating? && p.cursor < |p.plan| ==> p.attempt <= bound && EndsAt(o, p.plan[p.cursor], bound)
  }

  ghost function AttemptsLeft(p: Process, bound: int): nat {
    if p.Compensating? && p.attempt <= bound then bound - p.attempt else 0
  }

  ghost function Waits(d: Records, p: Process): nat {
    if !p.Compensating? then 0
    else
      match p.phase
      case Attempting => 3
      case Reporting => 2
      case Awaiting => if AwaitedKey(d, p).Some? then 1 else 0
  }

  /** The process stays at the same attempt of the same step. */
  predicate SameStep(p: Process, q: Process) {
    && p.Compensating? && q.Compensating? && p.plan == q.plan && p.cursor == q.cursor && p.attempt <= q.attempt
  }

  /** `q` over `d'` is closer than `p` over `d` to the exit. */
  ghost predicate Nearer(d: Records, p: Process, d': Records, q: Process, bound: int) {
    || Stage(q) < Stage(p)
    || (Stage(q) == Stage(p) &&
         (|| Remaining(q) < Remaining(p)
          || (Remaining(q) == Remaining(p) &&
               (|| StepsLeft(q) < StepsLeft(p)
                || (StepsLeft(q) == StepsLeft(p) && SameStep(p, q) && q.attempt <= bound &&
                     (|| AttemptsLeft(q, bound) < AttemptsLeft(p, bound)
                      || (AttemptsLeft(q, bound) == AttemptsLeft(p, bound) && Waits(d', q) < Waits(d, p))))))))
  }

  lemma TurnComesNearer(h: Handler, o: Oracle, s: Solo, bound: int)
    requires SoloSound(h, o, s) && s.exit.None? && SoloStep(o, s).exit.None?
    requires Bounded(o, s.process, bound)
    ensures Nearer(s.records, s.process, SoloStep(o, s).records, SoloStep(o, s).process, bound)
  {
    hide Coherent, PlanRecorded, Rollback, PrefixSettled, RetriedBefore;
  }

  /** The steps of a plan under way end. */
  lemma PlanSteps(h: Handler, o: Oracle, s: Solo, i: nat)
    requires SoloSound(h, o, s) && s.exit.None? && RollbackCanEnd(h, o)
    requires s.process.Compensating? && i < |s.process.plan|
    ensures EventuallyEnds(o, s.process.plan[i])
  {
    RollbackIsFate(h, o, s.records, s.process.cause, s.process.plan);
    assert s.process.plan[i] in s.process.plan;
  }

  lemma SoloStepsSound(h: Handler, o: Oracle, s: Solo)
    requires SoloSound(h, o, s) && s.exit.None?
    ensures SoloSound(h, o, SoloStep(o, s))
  {
    if AwaitedKey(s.records, s.process).Some? {
      SoloDecides(h, o, s);
    } else {
      SoloTurns(h, o, s);
    }
  }

  /** The bound for the next turn: the old one at the same step, a new one at another. */
  lemma NextBound(h: Handler, o: Oracle, s: Solo, t: Solo, bound: int) returns (bound': int)
    requires SoloSound(h, o, t) && t.exit.None? && RollbackCanEnd(h, o)
    requires Bounded(o, s.process, bound)
    requires Nearer(s.records, s.process, t.records, t.process, bound)
    requires t.process.Compensating? && !SameStep(s.process, t.process) ==> t.process.attempt == 1
    ensures Bounded(o, t.process, bound')
    ensures SameStep(s.process, t.process) ==> bound' == bound
  {
    bound' := bound;
    if t.process.Compensating? && t.process.cursor < |t.process.plan| && !SameStep(s.process, t.process) {
      PlanSteps(h, o, t, t.process.cursor);
      bound' :| EndsAt(o, t.process.plan[t.process.cursor], bound');
    }
  }

  lemma NewStepsStartAtOne(o: Oracle, s: Solo)
    requires s.exit.None?
    ensures var t := SoloStep(o, s);
            t.process.Compensating? && !SameStep(s.process, t.process) ==> t.process.attempt == 1
  {
  }

  lemma {:induction false} SoloEnds(h: Handler, o: Oracle, s: Solo, bound: int) returns (n: nat)
    requires SoloSound(h, o, s) && s.exit.None? && RollbackCanEnd(h, o)
    requires Bounded(o, s.process, bound)
    ensures SoloRun(o, s, n).exit.Some?
    decreases Stage(s.process), Remaining(s.process), StepsLeft(s.process), AttemptsLeft(s.process, bound),
              Waits(s.records, s.process)
  {
    hide SoloSound, SoloStep, RollbackCanEnd, Bounded;
    var t := SoloStep(o, s);
    SoloStepsSound(h, o, s);
    if t.exit.Some? {
      n := 1;
    } else {
      TurnComesNearer(h, o, s, bound);
      NewStepsStartAtOne(o, s);
      var bound' := NextBound(h, o, s, t, bound);
      n := SoloEnds(h, o, t, bound');
      n := n + 1;
    }
  }

  // --- The run does not end otherwise ----------------------------------------------------

  lemma {:induction false} SoloRunIsSound(h: Handler, o: Oracle, s: Solo, n: nat)
    requires SoloSound(h, o, s)
    ensures SoloSound(h, o, SoloRun(o, s, n))
    decreases n
  {
    hide SoloSound;
    if n > 0 {
      if s.exit.None? {
        SoloStepsSound(h, o, s);
      }
      SoloRunIsSound(h, o, SoloStep(o, s), n - 1);
    }
  }

  lemma EndedMeansEnds(h: Handler, o: Oracle, s: Solo, step: StepId)
    requires SoloSound(h, o, s) && Ended(s.records, step)
    ensures EventuallyEnds(o, step)
  {
    var n :| EndedAt(s.records, step, n);
    assert EndsAt(o, step, n);
  }

  lemma ExitIsFate(h: Handler, o: Oracle, s: Solo)
    requires SoloSound(h, o, s) && s.exit.Some?
    ensures s.exit == Some(Fate(o, h, []).0) && RollbackCanEnd(h, o)
  {
    ReplayKeepsFate(o, h, [], s.records.forward);
    var (exit, registered) := Fate(o, h, []);
    if RollsBack(exit) {
      var plan := s.records.plan.value;
      var cause :| Rollback(h, s.records, cause, plan);
      RollbackIsFate(h, o, s.records, cause, plan);
      forall step | step in registered
        ensures EventuallyEnds(o, step)
      {
        MembersSettled(s.records, plan, step);
        SettledMeansEnded(s.records, step);
        EndedMeansEnds(h, o, s, step);
      }
    }
  }

  /**
   * The uninterrupted run ends exactly when the handler's exit needs no rollback
   * or every registered step has an attempt that succeeds or is stopped; and it
   * ends with the handler's own exit.
   */
  lemma RunEnds(h: Handler, o: Oracle)
    ensures (exists n: nat :: SoloRun(o, SoloBegin(h), n).exit.Some?) <==> RollbackCanEnd(h, o)
    ensures forall n: nat :: SoloRun(o, SoloBegin(h), n).exit.Some? ==>
              SoloRun(o, SoloBegin(h), n).exit == Some(Fate(o, h, []).0)
  {
    var s := SoloBegin(h);
    SoloBeginsSound(h, o);
    forall n: nat | SoloRun(o, s, n).exit.Some?
      ensures SoloRun(o, s, n).exit == Some(Fate(o, h, []).0) && RollbackCanEnd(h, o)
    {
      SoloRunIsSound(h, o, s, n);
      ExitIsFate(h, o, SoloRun(o, s, n));
    }
    if RollbackCanEnd(h, o) {
      var n := SoloEnds(h, o, s, 1);
    }
  }

  // --- No run is a dead end --------------------------------------------------------------

  /** A step of the uninterrupted run, taken in a world: a turn, or an operator that comes and decides. */
  lemma SoloStepInWorld(h: Handler, o: Oracle, w: World, s: Solo) returns (actions: seq<Action>)
    requires SoloSound(h, o, s) && s.exit.None?
    requires w.records == s.records && w.process == s.process && w.result.None?
    ensures var v, t := Exec(h, w, actions), SoloStep(o, s);
            && v.records == t.records && v.process == t.process
            && v.result == if t.exit.Some? then Some(Completed(t.exit.value)) else None
  {
    var awaited := AwaitedKey(s.records, s.process);
    if awaited.Some? {
      hide Coherent, PlanRecorded, Conforms, Exec;
      actions := OperatorDecides(h, w, awaited.value, o.decide(awaited.value));
    } else {
      hide SoloSound, TurnOf;
      actions := [Proceed(OutcomeOf(o, s.process))];
      ExecCons(h, w, actions[0], []);
      assert actions == [actions[0]] + [];
    }
  }

  lemma {:induction false} SoloRunInWorld(h: Handler, o: Oracle, w: World, s: Solo, n: nat) returns (actions: seq<Action>)
    requires SoloSound(h, o, s) && s.exit.None?
    requires w.records == s.records && w.process == s.process && w.result.None?
    ensures var v, t := Exec(h, w, actions), SoloRun(o, s, n);
            && v.records == t.records
            && v.result == if t.exit.Some? then Some(Completed(t.exit.value)) else None
    decreases n
  {
    hide SoloSound, SoloStep, Step;
    if n == 0 {
      actions := [];
    } else {
      actions := SoloStepInWorld(h, o, w, s);
      SoloStepsSound(h, o, s);
      var t := SoloStep(o, s);
      if t.exit.Some? {
        ExitStays(o, t, n - 1);
      } else {
        var v := Exec(h, w, actions);
        var more := SoloRunInWorld(h, o, v, t, n - 1);
        ExecSplits(h, w, actions, more);
        actions := actions + more;
      }
    }
  }

  lemma {:induction false} ExitStays(o: Oracle, s: Solo, n: nat)
    requires s.exit.Some?
    ensures SoloRun(o, s, n) == s
    decreases n
  {
    if n > 0 {
      ExitStays(o, SoloStep(o, s), n - 1);
    }
  }

  /**
   * No crash and no wait is a dead end: from every reachable world without a
   * result, whose records the oracle explains, some continuation completes the
   * workflow with its handler's exit, if the oracle lets the rollback end at all.
   */
  lemma EveryRunCanFinish(h: Handler, requests: seq<Request>, actions: seq<Action>, o: Oracle) returns (more: seq<Action>)
    requires ExecAll(h, requests, actions).result.None?
    requires Conforms(o, ExecAll(h, requests, actions).records) && RollbackCanEnd(h, o)
    ensures ExecAll(h, requests, actions + more).result == Some(Completed(Fate(o, h, []).0))
    ensures Conforms(o, ExecAll(h, requests, actions + more).records)
  {
    hide RollbackCanEnd, Conforms, Coherent, PlanRecorded, Exec;
    var w := ExecAll(h, requests, actions);
    EveryRun(h, requests, actions);
    var s := Solo(w.records, Begin(h), None);
    var restarted := Restart(h, w);
    assert SoloSound(h, o, s);
    var n := SoloEnds(h, o, s, 1);
    SoloRunIsSound(h, o, s, n);
    ExitIsFate(h, o, SoloRun(o, s, n));
    var finish := SoloRunInWorld(h, o, restarted, s, n);
    ExecSplits(h, w, [Crash] + [Start], finish);
    ExecSplits(h, Initial(requests), actions, [Crash] + [Start] + finish);
    more := [Crash] + [Start] + finish;
  }

  /** The other half: only under such an oracle does any run complete, and always with that exit. */
  lemma CompletionIsFate(h: Handler, requests: seq<Request>, actions: seq<Action>, o: Oracle, exit: Exit)
    requires ExecAll(h, requests, actions).result == Some(Completed(exit))
    requires Conforms(o, ExecAll(h, requests, actions).records)
    ensures exit == Fate(o, h, []).0 && RollbackCanEnd(h, o)
  {
    hide RollbackCanEnd, Conforms, SoloRun, SoloSound, Exec;
    var n := CrashTransparency(h, requests, actions, o);
    SoloBeginsSound(h, o);
    SoloRunIsSound(h, o, SoloBegin(h), n);
    ExitIsFate(h, o, SoloRun(o, SoloBegin(h), n));
  }

  /** A run can be continued to completion exactly when the oracle lets the rollback end. */
  lemma CanFinishExactly(h: Handler, requests: seq<Request>, actions: seq<Action>, o: Oracle)
    requires ExecAll(h, requests, actions).result.None?
    requires Conforms(o, ExecAll(h, requests, actions).records)
    ensures (exists more :: FinishesUnder(h, requests, actions + more, o)) <==> RollbackCanEnd(h, o)
  {
    hide RollbackCanEnd, Conforms;
    forall more | FinishesUnder(h, requests, actions + more, o)
      ensures RollbackCanEnd(h, o)
    {
      var exit := ExecAll(h, requests, actions + more).result.value.exit;
      CompletionIsFate(h, requests, actions + more, o, exit);
    }
    if RollbackCanEnd(h, o) {
      var more := EveryRunCanFinish(h, requests, actions, o);
      assert FinishesUnder(h, requests, actions + more, o);
    }
  }

  ghost predicate FinishesUnder(h: Handler, requests: seq<Request>, actions: seq<Action>, o: Oracle) {
    var w := ExecAll(h, requests, actions);
    w.result.Some? && w.result.value.Completed? && Conforms(o, w.records)
  }

  lemma Restart(h: Handler, w: World) returns (v: World)
    requires w.result.None?
    ensures v == Exec(h, w, [Crash] + [Start])
    ensures v.records == w.records && v.process == Begin(h) && v.result.None?
  {
    v := Step(h, Step(h, w, Crash), Start);
    ExecCons(h, w, Crash, [Start]);
    ExecCons(h, Step(h, w, Crash), Start, []);
    assert [Start] + [] == [Start];
  }
}
