/** What every run of the compensation protocol guarantees. */
module CompensationGuarantees {
  import opened Wrappers
  import opened CompensationRecords
  import opened CompensationProtocol

  // --- Rollback order ---------------------------------------------------------

  /** The last attempt of `s` is `n`: it succeeded or was stopped, all before it failed and were retried. */
  ghost predicate EndedAt(d: Records, s: StepId, n: int) {
    && n >= 1
    && Key(s, n) in d.activity
    && (d.activity[Key(s, n)].Failed? ==>
          Key(s, n) in d.failure && Key(s, n) in d.decision && d.decision[Key(s, n)].Stop?)
    && (forall m {:trigger Key(s, m)} :: 1 <= m < n ==>
          && Key(s, m) in d.activity && d.activity[Key(s, m)].Failed? && Key(s, m) in d.failure
          && Key(s, m) in d.decision && d.decision[Key(s, m)].Retry?)
    && (forall m {:trigger Key(s, m)} :: n < m ==> Key(s, m) !in d.activity)
  }

  ghost predicate Ended(d: Records, s: StepId) {
    exists n :: EndedAt(d, s, n)
  }

  lemma SettledMeansEnded(d: Records, s: StepId)
    requires Coherent(d) && IsSettled(d, s)
    ensures Ended(d, s)
  {
    var n := StatusFrom(d, s, 1).attempt;
    AttemptWindow(d, s, n);
    StatusAfterRetries(d, s, 1, n);
    forall m | n < m
      ensures Key(s, m) !in d.activity
    {
      AttemptWindow(d, s, m);
    }
    assert EndedAt(d, s, n);
  }

  /** Attempts of a later step of the plan exist only once every earlier step has ended. */
  lemma RollbackOrder(h: Handler, requests: seq<Request>, actions: seq<Action>, plan: seq<StepId>, i: nat, k: Key)
    requires ExecAll(h, requests, actions).records.plan == Some(plan)
    requires k in ExecAll(h, requests, actions).records.activity
    requires i < |plan| && k.step !in plan[..i + 1]
    ensures k.step in plan
    ensures Ended(ExecAll(h, requests, actions).records, plan[i])
  {
    var d := ExecAll(h, requests, actions).records;
    EveryRun(h, requests, actions);
    PositionIsFirst(plan, i);
    var j := Position(plan, k.step);
    assert forall l :: 0 <= l <= i ==> plan[..i + 1][l] == plan[l];
    assert IsSettled(d, plan[i]);
    SettledMeansEnded(d, plan[i]);
  }

  /** Attempt n+1 exists only after a recorded failure of n and a Retry of it; attempts start at 1. */
  lemma AttemptsAreContiguous(h: Handler, requests: seq<Request>, actions: seq<Action>, k: Key)
    requires k in ExecAll(h, requests, actions).records.activity
    ensures k.attempt >= 1
    ensures var d := ExecAll(h, requests, actions).records;
            forall m {:trigger Key(k.step, m)} :: 1 <= m < k.attempt ==>
              && Key(k.step, m) in d.activity && d.activity[Key(k.step, m)].Failed?
              && Key(k.step, m) in d.failure && Key(k.step, m) in d.decision && d.decision[Key(k.step, m)].Retry?
  {
    EveryRun(h, requests, actions);
  }

  /** At most one attempt is failed and undecided, and the reading names exactly that one. */
  lemma OnePending(h: Handler, requests: seq<Request>, actions: seq<Action>, k: Key)
    ensures var d := ExecAll(h, requests, actions).records;
            && (PendingCompensation(d, Suspended) == Some(k) <==> Pending(d, k))
            && (Pending(d, k) ==> forall l :: Pending(d, l) ==> l == k)
            && (PendingCompensation(d, Suspended) == None <==> forall l :: !Pending(d, l))
  {
    var d := ExecAll(h, requests, actions).records;
    EveryRun(h, requests, actions);
    PendingCompensationExact(d, k);
    forall l | Pending(d, l) && Pending(d, k)
      ensures l == k
    {
      PendingUnique(d, l, k);
    }
  }

  // --- Readings over a run ------------------------------------------------------

  lemma {:induction false} ExecSplits(h: Handler, w: World, first: seq<Action>, rest: seq<Action>)
    ensures Exec(h, w, first + rest) == Exec(h, Exec(h, w, first), rest)
    decreases |first|
  {
    if first == [] {
      assert first + rest == rest;
    } else {
      assert (first + rest)[1..] == first[1..] + rest;
      ExecSplits(h, Step(h, w, first[0]), first[1..], rest);
    }
  }

  /** What a run reports as pending only moves forward: first by plan position, then by attempt. */
  lemma PendingMovesForward(h: Handler, requests: seq<Request>, actions: seq<Action>, more: seq<Action>, k: Key, l: Key)
    requires PendingCompensation(ExecAll(h, requests, actions).records, Suspended) == Some(k)
    requires PendingCompensation(ExecAll(h, requests, actions + more).records, Suspended) == Some(l)
    ensures var plan := ExecAll(h, requests, actions + more).records.plan;
            && plan.Some? && k.step in plan.value && l.step in plan.value
            && (Position(plan.value, k.step) < Position(plan.value, l.step)
                || (k.step == l.step && k.attempt <= l.attempt))
  {
    var w := ExecAll(h, requests, actions);
    EveryRun(h, requests, actions);
    EveryRun(h, requests, actions + more);
    ExecSplits(h, Initial(requests), actions, more);
    ExecKeepsInv(h, w, more);
    OnePending(h, requests, actions, k);
    OnePending(h, requests, actions + more, l);
    PendingNeverMovesBack(w.records, ExecAll(h, requests, actions + more).records, k, l);
  }

  ghost predicate Walking(op: Operator) {
    op.pc.ReadingPlan? || op.pc.ReadingFailure? || op.pc.ReadingDecision?
  }

  /** After `n` actions the operator was in its walk and the atomic reading answered `answer`. */
  ghost predicate AnsweredDuring(h: Handler, requests: seq<Request>, actions: seq<Action>, who: nat,
                                 answer: Option<Key>, n: nat)
  {
    && n <= |actions|
    && var w := ExecAll(h, requests, actions[..n]);
       who < |w.operators| && Walking(w.operators[who]) && PendingCompensation(w.records, Suspended) == answer
  }

  lemma {:induction false} SeenHappened(h: Handler, requests: seq<Request>, actions: seq<Action>, who: nat,
                                        answer: Option<Key>) returns (n: nat)
    requires who < |ExecAll(h, requests, actions).operators|
    requires answer in ExecAll(h, requests, actions).operators[who].seen
    ensures AnsweredDuring(h, requests, actions, who, answer, n)
    decreases |actions|
  {
    var before := actions[..|actions| - 1];
    var w := ExecAll(h, requests, before);
    assert actions == before + [actions[|actions| - 1]];
    ExecSplits(h, Initial(requests), before, [actions[|actions| - 1]]);
    if answer in w.operators[who].seen {
      n := SeenHappened(h, requests, before, who, answer);
      assert actions[..n] == before[..n];
    } else {
      n := |before|;
    }
  }

  /**
   * The walk over the registers is not atomic, yet its answer is one the atomic
   * reading gave at some instant during the call.
   */
  lemma WalkLinearizes(h: Handler, requests: seq<Request>, actions: seq<Action>, who: nat)
    requires who < |ExecAll(h, requests, actions).operators|
    requires ExecAll(h, requests, actions).operators[who].pc.Answered?
    requires ExecAll(h, requests, actions).operators[who].polled.Suspended?
    ensures exists n :: AnsweredDuring(h, requests, actions, who,
                                       ExecAll(h, requests, actions).operators[who].pc.pending, n)
  {
    EveryRun(h, requests, actions);
    var n := SeenHappened(h, requests, actions, who, ExecAll(h, requests, actions).operators[who].pc.pending);
  }

  // --- Agreement of the operators ---------------------------------------------------

  /**
   * Every accepted call agrees with the register, every conflict that carries a
   * decision carries the register's, and two accepted calls never disagree.
   */
  lemma OperatorsAgree(h: Handler, requests: seq<Request>, actions: seq<Action>, who: nat, other: nat)
    requires who < |ExecAll(h, requests, actions).operators| && other < |ExecAll(h, requests, actions).operators|
    requires ExecAll(h, requests, actions).operators[who].pc.Replied?
    ensures var w := ExecAll(h, requests, actions);
            var mine, theirs := w.operators[who], w.operators[other];
            match mine.pc.reply {
              case Accepted(k) =>
                && k in w.records.decision && w.records.decision[k] == mine.request.decision
                && (mine.request.Decide? ==> k == OwnKey(mine.request))
                && (theirs.pc == Replied(Accepted(k)) ==> theirs.request.decision == mine.request.decision)
              case Conflict(k, Some(accepted)) =>
                && k in w.records.decision && w.records.decision[k] == accepted != mine.request.decision
                && (mine.request.Decide? ==> k == OwnKey(mine.request))
              case Conflict(k, None) =>
                mine.request.Decide? && k != OwnKey(mine.request) && k in w.records.failure
              case NotPending => mine.polled.Suspended? ==> None in mine.seen
            }
  {
    EveryRun(h, requests, actions);
    var w := ExecAll(h, requests, actions);
    assert OperatorSound(w.records, w.operators[who]);
    assert OperatorSound(w.records, w.operators[other]);
  }

  /** After `n` actions the operator was about to read its own attempt, which was undecided. */
  ghost predicate OwnUndecided(h: Handler, requests: seq<Request>, actions: seq<Action>, who: nat, n: nat) {
    && n <= |actions|
    && var w := ExecAll(h, requests, actions[..n]);
       && who < |w.operators| && w.operators[who].pc.ReadingOwn? && w.operators[who].request.Decide?
       && OwnKey(w.operators[who].request) !in w.records.decision
  }

  lemma {:induction false} NotPendingRead(h: Handler, requests: seq<Request>, actions: seq<Action>, who: nat)
    returns (n: nat)
    requires who < |ExecAll(h, requests, actions).operators|
    requires ExecAll(h, requests, actions).operators[who].pc == Replied(NotPending)
    requires ExecAll(h, requests, actions).operators[who].request.Decide?
    ensures OwnUndecided(h, requests, actions, who, n)
    decreases |actions|
  {
    var before := actions[..|actions| - 1];
    var w := ExecAll(h, requests, before);
    assert actions == before + [actions[|actions| - 1]];
    ExecSplits(h, Initial(requests), before, [actions[|actions| - 1]]);
    if w.operators[who].pc == Replied(NotPending) {
      n := NotPendingRead(h, requests, before, who);
      assert actions[..n] == before[..n];
    } else {
      n := |before|;
    }
  }

  /**
   * A call that replies NotPending to a suspended run does so because nothing was
   * pending at some instant of its walk; a call for one attempt also found that
   * attempt undecided when it read it.
   */
  lemma NotPendingIsHonest(h: Handler, requests: seq<Request>, actions: seq<Action>, who: nat)
    requires who < |ExecAll(h, requests, actions).operators|
    requires ExecAll(h, requests, actions).operators[who].pc == Replied(NotPending)
    ensures ExecAll(h, requests, actions).operators[who].polled.Suspended? ==>
              exists n :: AnsweredDuring(h, requests, actions, who, None, n)
    ensures ExecAll(h, requests, actions).operators[who].request.Decide? ==>
              exists n :: OwnUndecided(h, requests, actions, who, n)
  {
    hide AnsweredDuring, OwnUndecided, Exec, Coherent, PlanRecorded, ProcessOnPath;
    EveryRun(h, requests, actions);
    var op := ExecAll(h, requests, actions).operators[who];
    assert OperatorSound(ExecAll(h, requests, actions).records, op);
    if op.polled.Suspended? {
      var n := SeenHappened(h, requests, actions, who, None);
    }
    if op.request.Decide? {
      var n := NotPendingRead(h, requests, actions, who);
    }
  }

  /** A decision is only ever written for an attempt whose failure is recorded, and it is never replaced. */
  lemma DecisionsAreFinal(h: Handler, requests: seq<Request>, actions: seq<Action>, more: seq<Action>, k: Key)
    requires k in ExecAll(h, requests, actions).records.decision
    ensures var d, later := ExecAll(h, requests, actions).records, ExecAll(h, requests, actions + more).records;
            && k in d.failure && k in d.activity && d.activity[k].Failed?
            && k in later.decision && later.decision[k] == d.decision[k]
  {
    EveryRun(h, requests, actions);
    ExecSplits(h, Initial(requests), actions, more);
    ExecKeepsInv(h, ExecAll(h, requests, actions), more);
  }

  // --- What is rolled back -------------------------------------------------------------

  /** A `step.run` the handler went through. */
  datatype StepRun = StepRun(id: StepId, hasUndo: bool, completed: bool)

  predicate HasUndo(args: StepArgs) {
    args.undo
  }

  /** The steps the handler goes through over recorded outcomes; a step without a record ends the trace. */
  function Trace(at: Handler, forward: map<StepId, Outcome>): seq<StepRun> {
    match at
    case Finish(_) => []
    case Run(id, args, onSuccess, onFailure) =>
      if args.Positional? && !args.isEffect then [StepRun(id, HasUndo(args), false)] + Trace(onFailure, forward)
      else if id !in forward then []
      else if forward[id].Succeeded? then [StepRun(id, HasUndo(args), true)] + Trace(onSuccess, forward)
      else [StepRun(id, HasUndo(args), false)] + Trace(onFailure, forward)
  }

  function Undoable(trace: seq<StepRun>): seq<StepId> {
    if trace == [] then []
    else (if trace[0].hasUndo && trace[0].completed then [trace[0].id] else []) + Undoable(trace[1..])
  }

  lemma {:induction false} UndoableMember(trace: seq<StepRun>, s: StepId)
    ensures s in Undoable(trace) <==> StepRun(s, true, true) in trace
  {
    if trace != [] {
      UndoableMember(trace[1..], s);
      assert trace == [trace[0]] + trace[1..];
    }
  }

  lemma UndoableCons(step: StepRun, rest: seq<StepRun>)
    ensures Undoable([step] + rest) == (if step.hasUndo && step.completed then [step.id] else []) + Undoable(rest)
  {
    assert ([step] + rest)[1..] == rest;
  }

  lemma UndoableNothing()
    ensures Undoable([]) == []
  {
  }

  lemma {:induction false} RegistersUndoable(at: Handler, registered: seq<StepId>, forward: map<StepId, Outcome>)
    ensures Replay(at, registered, forward).1 == registered + Undoable(Trace(at, forward))
  {
    hide Undoable;
    if at.Finish? {
      UndoableNothing();
    } else {
      var dies := at.args.Positional? && !at.args.isEffect;
      if dies || (at.id in forward && forward[at.id].Failed?) {
        RegistersUndoable(at.onFailure, registered, forward);
        UndoableCons(StepRun(at.id, HasUndo(at.args), false), Trace(at.onFailure, forward));
      } else if at.id in forward {
        var registered' := if HasUndo(at.args) then registered + [at.id] else registered;
        assert KindOfStep(at.args).Registers? <==> HasUndo(at.args);
        RegistersUndoable(at.onSuccess, registered', forward);
        UndoableCons(StepRun(at.id, HasUndo(at.args), true), Trace(at.onSuccess, forward));
      } else {
        UndoableNothing();
      }
    }
  }

  lemma {:induction false} ReverseAt(s: seq<StepId>, i: nat)
    requires i < |s|
    ensures |Reverse(s)| == |s| && Reverse(s)[i] == s[|s| - 1 - i]
  {
    if |s| > 1 {
      ReverseAt(s[1..], if i < |s| - 1 then i else 0);
    }
  }

  lemma ReverseMirrors(s: seq<StepId>)
    ensures |Reverse(s)| == |s| && forall i :: 0 <= i < |s| ==> Reverse(s)[i] == s[|s| - 1 - i]
    ensures forall x :: x in Reverse(s) <==> x in s
  {
    if s != [] {
      ReverseAt(s, 0);
    }
    forall i | 0 <= i < |s|
      ensures Reverse(s)[i] == s[|s| - 1 - i]
    {
      ReverseAt(s, i);
    }
    forall x | x in s
      ensures x in Reverse(s)
    {
      var j :| 0 <= j < |s| && s[j] == x;
      assert Reverse(s)[|s| - 1 - j] == x;
    }
  }

  lemma PlanIsReversed(h: Handler, w: World, plan: seq<StepId>)
    requires Inv(h, w) && w.records.plan == Some(plan)
    ensures plan == Reverse(Undoable(Trace(h, w.records.forward)))
  {
    var cause :| Rollback(h, w.records, cause, plan);
    RegistersUndoable(h, [], w.records.forward);
    assert [] + Undoable(Trace(h, w.records.forward)) == Undoable(Trace(h, w.records.forward));
  }

  /**
   * The published plan is the registration order reversed: it holds exactly the
   * steps with an undo that completed, wherever the handler failed.
   */
  lemma PlanReversesRegistration(h: Handler, requests: seq<Request>, actions: seq<Action>, plan: seq<StepId>)
    requires ExecAll(h, requests, actions).records.plan == Some(plan)
    ensures var undoable := Undoable(Trace(h, ExecAll(h, requests, actions).records.forward));
            |plan| == |undoable| && forall i :: 0 <= i < |plan| ==> plan[i] == undoable[|plan| - 1 - i]
    ensures forall s :: s in plan <==> StepRun(s, true, true) in Trace(h, ExecAll(h, requests, actions).records.forward)
  {
    hide Inv, Reverse, Undoable, Trace;
    var w := ExecAll(h, requests, actions);
    EveryRun(h, requests, actions);
    PlanIsReversed(h, w, plan);
    ReverseMirrors(Undoable(Trace(h, w.records.forward)));
    forall s {
      UndoableMember(Trace(h, w.records.forward), s);
    }
  }

  // --- How a run ends ----------------------------------------------------------------------

  /** No compensation activity is ever executed twice, and every execution's result is recorded. */
  lemma ExecutesOnce(h: Handler, requests: seq<Request>, actions: seq<Action>)
    ensures var w := ExecAll(h, requests, actions);
            && (forall i, j :: 0 <= i < j < |w.executed| ==> w.executed[i] != w.executed[j])
            && (forall k :: k in w.executed <==> k in w.records.activity)
  {
    EveryRun(h, requests, actions);
  }

  lemma {:induction false} DistinctSize(ks: seq<Key>)
    requires forall i, j :: 0 <= i < j < |ks| ==> ks[i] != ks[j]
    ensures |set k | k in ks| == |ks|
  {
    if ks != [] {
      DistinctSize(ks[1..]);
      assert (set k | k in ks) == {ks[0]} + set k | k in ks[1..];
    }
  }

  lemma ExecutedCount(h: Handler, w: World)
    requires Inv(h, w)
    ensures |w.executed| == |w.records.activity.Keys|
  {
    DistinctSize(w.executed);
    assert (set k | k in w.executed) == w.records.activity.Keys;
  }

  lemma RollbackEnded(h: Handler, w: World, plan: seq<StepId>)
    requires Inv(h, w) && w.records.plan == Some(plan) && PrefixSettled(w.records, plan, |plan|)
    ensures forall s :: s in plan ==> Ended(w.records, s)
    ensures |w.executed| == |set s | s in plan| + |Retries(w.records)|
  {
    forall s | s in plan
      ensures Ended(w.records, s)
    {
      MembersSettled(w.records, plan, s);
      SettledMeansEnded(w.records, s);
    }
    AttemptsConserved(w.records, plan);
    ExecutedCount(h, w);
  }

  /**
   * A run that ends with the failure of its handler ends with that very cause.
   * Unless the cause is interrupts only, every planned step has ended, and the
   * executed attempts are the distinct planned steps plus the retries.
   */
  lemma RunEndsWithItsCause(h: Handler, requests: seq<Request>, actions: seq<Action>, exit: Exit)
    requires ExecAll(h, requests, actions).result == Some(Completed(exit))
    ensures var w := ExecAll(h, requests, actions);
            && Replay(h, [], w.records.forward).0 == Finish(exit)
            && (exit.Failure? && !HasInterruptsOnly(exit.cause) ==>
                  && w.records.plan.Some?
                  && (forall s :: s in w.records.plan.value ==> Ended(w.records, s))
                  && |w.executed| == |set s | s in w.records.plan.value| + |Retries(w.records)|)
            && (exit.Success? || HasInterruptsOnly(exit.cause) ==>
                  w.records.plan.None? && w.executed == [] && w.records.activity == map[])
  {
    var w := ExecAll(h, requests, actions);
    EveryRun(h, requests, actions);
    assert ResultSound(h, w.records, w.result);
    if exit.Failure? && !HasInterruptsOnly(exit.cause) {
      RollbackEnded(h, w, w.records.plan.value);
    } else {
      NothingRolledBack(h, w);
    }
  }

  /** A failed run was rolled back exactly when its cause holds a failure or a defect, whatever interrupts it holds. */
  lemma RollbackStartsExactly(h: Handler, requests: seq<Request>, actions: seq<Action>, cause: Cause)
    requires ExecAll(h, requests, actions).result == Some(Completed(Failure(cause)))
    ensures ExecAll(h, requests, actions).records.plan.Some? <==>
            exists i :: 0 <= i < |cause| && (cause[i].Fail? || cause[i].Die?)
  {
    RunEndsWithItsCause(h, requests, actions, Failure(cause));
    hide ExecAll;
    assert HasInterruptsOnly(cause) <==> forall i :: 0 <= i < |cause| ==> cause[i] == Interrupt;
  }

  /** Without a plan no compensation ever ran. */
  lemma NothingRolledBack(h: Handler, w: World)
    requires Inv(h, w)
    ensures w.records.plan.None? ==> w.executed == [] && w.records.activity == map[]
  {
    ExecutedCount(h, w);
  }

  predicate Distinct(plan: seq<StepId>) {
    forall i, j :: 0 <= i < j < |plan| ==> plan[i] != plan[j]
  }

  lemma {:induction false} PlanSize(plan: seq<StepId>)
    ensures |set s | s in plan| <= |plan|
    ensures |set s | s in plan| == |plan| <==> Distinct(plan)
  {
    if plan == [] {
    } else {
      var rest := set s | s in plan[1..];
      PlanSize(plan[1..]);
      assert (set s | s in plan) == {plan[0]} + rest;
      assert Distinct(plan) <==> Distinct(plan[1..]) && plan[0] !in plan[1..] by {
        assert forall i :: 0 < i < |plan| ==> plan[i] == plan[1..][i - 1];
      }
    }
  }

  /** Attempts = plan length + Retry decisions exactly when no step id is planned twice. */
  lemma AttemptsAreConserved(h: Handler, requests: seq<Request>, actions: seq<Action>, cause: Cause, plan: seq<StepId>)
    requires ExecAll(h, requests, actions).result == Some(Completed(Failure(cause)))
    requires !HasInterruptsOnly(cause)
    requires ExecAll(h, requests, actions).records.plan == Some(plan)
    ensures |ExecAll(h, requests, actions).executed| == |plan| + |Retries(ExecAll(h, requests, actions).records)|
            <==> Distinct(plan)
  {
    RunEndsWithItsCause(h, requests, actions, Failure(cause));
    PlanSize(plan);
  }

  /** Runs the undoable step `s` twice and fails. */
  function RepeatedStep(s: StepId): Handler {
    var last := Run(s, Options(false, true), Finish(Failure([Fail(0)])), Finish(Success));
    Run(s, Options(false, true), last, Finish(Success))
  }

  lemma ExecCons(h: Handler, w: World, a: Action, rest: seq<Action>)
    ensures Exec(h, w, [a] + rest) == Exec(h, Step(h, w, a), rest)
  {
    assert ([a] + rest)[1..] == rest;
  }

  /** A step id run twice is planned twice and undone once. */
  lemma RepeatedStepBreaksTheCount(s: StepId)
    ensures var p := Proceed(Succeeded);
            var w := ExecAll(RepeatedStep(s), [], [Start] + [p, p, p, p, p, p, p]);
            && w.result == Some(Completed(Failure([Fail(0)])))
            && w.records.plan == Some([s, s])
            && |w.executed| == 1 && Retries(w.records) == {}
  {
    var h, p := RepeatedStep(s), Proceed(Succeeded);
    var w1 := Step(h, Initial([]), Start);
    ExecCons(h, Initial([]), Start, [p, p, p, p, p, p, p]);
    var w4 := HandlerTurns(h, w1, s);
    var w5 := Step(h, w4, p);
    var w6 := Step(h, w5, p);
    var w7 := Step(h, w6, p);
    var w8 := Step(h, w7, p);
    assert w5.records.plan == Some([s, s]);
    assert w6.executed == [Key(s, 1)];
    assert w7.executed == [Key(s, 1)];
    ExecCons(h, w4, p, [p, p, p]);
    assert [p] + [p, p, p] == [p, p, p, p];
    ExecCons(h, w5, p, [p, p]);
    assert [p] + [p, p] == [p, p, p];
    ExecCons(h, w6, p, [p]);
    assert [p] + [p] == [p, p];
    ExecCons(h, w7, p, []);
    assert [p] + [] == [p];
  }

  lemma HandlerTurns(h: Handler, w: World, s: StepId) returns (later: World)
    requires h == RepeatedStep(s) && w == Step(h, Initial([]), Start)
    ensures var p := Proceed(Succeeded); Exec(h, w, [p, p, p, p, p, p, p]) == Exec(h, later, [p, p, p, p])
    ensures later.process == Publishing([Fail(0)], [s, s]) && later.result.None? && later.executed == []
    ensures later.records.plan.None? && later.records.activity == map[] && later.records.decision == map[]
  {
    var p := Proceed(Succeeded);
    var w2 := Step(h, w, p);
    var w3 := Step(h, w2, p);
    assert w3.process == Handling(Finish(Failure([Fail(0)])), [s] + [s]);
    later := Step(h, w3, p);
    FailsWithAReason();
    ReversesPair(s);
    ExecThree(h, w, p, [p, p, p, p]);
    assert [p] + ([p] + ([p] + [p, p, p, p])) == [p, p, p, p, p, p, p];
  }

  lemma ExecThree(h: Handler, w: World, a: Action, rest: seq<Action>)
    ensures Exec(h, w, [a] + ([a] + ([a] + rest))) == Exec(h, Step(h, Step(h, Step(h, w, a), a), a), rest)
  {
    hide Step;
    ExecCons(h, w, a, [a] + ([a] + rest));
    ExecCons(h, Step(h, w, a), a, [a] + rest);
    ExecCons(h, Step(h, Step(h, w, a), a), a, rest);
  }

  lemma FailsWithAReason()
    ensures !HasInterruptsOnly([Fail(0)])
  {
    var cause: Cause := [Fail(0)];
    assert !cause[0].Interrupt?;
  }

  lemma ReversesPair(s: StepId)
    ensures Reverse([s] + [s]) == [s, s]
  {
    assert ([s] + [s])[1..] == [s] && [s][1..] == [];
    assert Reverse([s]) == [s];
  }
}
