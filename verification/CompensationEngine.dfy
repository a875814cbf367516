/**
 * The compensation code as it runs: a durable store whose registers are written
 * step by step, the mutable list of compensations of one execution, and the
 * wrapped workflow handler. Each call is one replay from the top; `undo` and
 * `step` outcomes come from an oracle.
 */
module CompensationEngine {
  import opened Wrappers
  import opened CompensationRecords
  import opened CompensationProtocol
  import opened CompensationReplay
  import opened CompensationGuarantees

  // --- What one replay does to the records ------------------------------------------

  datatype Pass = Pass(records: Records, ended: bool)

  function Attempt(o: Oracle, d: Records, k: Key): Records {
    if k in d.activity then d else WithActivity(d, k, o.undo(k))
  }

  /** Runs one step from attempt `n` until it ends or has to wait for a decision. */
  function StepPass(o: Oracle, d: Records, s: StepId, n: int): Pass
    decreases LaterDecisions(d, s, n)
  {
    var k := Key(s, n);
    var tried := Attempt(o, d, k);
    if tried.activity[k].Succeeded? then Pass(tried, true)
    else
      var published := WithFailure(tried, k);
      if k !in d.decision then Pass(published, false)
      else if d.decision[k].Stop? then Pass(published, true)
      else
        assert k in LaterDecisions(d, s, n) && k !in LaterDecisions(published, s, n + 1);
        StepPass(o, published, s, n + 1)
  }

  function PlanPass(o: Oracle, d: Records, plan: seq<StepId>): Pass
    decreases |plan|
  {
    if plan == [] then Pass(d, true)
    else
      var pass := StepPass(o, d, plan[0], 1);
      if pass.ended then PlanPass(o, pass.records, plan[1..]) else pass
  }

  function CompensatePass(o: Oracle, d: Records, registered: seq<StepId>): Pass {
    var plan := Reverse(registered);
    PlanPass(o, if d.plan.None? then WithPlan(d, plan) else d, plan)
  }

  /** What the handler itself does: its exit, what it registered, and the records. */
  function HandlerPass(o: Oracle, d: Records, at: Handler, registered: seq<StepId>): (Exit, seq<StepId>, Records)
    decreases at
  {
    match at
    case Finish(exit) => (exit, registered, d)
    case Run(id, args, onSuccess, onFailure) =>
      match KindOfStep(args)
      case Dies => HandlerPass(o, d, onFailure, registered)
      case kind =>
        var later := if id in d.forward then d else WithForward(d, id, o.forward(id));
        if later.forward[id].Failed? then HandlerPass(o, later, onFailure, registered)
        else HandlerPass(o, later, onSuccess, if kind.Registers? then registered + [id] else registered)
  }

  /** What follows the handler's exit: the records, and the exit of the replay if it has one. */
  function ExitPass(o: Oracle, d: Records, exit: Exit, registered: seq<StepId>): (Records, Option<Exit>) {
    match exit
    case Success => (d, Some(Success))
    case Failure(cause) =>
      if HasInterruptsOnly(cause) then (d, Some(Failure(cause)))
      else
        var pass := CompensatePass(o, d, registered);
        (pass.records, if pass.ended then Some(Failure(cause)) else None)
  }

  /** One replay of the wrapped handler; no exit means it waits for a decision. */
  function WorkflowPass(o: Oracle, d: Records, h: Handler): (Records, Option<Exit>) {
    var (exit, registered, later) := HandlerPass(o, d, h, []);
    ExitPass(o, later, exit, registered)
  }

  // --- What a replay leaves behind --------------------------------------------------------

  /** Nothing recorded is lost, decisions are left alone, and what is new came out as the oracle says. */
  ghost predicate Recorded(o: Oracle, d: Records, later: Records) {
    && Extends(d, later) && later.decision == d.decision
    && (forall s :: s in later.forward && s !in d.forward ==> later.forward[s] == o.forward(s))
    && (forall k :: k in later.activity && k !in d.activity ==> later.activity[k] == o.undo(k))
  }

  lemma RecordedConforms(o: Oracle, d: Records, later: Records)
    requires Recorded(o, d, later)
    ensures Conforms(o, d) ==> Conforms(o, later)
  {
  }

  lemma RecordedChains(o: Oracle, d: Records, later: Records, last: Records)
    requires Recorded(o, d, later) && Recorded(o, later, last)
    ensures Recorded(o, d, last)
  {
  }

  /** Something new was tried for no step outside `steps`. */
  ghost predicate TriesOnly(d: Records, later: Records, steps: seq<StepId>) {
    forall k :: k in later.activity && k !in d.activity ==> k.step in steps
  }

  lemma AttemptRecords(o: Oracle, d: Records, k: Key)
    ensures var tried := Attempt(o, d, k);
            && Recorded(o, d, tried) && Recorded(o, d, WithFailure(tried, k))
            && TriesOnly(d, tried, [k.step]) && TriesOnly(d, WithFailure(tried, k), [k.step])
  {
  }

  lemma TriesChain(d: Records, later: Records, last: Records, steps: seq<StepId>)
    requires Extends(d, later) && TriesOnly(d, later, steps) && TriesOnly(later, last, steps)
    ensures TriesOnly(d, last, steps)
  {
  }

  lemma {:induction false} StepPassRecords(o: Oracle, d: Records, s: StepId, n: int)
    ensures Recorded(o, d, StepPass(o, d, s, n).records) && TriesOnly(d, StepPass(o, d, s, n).records, [s])
    decreases LaterDecisions(d, s, n)
  {
    var k := Key(s, n);
    var published := WithFailure(Attempt(o, d, k), k);
    AttemptRecords(o, d, k);
    if published.activity[k].Failed? && k in d.decision && d.decision[k].Retry? {
      assert k in LaterDecisions(d, s, n) && k !in LaterDecisions(published, s, n + 1);
      StepPassRecords(o, published, s, n + 1);
      var last := StepPass(o, d, s, n).records;
      assert last == StepPass(o, published, s, n + 1).records;
      hide StepPass, Attempt, TriesOnly;
      TriesChain(d, published, last, [s]);
      RecordedChains(o, d, published, last);
    }
  }

  lemma {:induction false} StepPassStatus(o: Oracle, d: Records, s: StepId, n: int)
    ensures var pass := StepPass(o, d, s, n);
            if pass.ended then StatusFrom(pass.records, s, n).Settled? else StatusFrom(pass.records, s, n).Waiting?
    decreases LaterDecisions(d, s, n)
  {
    var k := Key(s, n);
    var published := WithFailure(Attempt(o, d, k), k);
    if published.activity[k].Failed? && k in d.decision && d.decision[k].Retry? {
      assert k in LaterDecisions(d, s, n) && k !in LaterDecisions(published, s, n + 1);
      StepPassStatus(o, published, s, n + 1);
      StepPassRecords(o, published, s, n + 1);
    }
  }

  /**
   * The replay of one step records what its undo came to, publishes every
   * failure, and ends the step or leaves it waiting for a decision.
   */
  lemma StepPassMeans(o: Oracle, d: Records, s: StepId, n: int)
    ensures var pass := StepPass(o, d, s, n);
            && Recorded(o, d, pass.records) && TriesOnly(d, pass.records, [s])
            && (if pass.ended then StatusFrom(pass.records, s, n).Settled? else StatusFrom(pass.records, s, n).Waiting?)
  {
    StepPassRecords(o, d, s, n);
    StepPassStatus(o, d, s, n);
  }

  /** Every step before the `i`-th is settled, that one waits, and none behind it was tried. */
  ghost predicate StopsAt(d: Records, later: Records, plan: seq<StepId>, i: int) {
    && 0 <= i < |plan| && PrefixSettled(later, plan, i) && StatusFrom(later, plan[i], 1).Waiting?
    && TriesOnly(d, later, plan[..i + 1])
  }

  /** What one replay of a plan comes to: all of it settled, or stopped at the first step that waits. */
  ghost predicate WorkedThrough(d: Records, later: Records, plan: seq<StepId>, ended: bool) {
    if ended then PrefixSettled(later, plan, |plan|) && TriesOnly(d, later, plan)
    else exists i :: StopsAt(d, later, plan, i)
  }

  lemma {:induction false} PlanPassMeans(o: Oracle, d: Records, plan: seq<StepId>)
    ensures var pass := PlanPass(o, d, plan);
            Recorded(o, d, pass.records) && WorkedThrough(d, pass.records, plan, pass.ended)
    decreases |plan|
  {
    hide StepPass, StatusFrom;
    if plan == [] {
      ExtendsSelf(d);
    } else {
      var first := StepPass(o, d, plan[0], 1);
      StepPassMeans(o, d, plan[0], 1);
      if first.ended {
        PlanPassMeans(o, first.records, plan[1..]);
        RecordedChains(o, d, first.records, PlanPass(o, d, plan).records);
        FirstStepThrough(d, first.records, PlanPass(o, d, plan).records, plan, PlanPass(o, d, plan).ended);
      } else {
        assert plan[..1] == [plan[0]];
        assert StopsAt(d, first.records, plan, 0);
      }
    }
  }

  lemma TriesMore(d: Records, first: Records, later: Records, s: StepId, steps: seq<StepId>)
    requires Extends(d, first) && TriesOnly(d, first, [s])
    ensures TriesOnly(first, later, steps) ==> TriesOnly(d, later, [s] + steps)
  {
  }

  lemma FirstStepThrough(d: Records, first: Records, later: Records, plan: seq<StepId>, ended: bool)
    requires plan != [] && Extends(d, first) && Extends(first, later)
    requires TriesOnly(d, first, [plan[0]]) && IsSettled(first, plan[0])
    requires WorkedThrough(first, later, plan[1..], ended)
    ensures WorkedThrough(d, later, plan, ended)
  {
    hide StatusFrom;
    SettledStays(first, later, plan[0], 1);
    TriesMore(d, first, later, plan[0], plan[1..]);
    var rest := plan[1..];
    assert forall j :: 0 < j < |plan| ==> plan[j] == rest[j - 1];
    if !ended {
      var i :| StopsAt(first, later, rest, i);
      assert rest[..i + 1] == plan[1..i + 2];
      assert plan[..i + 2] == [plan[0]] + plan[1..i + 2];
      TriesMore(d, first, later, plan[0], rest[..i + 1]);
      assert StopsAt(d, later, plan, i + 1);
    } else {
      assert plan == [plan[0]] + rest;
    }
  }

  lemma CompensatePassMeans(o: Oracle, d: Records, registered: seq<StepId>)
    ensures var pass := CompensatePass(o, d, registered);
            && Recorded(o, d, pass.records) && pass.records.forward == d.forward
            && pass.records.plan == (if d.plan.None? then Some(Reverse(registered)) else d.plan)
            && WorkedThrough(d, pass.records, Reverse(registered), pass.ended)
  {
    hide PlanPass, StatusFrom;
    var plan := Reverse(registered);
    var published := if d.plan.None? then WithPlan(d, plan) else d;
    PlanPassMeans(o, published, plan);
    PlanPassLeaves(o, published, plan);
    if !PlanPass(o, published, plan).ended {
      var i :| StopsAt(published, PlanPass(o, published, plan).records, plan, i);
      assert StopsAt(d, PlanPass(o, published, plan).records, plan, i);
    }
  }

  lemma {:induction false} PlanPassLeaves(o: Oracle, d: Records, plan: seq<StepId>)
    ensures PlanPass(o, d, plan).records.forward == d.forward && PlanPass(o, d, plan).records.plan == d.plan
    decreases |plan|
  {
    if plan != [] {
      StepPassLeaves(o, d, plan[0], 1);
      PlanPassLeaves(o, StepPass(o, d, plan[0], 1).records, plan[1..]);
    }
  }

  lemma {:induction false} StepPassLeaves(o: Oracle, d: Records, s: StepId, n: int)
    ensures StepPass(o, d, s, n).records.forward == d.forward && StepPass(o, d, s, n).records.plan == d.plan
    decreases LaterDecisions(d, s, n)
  {
    var k := Key(s, n);
    var published := WithFailure(Attempt(o, d, k), k);
    if k in d.decision && d.decision[k].Retry? {
      assert k in LaterDecisions(d, s, n) && k !in LaterDecisions(published, s, n + 1);
      StepPassLeaves(o, published, s, n + 1);
    }
  }

  lemma RecordedSelf(o: Oracle, d: Records)
    ensures Recorded(o, d, d)
  {
  }

  lemma ForwardRecorded(o: Oracle, d: Records, s: StepId)
    ensures s !in d.forward ==> Recorded(o, d, WithForward(d, s, o.forward(s)))
  {
  }

  lemma {:induction false} HandlerPassMeans(o: Oracle, d: Records, at: Handler, registered: seq<StepId>)
    ensures var (exit, registered', later) := HandlerPass(o, d, at, registered);
            && Recorded(o, d, later) && later.activity == d.activity && later.plan == d.plan
            && Replay(at, registered, later.forward) == (Finish(exit), registered')
    decreases at
  {
    if at.Finish? {
      RecordedSelf(o, d);
    } else {
      hide KindOfStep, Recorded;
      RecordedSelf(o, d);
      ForwardRecorded(o, d, at.id);
      var dies := KindOfStep(at.args).Dies?;
      var later := if dies || at.id in d.forward then d else WithForward(d, at.id, o.forward(at.id));
      if dies || later.forward[at.id].Failed? {
        HandlerPassMeans(o, later, at.onFailure, registered);
        RecordedChains(o, d, later, HandlerPass(o, d, at, registered).2);
      } else {
        var registered' := if KindOfStep(at.args).Registers? then registered + [at.id] else registered;
        HandlerPassMeans(o, later, at.onSuccess, registered');
        RecordedChains(o, d, later, HandlerPass(o, d, at, registered).2);
      }
    }
  }

  /** A step that completes is followed by what comes after it, and one that fails by what comes after a failure. */
  lemma OutcomePicksTheBranch(o: Oracle, d: Records, id: StepId, exit: Exit, other: Exit)
    requires id !in d.forward
    ensures var (left, _, later) := HandlerPass(o, d, Run(id, Options(false, false), Finish(exit), Finish(other)), []);
            && left == (if o.forward(id).Succeeded? then exit else other)
            && later == WithForward(d, id, o.forward(id))
  {
    var next: Handler := Finish(if o.forward(id).Succeeded? then exit else other);
    assert HandlerPass(o, WithForward(d, id, o.forward(id)), next, [])
           == (next.exit, [], WithForward(d, id, o.forward(id)));
  }

  /** A cause that holds a failure or a defect, whatever else it holds. */
  ghost predicate Broken(exit: Exit) {
    exit.Failure? && exists i :: 0 <= i < |exit.cause| && (exit.cause[i].Fail? || exit.cause[i].Die?)
  }

  /**
   * One replay records what steps and undos came to, and rolls back exactly when
   * the handler's cause holds a failure or a defect: then the completed undoable
   * steps are worked through newest first, and the replay exits with the
   * handler's own exit unless a step waits.
   */
  lemma WorkflowPassMeans(o: Oracle, d: Records, h: Handler)
    ensures var (later, exit) := WorkflowPass(o, d, h);
            var (at, registered) := Replay(h, [], later.forward);
            && Recorded(o, d, later)
            && at.Finish?
            && (exit.Some? ==> exit.value == at.exit)
            && (if Broken(at.exit) then
                  && later.plan == (if d.plan.None? then Some(Reverse(registered)) else d.plan)
                  && WorkedThrough(d, later, Reverse(registered), exit.Some?)
                else exit.Some? && later.plan == d.plan && later.activity == d.activity)
  {
    hide CompensatePass, HandlerPass, StatusFrom, WorkedThrough;
    var (exit, registered, handled) := HandlerPass(o, d, h, []);
    HandlerPassMeans(o, d, h, []);
    CompensatePassMeans(o, handled, registered);
    BrokenMeansRollback(exit);
    RecordedChains(o, d, handled, WorkflowPass(o, d, h).0);
    SameTries(d, handled, CompensatePass(o, handled, registered).records, Reverse(registered),
              CompensatePass(o, handled, registered).ended);
  }

  lemma SameTries(d: Records, handled: Records, later: Records, plan: seq<StepId>, ended: bool)
    requires handled.activity == d.activity && WorkedThrough(handled, later, plan, ended)
    ensures WorkedThrough(d, later, plan, ended)
  {
    hide StatusFrom;
    if !ended {
      var i :| StopsAt(handled, later, plan, i);
      assert StopsAt(d, later, plan, i);
    }
  }

  lemma BrokenMeansRollback(exit: Exit)
    ensures Broken(exit) <==> exit.Failure? && !HasInterruptsOnly(exit.cause)
  {
  }

  // --- The code -------------------------------------------------------------------------

  class Engine {
    var forward: map<StepId, Outcome>
    var plan: Option<seq<StepId>>
    var activity: map<Key, Outcome>
    var failure: set<Key>
    var decision: map<Key, Decision>

    function Records(): Records
      reads this
    {
      CompensationRecords.Records.Records(forward, plan, activity, failure, decision)
    }

    constructor ()
      ensures Records() == NO_RECORDS
    {
      forward, plan, activity, failure, decision := map[], None, map[], {}, map[];
    }

    /** Executes and persists a step's activity, or answers with its persisted result. */
    method ExecuteStep(s: StepId, outcome: Outcome) returns (r: Outcome)
      modifies this`forward
      ensures Records() == if s in old(forward) then old(Records()) else WithForward(old(Records()), s, outcome)
      ensures s in forward && r == forward[s]
    {
      if s !in forward {
        forward := forward[s := outcome];
      }
      r := forward[s];
    }

    method ExecuteUndo(k: Key, outcome: Outcome) returns (r: Outcome)
      modifies this`activity
      ensures Records() == if k in old(activity) then old(Records()) else WithActivity(old(Records()), k, outcome)
      ensures k in activity && r == activity[k]
    {
      if k !in activity {
        activity := activity[k := outcome];
      }
      r := activity[k];
    }

    method PublishPlan(steps: seq<StepId>)
      modifies this`plan
      ensures Records() == if old(plan).None? then WithPlan(old(Records()), steps) else old(Records())
    {
      if plan.None? {
        plan := Some(steps);
      }
    }

    method PublishFailure(k: Key)
      modifies this`failure
      ensures Records() == WithFailure(old(Records()), k)
    {
      failure := failure + {k};
    }

    method Decided(k: Key, value: Decision)
      modifies this`decision
      ensures Records() == if k in old(decision) then old(Records()) else WithDecision(old(Records()), k, value)
    {
      if k !in decision {
        decision := decision[k := value];
      }
    }

    /** Reads, writes once, reads again. */
    method CommitDecision(k: Key, value: Decision) returns (reply: Reply)
      modifies this`decision
      ensures Records() == if k in old(decision) then old(Records()) else WithDecision(old(Records()), k, value)
      ensures k in decision
      ensures reply == if decision[k] == value then Accepted(k) else Conflict(k, Some(decision[k]))
    {
      if k in decision {
        return if decision[k] == value then Accepted(k) else Conflict(k, Some(decision[k]));
      }
      Decided(k, value);
      var winner := decision[k];
      reply := if winner == value then Accepted(k) else Conflict(k, Some(winner));
    }

    /**
     * An undisturbed decision: accepted when it names the pending attempt, and
     * then recorded; otherwise nothing is written and the reply says why.
     */
    method DecideCompensation(poll: Poll, step: StepId, attempt: int, value: Decision) returns (reply: Reply)
      modifies this`decision
      ensures var pending, own := PendingCompensation(old(Records()), poll), Key(step, attempt);
              if pending == Some(own) then
                Records() == WithDecision(old(Records()), own, value) && reply == Accepted(own)
              else
                && Records() == old(Records())
                && reply == if pending.Some? then Conflict(pending.value, None)
                            else if own !in old(decision) then NotPending
                            else if old(decision[own]) == value then Accepted(own)
                            else Conflict(own, Some(old(decision[own])))
      ensures (Records(), reply) == DecidePass(old(Records()), poll, Decide(step, attempt, value))
    {
      var pending := PendingCompensation(Records(), poll);
      PendingIsUndecided(Records(), poll);
      if pending.None? {
        var own := Key(step, attempt);
        if own !in decision {
          return NotPending;
        }
        return if decision[own] == value then Accepted(own) else Conflict(own, Some(decision[own]));
      }
      if pending.value.step != step || pending.value.attempt != attempt {
        return Conflict(pending.value, None);
      }
      reply := CommitDecision(pending.value, value);
    }

    method DecidePendingCompensation(poll: Poll, value: Decision) returns (reply: Reply)
      modifies this`decision
      ensures var pending := PendingCompensation(old(Records()), poll);
              if pending.None? then Records() == old(Records()) && reply == NotPending
              else Records() == WithDecision(old(Records()), pending.value, value) && reply == Accepted(pending.value)
      ensures (Records(), reply) == DecidePass(old(Records()), poll, DecidePending(value))
    {
      var pending := PendingCompensation(Records(), poll);
      PendingIsUndecided(Records(), poll);
      if pending.None? {
        return NotPending;
      }
      reply := CommitDecision(pending.value, value);
    }
  }

  class DurableCompensation {
    const engine: Engine
    var compensations: seq<StepId>

    constructor (engine: Engine)
      ensures this.engine == engine && compensations == []
    {
      this.engine := engine;
      compensations := [];
    }

    /** Runs a step; its undo is registered once its activity completed. */
    method Add(s: StepId, outcome: Outcome) returns (r: Outcome)
      modifies this`compensations, engine`forward
      ensures engine.Records() == if s in old(engine.forward) then old(engine.Records())
                                  else WithForward(old(engine.Records()), s, outcome)
      ensures s in engine.forward && r == engine.forward[s]
      ensures compensations == if r.Succeeded? then old(compensations) + [s] else old(compensations)
    {
      r := engine.ExecuteStep(s, outcome);
      if r.Succeeded? {
        compensations := compensations + [s];
      }
    }

    method Run(s: StepId, attempt: int, o: Oracle) returns (ended: bool)
      modifies engine`activity, engine`failure
      ensures Pass(engine.Records(), ended) == StepPass(o, old(engine.Records()), s, attempt)
      ensures Recorded(o, old(engine.Records()), engine.Records())
      ensures Conforms(o, old(engine.Records())) ==> Conforms(o, engine.Records())
      ensures var status := StatusFrom(engine.Records(), s, attempt);
              if ended then status.Settled? else status.Waiting?
      decreases LaterDecisions(engine.Records(), s, attempt)
    {
      StepPassMeans(o, engine.Records(), s, attempt);
      RecordedConforms(o, engine.Records(), StepPass(o, engine.Records(), s, attempt).records);
      var k := Key(s, attempt);
      var r := engine.ExecuteUndo(k, o.undo(k));
      if r.Succeeded? {
        return true;
      }
      engine.PublishFailure(k);
      if k !in engine.decision {
        return false;
      }
      if engine.decision[k].Stop? {
        return true;
      }
      assert k in old(LaterDecisions(engine.Records(), s, attempt));
      assert k !in LaterDecisions(engine.Records(), s, attempt + 1);
      ended := Run(s, attempt + 1, o);
    }

    method Compensate(o: Oracle) returns (ended: bool)
      modifies engine`plan, engine`activity, engine`failure
      ensures Pass(engine.Records(), ended) == CompensatePass(o, old(engine.Records()), compensations)
      ensures Recorded(o, old(engine.Records()), engine.Records())
      ensures Conforms(o, old(engine.Records())) ==> Conforms(o, engine.Records())
      ensures engine.plan == if old(engine.plan).None? then Some(Reverse(compensations)) else old(engine.plan)
      ensures WorkedThrough(old(engine.Records()), engine.Records(), Reverse(compensations), ended)
    {
      hide StepPass, StatusFrom, Recorded, WorkedThrough, Conforms;
      CompensatePassMeans(o, engine.Records(), compensations);
      RecordedConforms(o, engine.Records(), CompensatePass(o, engine.Records(), compensations).records);
      var plan := Reverse(compensations);
      engine.PublishPlan(plan);
      ghost var start := engine.Records();
      var i := 0;
      ended := true;
      while i < |plan|
        invariant 0 <= i <= |plan|
        invariant ended
        invariant PlanPass(o, start, plan) == PlanPass(o, engine.Records(), plan[i..])
      {
        ended := Run(plan[i], 1, o);
        if !ended {
          return;
        }
        i := i + 1;
      }
    }
  }

  /** One replay of the wrapped workflow handler. */
  method Execute(engine: Engine, h: Handler, o: Oracle) returns (exit: Option<Exit>)
    modifies engine`forward, engine`plan, engine`activity, engine`failure
    ensures (engine.Records(), exit) == WorkflowPass(o, old(engine.Records()), h)
    ensures Recorded(o, old(engine.Records()), engine.Records())
    ensures Conforms(o, old(engine.Records())) ==> Conforms(o, engine.Records())
    ensures exit.Some? && exit.value.Failure? && old(engine.plan).None? ==>
              (engine.plan.Some? <==> exists i :: 0 <= i < |exit.value.cause| &&
                                                  (exit.value.cause[i].Fail? || exit.value.cause[i].Die?))
    ensures exit.None? ==> engine.plan.Some?
  {
    hide Recorded, Conforms, WorkedThrough, StatusFrom, CompensatePass;
    WorkflowPassMeans(o, engine.Records(), h);
    RecordedConforms(o, engine.Records(), WorkflowPass(o, engine.Records(), h).0);
    var compensation := new DurableCompensation(engine);
    ghost var start := engine.Records();
    var at := h;
    while at.Run?
      invariant compensation.engine == engine && fresh(compensation)
      invariant engine.plan == start.plan && engine.activity == start.activity
      invariant engine.failure == start.failure && engine.decision == start.decision
      invariant HandlerPass(o, start, h, []) == HandlerPass(o, engine.Records(), at, compensation.compensations)
      decreases at
    {
      match KindOfStep(at.args)
      case Dies =>
        at := at.onFailure;
      case Registers =>
        var r := compensation.Add(at.id, o.forward(at.id));
        at := if r.Succeeded? then at.onSuccess else at.onFailure;
      case Plain =>
        var r := engine.ExecuteStep(at.id, o.forward(at.id));
        at := if r.Succeeded? then at.onSuccess else at.onFailure;
    }
    if at.exit.Success? || HasInterruptsOnly(at.exit.cause) {
      return Some(at.exit);
    }
    var ended := compensation.Compensate(o);
    exit := if ended then Some(at.exit) else None;
  }

  // --- The code is a run of the protocol -------------------------------------------------

  /** Turns of the process alone, each with the outcome the oracle gives it. */
  predicate Follows(h: Handler, o: Oracle, w: World, turns: seq<Action>)
    decreases |turns|
  {
    turns == [] ||
    (turns[0] == Proceed(OutcomeOf(o, w.process)) && Follows(h, o, Step(h, w, turns[0]), turns[1..]))
  }

  lemma {:induction false} Then(h: Handler, o: Oracle, w: World, first: seq<Action>, rest: seq<Action>)
    requires Follows(h, o, w, first) && Follows(h, o, Exec(h, w, first), rest)
    ensures Follows(h, o, w, first + rest)
    ensures Exec(h, w, first + rest) == Exec(h, Exec(h, w, first), rest)
    decreases |first|
  {
    hide Step;
    if first == [] {
      assert first + rest == rest;
    } else {
      assert (first + rest)[1..] == first[1..] + rest;
      Then(h, o, Step(h, w, first[0]), first[1..], rest);
    }
  }

  lemma OneTurn(h: Handler, o: Oracle, w: World)
    ensures Follows(h, o, w, [Proceed(OutcomeOf(o, w.process))])
    ensures Exec(h, w, [Proceed(OutcomeOf(o, w.process))]) == Step(h, w, Proceed(OutcomeOf(o, w.process)))
  {
    hide Step;
  }

  /** One attempt: executed, and if it failed published and its decision looked at. */
  lemma AttemptRuns(h: Handler, o: Oracle, w: World, cause: Cause, plan: seq<StepId>, cursor: nat, n: int)
    returns (actions: seq<Action>)
    requires w.result.None? && cursor < |plan| && w.process == Compensating(cause, plan, cursor, n, Attempting)
    ensures Follows(h, o, w, actions)
    ensures var k, later := Key(plan[cursor], n), Exec(h, w, actions);
            var tried := Attempt(o, w.records, k);
            && later.result.None?
            && later.records == (if tried.activity[k].Succeeded? then tried else WithFailure(tried, k))
            && later.process ==
               if tried.activity[k].Failed? && k !in w.records.decision then Idle
               else if tried.activity[k].Failed? && w.records.decision[k].Retry? then
                 Compensating(cause, plan, cursor, n + 1, Attempting)
               else Compensating(cause, plan, cursor + 1, 1, Attempting)
  {
    var k := Key(plan[cursor], n);
    var a := Proceed(o.undo(k));
    var tried := Step(h, w, a);
    OneTurn(h, o, w);
    actions := [a];
    if tried.records.activity[k].Failed? {
      var published := Step(h, tried, a);
      OneTurn(h, o, tried);
      OneTurn(h, o, published);
      hide Exec, Follows;
      Then(h, o, w, [a], [a]);
      Then(h, o, w, [a] + [a], [a]);
      actions := [a] + [a] + [a];
    }
  }

  /** The replay of one step, turn by turn. */
  lemma {:induction false} StepPassRuns(h: Handler, o: Oracle, w: World, cause: Cause, plan: seq<StepId>, cursor: nat,
                                        n: int) returns (actions: seq<Action>)
    requires w.result.None? && cursor < |plan| && w.process == Compensating(cause, plan, cursor, n, Attempting)
    ensures Follows(h, o, w, actions)
    ensures var pass, later := StepPass(o, w.records, plan[cursor], n), Exec(h, w, actions);
            && later.records == pass.records && later.result.None?
            && later.process == if pass.ended then Compensating(cause, plan, cursor + 1, 1, Attempting) else Idle
    decreases LaterDecisions(w.records, plan[cursor], n)
  {
    hide Step, Exec, Follows;
    var k := Key(plan[cursor], n);
    actions := AttemptRuns(h, o, w, cause, plan, cursor, n);
    var later := Exec(h, w, actions);
    if later.records.activity[k].Failed? && k in w.records.decision && w.records.decision[k].Retry? {
      assert k in LaterDecisions(w.records, k.step, n) && k !in LaterDecisions(later.records, k.step, n + 1);
      var more := StepPassRuns(h, o, later, cause, plan, cursor, n + 1);
      Then(h, o, w, actions, more);
      actions := actions + more;
    }
  }

  lemma {:induction false} PlanPassRuns(h: Handler, o: Oracle, w: World, cause: Cause, plan: seq<StepId>, cursor: nat)
    returns (actions: seq<Action>)
    requires w.result.None? && cursor <= |plan| && w.process == Compensating(cause, plan, cursor, 1, Attempting)
    ensures Follows(h, o, w, actions)
    ensures var pass, later := PlanPass(o, w.records, plan[cursor..]), Exec(h, w, actions);
            && later.records == pass.records && later.process.Idle?
            && later.result == if pass.ended then Some(Completed(Failure(cause))) else None
    decreases |plan| - cursor
  {
    hide StepPass, Exec, Follows;
    if cursor == |plan| {
      actions := [Proceed(Succeeded)];
      OneTurn(h, o, w);
    } else {
      actions := StepPassRuns(h, o, w, cause, plan, cursor, 1);
      var later := Exec(h, w, actions);
      assert plan[cursor..][1..] == plan[cursor + 1..];
      if later.process.Compensating? {
        var more := PlanPassRuns(h, o, later, cause, plan, cursor + 1);
        Then(h, o, w, actions, more);
        actions := actions + more;
      }
    }
  }

  lemma {:induction false} HandlerPassRuns(h: Handler, o: Oracle, w: World, at: Handler, registered: seq<StepId>)
    returns (actions: seq<Action>)
    requires w.result.None? && w.process == Handling(at, registered)
    ensures Follows(h, o, w, actions)
    ensures var (exit, registered', records) := HandlerPass(o, w.records, at, registered);
            var later := Exec(h, w, actions);
            later.records == records && later.result.None? && later.process == Handling(Finish(exit), registered')
    decreases at
  {
    actions := [];
    if at.Run? {
      var a := Proceed(o.forward(at.id));
      var later := Step(h, w, a);
      OneTurn(h, o, w);
      var more := HandlerPassRuns(h, o, later, later.process.at, later.process.registered);
      Then(h, o, w, [a], more);
      actions := [a] + more;
    }
  }

  lemma ExitPassRuns(h: Handler, o: Oracle, w: World, exit: Exit, registered: seq<StepId>) returns (turns: seq<Action>)
    requires w.result.None? && w.process == Handling(Finish(exit), registered)
    ensures Follows(h, o, w, turns)
    ensures var (records, exit') := ExitPass(o, w.records, exit, registered);
            var later := Exec(h, w, turns);
            && later.records == records && later.process.Idle?
            && later.result == if exit'.Some? then Some(Completed(exit'.value)) else None
  {
    hide Exec, Follows, PlanPass;
    var a := Proceed(Succeeded);
    var left := Step(h, w, a);
    OneTurn(h, o, w);
    turns := [a];
    if left.process.Publishing? {
      var cause, plan := left.process.cause, left.process.plan;
      var published := Step(h, left, a);
      OneTurn(h, o, left);
      Then(h, o, w, [a], [a]);
      var more := PlanPassRuns(h, o, published, cause, plan, 0);
      assert plan[0..] == plan;
      Then(h, o, w, [a] + [a], more);
      turns := [a] + [a] + more;
    }
  }

  /**
   * One call of the code is a run of the protocol: from an idle process, a start
   * followed by turns of the process alone, each with the oracle's outcome,
   * reaches the same records and exit.
   */
  lemma ReplayIsARun(h: Handler, o: Oracle, w: World) returns (turns: seq<Action>)
    requires w.result.None? && w.process.Idle?
    ensures Follows(h, o, Step(h, w, Start), turns)
    ensures var (records, exit) := WorkflowPass(o, w.records, h);
            var later := Exec(h, w, [Start] + turns);
            && later.records == records && later.process.Idle?
            && later.result == if exit.Some? then Some(Completed(exit.value)) else None
  {
    hide Exec, Follows, ExitPass, HandlerPass;
    var begun := Step(h, w, Start);
    var first := HandlerPassRuns(h, o, begun, h, []);
    var handled := Exec(h, begun, first);
    var rest := ExitPassRuns(h, o, handled, handled.process.at.exit, handled.process.registered);
    Then(h, o, begun, first, rest);
    ExecCons(h, w, Start, first + rest);
    turns := first + rest;
  }
}
