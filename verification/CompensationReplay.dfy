/**
 * Crash transparency: with a deterministic handler, fixed outcomes and fixed
 * decisions, crashes, suspensions and replays leave the records of one
 * uninterrupted run.
 */
module CompensationReplay {
  import opened Wrappers
  import opened CompensationRecords
  import opened CompensationProtocol
  import opened CompensationGuarantees

  /** What every step, every undo attempt and every decision comes out as. */
  datatype Oracle = Oracle(forward: StepId -> Outcome, undo: Key -> Outcome, decide: Key -> Decision)

  /** Everything recorded came out as the oracle says. */
  ghost predicate Conforms(o: Oracle, d: Records) {
    && (forall s :: s in d.forward ==> d.forward[s] == o.forward(s))
    && (forall k :: k in d.activity ==> d.activity[k] == o.undo(k))
    && (forall k :: k in d.decision ==> d.decision[k] == o.decide(k))
  }

  // --- The uninterrupted run -------------------------------------------------------

  /** One process that never crashes; a decision it waits for arrives at once. */
  datatype Solo = Solo(records: Records, process: Process, exit: Option<Exit>)

  function SoloBegin(h: Handler): Solo {
    Solo(NO_RECORDS, Begin(h), None)
  }

  function OutcomeOf(o: Oracle, p: Process): Outcome {
    match p
    case Handling(Run(id, _, _, _), _) => o.forward(id)
    case Compensating(_, plan, cursor, attempt, _) =>
      if cursor < |plan| then o.undo(Key(plan[cursor], attempt)) else Succeeded
    case _ => Succeeded
  }

  function AwaitedKey(d: Records, p: Process): Option<Key> {
    match p
    case Compensating(_, plan, cursor, attempt, Awaiting) =>
      if cursor < |plan| && Key(plan[cursor], attempt) !in d.decision then Some(Key(plan[cursor], attempt)) else None
    case _ => None
  }

  function SoloStep(o: Oracle, s: Solo): Solo {
    if s.exit.Some? then s
    else if AwaitedKey(s.records, s.process).Some? then
      var k := AwaitedKey(s.records, s.process).value;
      s.(records := WithDecision(s.records, k, o.decide(k)))
    else
      var turn := TurnOf(s.records, s.process, OutcomeOf(o, s.process));
      Solo(turn.records, turn.process, turn.exit)
  }

  function SoloRun(o: Oracle, s: Solo, n: nat): Solo
    decreases n
  {
    if n == 0 then s else SoloRun(o, SoloStep(o, s), n - 1)
  }

  // --- The one order in which registers can be written --------------------------------

  /** The next register a replay over `d` has to write, as the oracle writes it. */
  function Advance(h: Handler, o: Oracle, d: Records): Option<Records> {
    var (at, registered) := Replay(h, [], d.forward);
    match at
    case Run(id, _, _, _) => Some(WithForward(d, id, o.forward(id)))
    case Finish(Success) => None
    case Finish(Failure(cause)) =>
      if HasInterruptsOnly(cause) then None
      else if d.plan.None? then Some(WithPlan(d, Reverse(registered)))
      else AdvancePlan(o, d, d.plan.value)
  }

  function AdvancePlan(o: Oracle, d: Records, plan: seq<StepId>): Option<Records> {
    if plan == [] then None
    else
      match StatusFrom(d, plan[0], 1)
      case Settled(_) => AdvancePlan(o, d, plan[1..])
      case Fresh(n) => Some(WithActivity(d, Key(plan[0], n), o.undo(Key(plan[0], n))))
      case Unpublished(n) => Some(WithFailure(d, Key(plan[0], n)))
      case Waiting(n) => Some(WithDecision(d, Key(plan[0], n), o.decide(Key(plan[0], n))))
  }

  function Chain(h: Handler, o: Oracle, n: nat): Records {
    if n == 0 then NO_RECORDS
    else
      var d := Chain(h, o, n - 1);
      var next := Advance(h, o, d);
      if next.Some? then next.value else d
  }

  lemma {:induction false} AdvancePastSettled(o: Oracle, d: Records, plan: seq<StepId>, cursor: nat)
    requires cursor <= |plan| && PrefixSettled(d, plan, cursor)
    ensures AdvancePlan(o, d, plan) == AdvancePlan(o, d, plan[cursor..])
  {
    if cursor > 0 {
      assert IsSettled(d, plan[0]);
      forall j | 0 <= j < cursor - 1
        ensures IsSettled(d, plan[1..][j])
      {
        assert IsSettled(d, plan[j + 1]);
      }
      AdvancePastSettled(o, d, plan[1..], cursor - 1);
      assert plan[1..][cursor - 1..] == plan[cursor..];
    } else {
      assert plan[cursor..] == plan;
    }
  }

  lemma CompensationTurnAdvances(h: Handler, o: Oracle, d: Records, cause: Cause, plan: seq<StepId>, cursor: nat,
                                 attempt: int, phase: Phase, outcome: Outcome)
    requires Coherent(d) && cursor < |plan|
    requires ProcessOnPath(h, d, Compensating(cause, plan, cursor, attempt, phase))
    requires Conforms(o, CompensationTurn(d, cause, plan, cursor, attempt, phase, outcome).records)
    ensures var later := CompensationTurn(d, cause, plan, cursor, attempt, phase, outcome).records;
            later == d || Advance(h, o, d) == Some(later)
  {
    hide InOrder, ActivitiesFollow;
    var later := CompensationTurn(d, cause, plan, cursor, attempt, phase, outcome).records;
    if later != d {
      var k := Key(plan[cursor], attempt);
      AdvancePastSettled(o, d, plan, cursor);
      StatusAfterRetries(d, plan[cursor], 1, attempt);
      assert plan[cursor..][0] == plan[cursor];
      if phase.Attempting? {
        assert k in later.activity;
      } else {
        assert k !in d.failure;
        assert k !in d.decision;
      }
    }
  }

  lemma TurnAdvances(h: Handler, o: Oracle, d: Records, p: Process, outcome: Outcome)
    requires Coherent(d) && ProcessOnPath(h, d, p)
    requires Conforms(o, TurnOf(d, p, outcome).records)
    ensures var later := TurnOf(d, p, outcome).records;
            later == d || Advance(h, o, d) == Some(later)
  {
    match p
    case Compensating(cause, plan, cursor, attempt, phase) =>
      if cursor < |plan| {
        CompensationTurnAdvances(h, o, d, cause, plan, cursor, attempt, phase, outcome);
      }
    case Handling(at, registered) =>
      if at.Run? && at.id !in d.forward && !KindOfStep(at.args).Dies? {
        assert at.id in TurnOf(d, p, outcome).records.forward;
      }
    case _ =>
  }

  lemma DecisionAdvances(h: Handler, o: Oracle, d: Records, k: Key)
    requires Coherent(d) && PlanRecorded(h, d) && Pending(d, k)
    ensures Advance(h, o, d) == Some(WithDecision(d, k, o.decide(k)))
  {
    PendingIsWaiting(d, k);
    var plan := d.plan.value;
    var cause :| Rollback(h, d, cause, plan);
    var i := Position(plan, k.step);
    forall j | 0 <= j < i
      ensures IsSettled(d, plan[j])
    {
      PositionIsFirst(plan, j);
    }
    AdvancePastSettled(o, d, plan, i);
    assert plan[i..][0] == k.step;
  }

  /** Once a run has completed there is nothing left to write. */
  lemma CompletedIsLast(h: Handler, o: Oracle, d: Records, exit: Exit)
    requires ResultSound(h, d, Some(Completed(exit)))
    ensures Advance(h, o, d) == None
  {
    if d.plan.Some? && PrefixSettled(d, d.plan.value, |d.plan.value|) {
      AdvancePastSettled(o, d, d.plan.value, |d.plan.value|);
    }
  }

  // --- Any run stays on the chain ---------------------------------------------------------

  lemma StepOnChain(h: Handler, o: Oracle, w: World, a: Action, n: nat) returns (m: nat)
    requires Inv(h, w) && w.records == Chain(h, o, n)
    requires Conforms(o, Step(h, w, a).records)
    ensures Step(h, w, a).records == Chain(h, o, m)
  {
    hide Conforms, TurnOf, OperatorTurn, Advance, Coherent, PlanRecorded, ProcessOnPath;
    var later := Step(h, w, a).records;
    m := n;
    if later != w.records {
      if a.Proceed? {
        TurnAdvances(h, o, w.records, w.process, a.outcome);
      } else {
        OperateAdvances(h, o, w, a.who, a.suspended);
      }
      m := n + 1;
    }
  }

  lemma OperateAdvances(h: Handler, o: Oracle, w: World, who: nat, suspended: bool)
    requires Inv(h, w) && Step(h, w, Operate(who, suspended)).records != w.records
    requires Conforms(o, Step(h, w, Operate(who, suspended)).records)
    ensures Advance(h, o, w.records) == Some(Step(h, w, Operate(who, suspended)).records)
  {
    var poll := if w.result.Some? then Complete else if suspended then Suspended else NotStarted;
    var op := w.operators[who];
    OperatorTurnSound(w.records, poll, op);
    var k :| Pending(w.records, k)
             && Step(h, w, Operate(who, suspended)).records == WithDecision(w.records, k, op.request.decision);
    DecisionAdvances(h, o, w.records, k);
    assert k in WithDecision(w.records, k, op.request.decision).decision;
  }

  lemma {:induction false} RunOnChain(h: Handler, requests: seq<Request>, actions: seq<Action>, o: Oracle) returns (n: nat)
    requires Conforms(o, ExecAll(h, requests, actions).records)
    ensures ExecAll(h, requests, actions).records == Chain(h, o, n)
    decreases |actions|
  {
    n := 0;
    if actions != [] {
      var before, last := actions[..|actions| - 1], actions[|actions| - 1];
      assert actions == before + [last];
      ExecSplits(h, Initial(requests), before, [last]);
      var w := ExecAll(h, requests, before);
      assert ExecAll(h, requests, actions) == Step(h, w, last);
      EveryRun(h, requests, before);
      StepKeepsInv(h, w, last);
      n := RunOnChain(h, requests, before, o);
      n := StepOnChain(h, o, w, last, n);
    }
  }

  // --- The uninterrupted run walks the whole chain -------------------------------------------

  ghost predicate SoloSound(h: Handler, o: Oracle, s: Solo) {
    && Coherent(s.records)
    && PlanRecorded(h, s.records)
    && Conforms(o, s.records)
    && (match s.exit
        case None => !s.process.Idle? && ProcessOnPath(h, s.records, s.process)
        case Some(exit) => ResultSound(h, s.records, Some(Completed(exit))))
  }

  lemma SoloDecides(h: Handler, o: Oracle, s: Solo)
    requires SoloSound(h, o, s) && s.exit.None? && AwaitedKey(s.records, s.process).Some?
    ensures SoloSound(h, o, SoloStep(o, s)) && SoloStep(o, s).exit.None?
    ensures Advance(h, o, s.records) == Some(SoloStep(o, s).records)
  {
    var k := AwaitedKey(s.records, s.process).value;
    assert Pending(s.records, k);
    DecisionAdvances(h, o, s.records, k);
    DecisionKeepsCoherent(s.records, k, o.decide(k));
    PlanRecordedGrows(h, s.records, SoloStep(o, s).records);
    ProcessStaysOnPath(h, s.records, SoloStep(o, s).records, s.process);
  }

  lemma WritesConform(o: Oracle, d: Records, s: StepId, k: Key, plan: seq<StepId>)
    requires Conforms(o, d)
    ensures Conforms(o, WithForward(d, s, o.forward(s))) && Conforms(o, WithPlan(d, plan))
    ensures Conforms(o, WithActivity(d, k, o.undo(k))) && Conforms(o, WithFailure(d, k))
    ensures Conforms(o, WithDecision(d, k, o.decide(k)))
  {
  }

  lemma TurnConforms(o: Oracle, d: Records, p: Process)
    requires Conforms(o, d)
    ensures Conforms(o, TurnOf(d, p, OutcomeOf(o, p)).records)
  {
    hide Conforms;
    match p
    case Idle =>
    case Handling(at, _) => WritesConform(o, d, if at.Run? then at.id else [], Key([], 1), []);
    case Publishing(_, plan) => WritesConform(o, d, [], Key([], 1), plan);
    case Compensating(_, plan, cursor, attempt, _) =>
      if cursor < |plan| {
        WritesConform(o, d, [], Key(plan[cursor], attempt), []);
      }
  }

  /** Only a process that waits for a decision goes idle without an exit. */
  lemma TurnKeepsRunning(d: Records, p: Process, outcome: Outcome)
    requires !p.Idle? && AwaitedKey(d, p).None?
    ensures var turn := TurnOf(d, p, outcome); turn.process.Idle? <==> turn.exit.Some?
  {
  }

  lemma SoloTurns(h: Handler, o: Oracle, s: Solo)
    requires SoloSound(h, o, s) && s.exit.None? && AwaitedKey(s.records, s.process).None?
    ensures SoloSound(h, o, SoloStep(o, s))
    ensures SoloStep(o, s).records == s.records || Advance(h, o, s.records) == Some(SoloStep(o, s).records)
  {
    var outcome := OutcomeOf(o, s.process);
    TurnConforms(o, s.records, s.process);
    TurnAdvances(h, o, s.records, s.process, outcome);
    TurnOfSound(h, s.records, s.process, outcome);
    TurnKeepsRunning(s.records, s.process, outcome);
  }

  /** What is left of the handler. */
  ghost function Remaining(p: Process): Handler {
    if p.Handling? then p.at else Finish(Success)
  }

  ghost function Stage(p: Process): nat {
    match p case Handling(_, _) => 3 case Publishing(_, _) => 2 case Compensating(_, _, _, _, _) => 1 case Idle => 0
  }

  ghost function StepsLeft(p: Process): nat {
    if p.Compensating? && p.cursor <= |p.plan| then |p.plan| - p.cursor else 0
  }

  ghost function DecisionsLeft(d: Records, p: Process): set<Key> {
    if p.Compensating? && p.cursor < |p.plan| then LaterDecisions(d, p.plan[p.cursor], p.attempt) else {}
  }

  ghost function PhasesLeft(p: Process): nat {
    if p.Compensating? then (match p.phase case Attempting => 2 case Reporting => 1 case Awaiting => 0) else 0
  }

  /** `q` is closer than `p` to the next register or to the exit. */
  ghost predicate Closer(d: Records, p: Process, q: Process) {
    || Stage(q) < Stage(p)
    || (Stage(q) == Stage(p) &&
         (|| Remaining(q) < Remaining(p)
          || (Remaining(q) == Remaining(p) &&
               (|| StepsLeft(q) < StepsLeft(p)
                || (StepsLeft(q) == StepsLeft(p) &&
                     (|| DecisionsLeft(d, q) < DecisionsLeft(d, p)
                      || (DecisionsLeft(d, q) == DecisionsLeft(d, p) && PhasesLeft(q) < PhasesLeft(p))))))))
  }

  lemma QuietTurnProgresses(d: Records, p: Process, outcome: Outcome)
    requires TurnOf(d, p, outcome).records == d && !p.Idle?
    requires p.Compensating? ==> p.cursor <= |p.plan|
    ensures Closer(d, p, TurnOf(d, p, outcome).process)
  {
    if p.Compensating? && p.cursor < |p.plan| && p.phase.Awaiting? {
      var k := Key(p.plan[p.cursor], p.attempt);
      if k in d.decision && d.decision[k].Retry? {
        assert k in LaterDecisions(d, k.step, k.attempt) && k !in LaterDecisions(d, k.step, k.attempt + 1);
      }
    }
  }

  lemma SoloQuiet(h: Handler, o: Oracle, s: Solo)
    requires SoloSound(h, o, s) && s.exit.None? && AwaitedKey(s.records, s.process).None?
    requires SoloStep(o, s).records == s.records
    ensures Closer(s.records, s.process, SoloStep(o, s).process)
  {
    QuietTurnProgresses(s.records, s.process, OutcomeOf(o, s.process));
  }

  lemma SoloExitIsLast(h: Handler, o: Oracle, s: Solo)
    requires SoloSound(h, o, s) && s.exit.Some?
    ensures Advance(h, o, s.records) == None
  {
    CompletedIsLast(h, o, s.records, s.exit.value);
  }

  /** From any point of the uninterrupted run: the next register gets written, or the run exits. */
  lemma {:induction false} SoloProgresses(h: Handler, o: Oracle, s: Solo) returns (n: nat)
    requires SoloSound(h, o, s) && s.exit.None?
    ensures SoloSound(h, o, SoloRun(o, s, n))
    ensures match Advance(h, o, s.records)
            case Some(later) => SoloRun(o, s, n).records == later
            case None => SoloRun(o, s, n).records == s.records && SoloRun(o, s, n).exit.Some?
    decreases Stage(s.process), Remaining(s.process), StepsLeft(s.process), DecisionsLeft(s.records, s.process), PhasesLeft(s.process)
  {
    hide SoloSound, Advance, SoloStep;
    var t := SoloStep(o, s);
    if AwaitedKey(s.records, s.process).Some? {
      SoloDecides(h, o, s);
      n := 1;
    } else {
      SoloTurns(h, o, s);
      if t.records != s.records {
        n := 1;
      } else if t.exit.Some? {
        SoloExitIsLast(h, o, t);
        n := 1;
      } else {
        SoloQuiet(h, o, s);
        n := SoloProgresses(h, o, t);
        n := n + 1;
      }
    }
  }

  lemma {:induction false} SoloRunAdds(o: Oracle, s: Solo, m: nat, n: nat)
    ensures SoloRun(o, s, m + n) == SoloRun(o, SoloRun(o, s, m), n)
    decreases m
  {
    if m > 0 {
      SoloRunAdds(o, SoloStep(o, s), m - 1, n);
    }
  }

  lemma SoloBeginsSound(h: Handler, o: Oracle)
    ensures SoloSound(h, o, SoloBegin(h))
  {
  }

  lemma {:induction false} SoloReaches(h: Handler, o: Oracle, n: nat) returns (m: nat)
    ensures SoloRun(o, SoloBegin(h), m).records == Chain(h, o, n)
    ensures SoloSound(h, o, SoloRun(o, SoloBegin(h), m))
  {
    m := 0;
    SoloBeginsSound(h, o);
    hide SoloSound, Advance, SoloStep;
    if n > 0 {
      m := SoloReaches(h, o, n - 1);
      var s := SoloRun(o, SoloBegin(h), m);
      if Advance(h, o, s.records).Some? {
        if s.exit.Some? {
          SoloExitIsLast(h, o, s);
        }
        var more := SoloProgresses(h, o, s);
        SoloRunAdds(o, SoloBegin(h), m, more);
        m := m + more;
      }
    }
  }

  // --- The theorems -----------------------------------------------------------------------------

  /**
   * Whatever the crashes, suspensions, replays, interrupts and operators, the
   * records of a run are the records of the uninterrupted run at some point;
   * and if the run completes, the uninterrupted run completes with the same
   * records and the same exit.
   */
  lemma CrashTransparency(h: Handler, requests: seq<Request>, actions: seq<Action>, o: Oracle) returns (n: nat)
    requires Conforms(o, ExecAll(h, requests, actions).records)
    ensures SoloRun(o, SoloBegin(h), n).records == ExecAll(h, requests, actions).records
    ensures var result := ExecAll(h, requests, actions).result;
            result.Some? && result.value.Completed? ==> SoloRun(o, SoloBegin(h), n).exit == Some(result.value.exit)
  {
    var w := ExecAll(h, requests, actions);
    var reached := RunOnChain(h, requests, actions, o);
    n := SoloReaches(h, o, reached);
    var s := SoloRun(o, SoloBegin(h), n);
    if w.result.Some? && w.result.value.Completed? {
      EveryRun(h, requests, actions);
      CompletedIsLast(h, o, w.records, w.result.value.exit);
      if s.exit.None? {
        var more := SoloProgresses(h, o, s);
        SoloRunAdds(o, SoloBegin(h), n, more);
        n := n + more;
      }
    }
  }

  lemma {:induction false} ChainEnds(h: Handler, o: Oracle, m: nat, n: nat)
    requires m <= n && Advance(h, o, Chain(h, o, m)) == None
    ensures Chain(h, o, n) == Chain(h, o, m)
    decreases n
  {
    if m < n {
      ChainEnds(h, o, m, n - 1);
    }
  }

  /** Two runs that complete under the same outcomes and decisions leave the same records and exit. */
  lemma CompletedRunsAgree(h: Handler, o: Oracle, requests: seq<Request>, actions: seq<Action>,
                           requests': seq<Request>, actions': seq<Action>, exit: Exit, exit': Exit)
    requires Conforms(o, ExecAll(h, requests, actions).records) && Conforms(o, ExecAll(h, requests', actions').records)
    requires ExecAll(h, requests, actions).result == Some(Completed(exit))
    requires ExecAll(h, requests', actions').result == Some(Completed(exit'))
    ensures ExecAll(h, requests, actions).records == ExecAll(h, requests', actions').records
    ensures exit == exit'
  {
    var m := RunOnChain(h, requests, actions, o);
    var n := RunOnChain(h, requests', actions', o);
    EveryRun(h, requests, actions);
    EveryRun(h, requests', actions');
    CompletedIsLast(h, o, ExecAll(h, requests, actions).records, exit);
    CompletedIsLast(h, o, ExecAll(h, requests', actions').records, exit');
    if m <= n {
      ChainEnds(h, o, m, n);
    } else {
      ChainEnds(h, o, n, m);
    }
  }

  /** Two runs under the same outcomes and decisions never diverge: the records of one extend the other's. */
  lemma RunsNeverDiverge(h: Handler, o: Oracle, requests: seq<Request>, actions: seq<Action>,
                         requests': seq<Request>, actions': seq<Action>)
    requires Conforms(o, ExecAll(h, requests, actions).records) && Conforms(o, ExecAll(h, requests', actions').records)
    ensures Extends(ExecAll(h, requests, actions).records, ExecAll(h, requests', actions').records)
            || Extends(ExecAll(h, requests', actions').records, ExecAll(h, requests, actions).records)
  {
    var m := RunOnChain(h, requests, actions, o);
    var n := RunOnChain(h, requests', actions', o);
    if m <= n {
      ChainGrows(h, o, m, n);
    } else {
      ChainGrows(h, o, n, m);
    }
  }

  lemma {:induction false} AdvanceGrows(h: Handler, o: Oracle, d: Records)
    ensures Advance(h, o, d).Some? ==> Extends(d, Advance(h, o, d).value)
  {
    var (at, registered) := Replay(h, [], d.forward);
    ReplayStopsFresh(h, [], d.forward);
    if at.Finish? && at.exit.Failure? && !HasInterruptsOnly(at.exit.cause) && d.plan.Some? {
      AdvancePlanGrows(o, d, d.plan.value);
    }
  }

  lemma {:induction false} ReplayStopsFresh(at: Handler, registered: seq<StepId>, forward: map<StepId, Outcome>)
    ensures var (stop, _) := Replay(at, registered, forward); stop.Run? ==> stop.id !in forward
  {
    if at.Run? {
      var registered' := if KindOfStep(at.args).Registers? then registered + [at.id] else registered;
      ReplayStopsFresh(at.onFailure, registered, forward);
      ReplayStopsFresh(at.onSuccess, registered', forward);
    }
  }

  lemma {:induction false} FreshIsUnrecorded(d: Records, s: StepId, n: int)
    ensures match StatusFrom(d, s, n) {
              case Fresh(m) => Key(s, m) !in d.activity
              case Waiting(m) => Key(s, m) !in d.decision
              case _ => true
            }
    decreases LaterDecisions(d, s, n)
  {
    var k := Key(s, n);
    if k in d.decision {
      assert k in LaterDecisions(d, s, n) && k !in LaterDecisions(d, s, n + 1);
      FreshIsUnrecorded(d, s, n + 1);
    }
  }

  lemma {:induction false} AdvancePlanGrows(o: Oracle, d: Records, plan: seq<StepId>)
    ensures AdvancePlan(o, d, plan).Some? ==> Extends(d, AdvancePlan(o, d, plan).value)
  {
    if plan != [] {
      FreshIsUnrecorded(d, plan[0], 1);
      AdvancePlanGrows(o, d, plan[1..]);
    }
  }

  lemma {:induction false} ChainGrows(h: Handler, o: Oracle, m: nat, n: nat)
    requires m <= n
    ensures Extends(Chain(h, o, m), Chain(h, o, n))
    decreases n
  {
    if m < n {
      ChainGrows(h, o, m, n - 1);
      AdvanceGrows(h, o, Chain(h, o, n - 1));
    }
  }
}
