/**
 * Durable compensation as a protocol: one process that replays the workflow
 * handler and its rollback over the durable records, any number of operators
 * that come and decide failed attempts, crashes and interrupts, in any interleaving.
 *
 * A run is any sequence of actions; every action is a total step.
 */
module CompensationProtocol {
  import opened Wrappers
  import opened CompensationRecords

  // --- Handlers -----------------------------------------------------------------

  datatype Reason = Fail(error: int) | Die(defect: int) | Interrupt

  type Cause = reasons: seq<Reason> | reasons != [] witness [Interrupt]

  predicate HasInterruptsOnly(cause: Cause) {
    forall i :: 0 <= i < |cause| ==> cause[i].Interrupt?
  }

  datatype Exit = Success | Failure(cause: Cause)

  /** The arguments of `step.run`: an options object with `do`, or positional ones. */
  datatype StepArgs =
    | Options(retry: bool, undo: bool)
    | Positional(isEffect: bool, undo: bool)

  datatype StepKind = Registers | Plain | Dies

  function KindOfStep(args: StepArgs): StepKind {
    match args
    case Options(retry, undo) =>
      if retry then (if undo then Registers else Plain)
      else if undo then Registers
      else Plain
    case Positional(isEffect, undo) =>
      if undo then (if !isEffect then Dies else Registers)
      else if !isEffect then Dies
      else Plain
  }

  /** A deterministic handler: it branches on nothing but the outcomes of its steps. */
  datatype Handler =
    | Finish(exit: Exit)
    | Run(id: StepId, args: StepArgs, onSuccess: Handler, onFailure: Handler)

  /** Runs a handler over recorded step outcomes, up to its exit or the first unrecorded step. */
  function Replay(at: Handler, registered: seq<StepId>, forward: map<StepId, Outcome>): (Handler, seq<StepId>) {
    match at
    case Finish(_) => (at, registered)
    case Run(id, args, onSuccess, onFailure) =>
      match KindOfStep(args)
      case Dies => Replay(onFailure, registered, forward)
      case kind =>
        if id !in forward then (at, registered)
        else if forward[id].Failed? then Replay(onFailure, registered, forward)
        else Replay(onSuccess, if kind.Registers? then registered + [id] else registered, forward)
  }

  function Reverse(s: seq<StepId>): seq<StepId> {
    if s == [] then [] else Reverse(s[1..]) + [s[0]]
  }

  // --- The process ----------------------------------------------------------------

  datatype Phase = Attempting | Reporting | Awaiting

  datatype Process =
    | Idle
    | Handling(at: Handler, registered: seq<StepId>)
    | Publishing(cause: Cause, plan: seq<StepId>)
    | Compensating(cause: Cause, plan: seq<StepId>, cursor: nat, attempt: int, phase: Phase)

  /** The effect of one turn of the process. */
  datatype Turn = Turn(records: Records, executed: Option<Key>, process: Process, exit: Option<Exit>)

  function Begin(h: Handler): Process {
    Handling(h, [])
  }

  /** One turn; `outcome` is the outcome of the activity it executes, if it executes one. */
  function TurnOf(d: Records, p: Process, outcome: Outcome): Turn {
    match p
    case Idle => Turn(d, None, Idle, None)
    case Handling(at, registered) => HandlerTurn(d, at, registered, outcome)
    case Publishing(cause, plan) =>
      var later := if d.plan.None? then WithPlan(d, plan) else d;
      Turn(later, None, Compensating(cause, plan, 0, 1, Attempting), None)
    case Compensating(cause, plan, cursor, attempt, phase) =>
      if cursor >= |plan| then Turn(d, None, Idle, Some(Failure(cause)))
      else CompensationTurn(d, cause, plan, cursor, attempt, phase, outcome)
  }

  function HandlerTurn(d: Records, at: Handler, registered: seq<StepId>, outcome: Outcome): Turn {
    match at
    case Finish(Success) => Turn(d, None, Idle, Some(Success))
    case Finish(Failure(cause)) =>
      if HasInterruptsOnly(cause) then Turn(d, None, Idle, Some(Failure(cause)))
      else Turn(d, None, Publishing(cause, Reverse(registered)), None)
    case Run(id, args, onSuccess, onFailure) =>
      match KindOfStep(args)
      case Dies => Turn(d, None, Handling(onFailure, registered), None)
      case kind =>
        var later := if id in d.forward then d else WithForward(d, id, outcome);
        if later.forward[id].Failed? then Turn(later, None, Handling(onFailure, registered), None)
        else Turn(later, None, Handling(onSuccess, if kind.Registers? then registered + [id] else registered), None)
  }

  function CompensationTurn(d: Records, cause: Cause, plan: seq<StepId>, cursor: nat, attempt: int, phase: Phase,
                            outcome: Outcome): Turn
    requires cursor < |plan|
  {
    var k := Key(plan[cursor], attempt);
    match phase
    case Attempting =>
      var later := if k in d.activity then d else WithActivity(d, k, outcome);
      var executed := if k in d.activity then None else Some(k);
      if later.activity[k].Succeeded? then Turn(later, executed, Compensating(cause, plan, cursor + 1, 1, Attempting), None)
      else Turn(later, executed, Compensating(cause, plan, cursor, attempt, Reporting), None)
    case Reporting =>
      Turn(WithFailure(d, k), None, Compensating(cause, plan, cursor, attempt, Awaiting), None)
    case Awaiting =>
      if k !in d.decision then Turn(d, None, Idle, None)
      else if d.decision[k].Retry? then Turn(d, None, Compensating(cause, plan, cursor, attempt + 1, Attempting), None)
      else Turn(d, None, Compensating(cause, plan, cursor + 1, 1, Attempting), None)
  }

  // --- The operators ---------------------------------------------------------------

  datatype Request =
    | Decide(step: StepId, attempt: int, decision: Decision)
    | DecidePending(decision: Decision)

  /** `Accepted` names the attempt whose decision the call confirmed. */
  datatype Reply = Accepted(key: Key) | NotPending | Conflict(key: Key, accepted: Option<Decision>)

  datatype Pc =
    | Polling
    | ReadingPlan
    | ReadingFailure(plan: seq<StepId>, index: nat, attempt: int)
    | ReadingDecision(plan: seq<StepId>, index: nat, attempt: int)
    | Answered(pending: Option<Key>)
    | ReadingOwn
    | Committing(key: Key)
    | Writing(key: Key)
    | Confirming(key: Key)
    | Replied(reply: Reply)

  /** `seen` collects what the atomic reading answered at each read of this call's walk. */
  datatype Operator = Operator(request: Request, pc: Pc, polled: Poll, seen: set<Option<Key>>)

  function Call(request: Request): Operator {
    Operator(request, Polling, NotStarted, {})
  }

  function OwnKey(request: Request): Key
    requires request.Decide?
  {
    Key(request.step, request.attempt)
  }

  function NextStep(plan: seq<StepId>, index: nat): Pc {
    if index + 1 < |plan| then ReadingFailure(plan, index + 1, 1) else Answered(None)
  }

  function ReplyFor(k: Key, accepted: Decision, decision: Decision): Pc {
    if accepted == decision then Replied(Accepted(k)) else Replied(Conflict(k, Some(accepted)))
  }

  /** One read or write of an operator's call. */
  function OperatorTurn(d: Records, poll: Poll, op: Operator): (Records, Operator) {
    var looked := op.(seen := op.seen + {PendingCompensation(d, Suspended)});
    match op.pc
    case Polling => (d, op.(pc := if poll.Suspended? then ReadingPlan else Answered(None), polled := poll))
    case ReadingPlan =>
      if d.plan.None? || d.plan.value == [] then (d, looked.(pc := Answered(None)))
      else (d, looked.(pc := ReadingFailure(d.plan.value, 0, 1)))
    case ReadingFailure(plan, index, attempt) =>
      if index < |plan| && Key(plan[index], attempt) in d.failure then (d, looked.(pc := ReadingDecision(plan, index, attempt)))
      else (d, looked.(pc := NextStep(plan, index)))
    case ReadingDecision(plan, index, attempt) =>
      if index >= |plan| then (d, op) else
      var k := Key(plan[index], attempt);
      if k !in d.decision then (d, looked.(pc := Answered(Some(k))))
      else if d.decision[k].Stop? then (d, looked.(pc := NextStep(plan, index)))
      else (d, looked.(pc := ReadingFailure(plan, index, attempt + 1)))
    case Answered(pending) => (d, op.(pc := AfterAnswer(op.request, pending)))
    case ReadingOwn =>
      if op.request.DecidePending? then (d, op) else
      var k := OwnKey(op.request);
      if k !in d.decision then (d, op.(pc := Replied(NotPending)))
      else (d, op.(pc := ReplyFor(k, d.decision[k], op.request.decision)))
    case Committing(k) =>
      if k in d.decision then (d, op.(pc := ReplyFor(k, d.decision[k], op.request.decision)))
      else (d, op.(pc := Writing(k)))
    case Writing(k) =>
      (if k in d.decision then d else WithDecision(d, k, op.request.decision), op.(pc := Confirming(k)))
    case Confirming(k) =>
      if k !in d.decision then (d, op)
      else (d, op.(pc := ReplyFor(k, d.decision[k], op.request.decision)))
    case Replied(_) => (d, op)
  }

  function AfterAnswer(request: Request, pending: Option<Key>): Pc {
    match request
    case Decide(step, attempt, _) =>
      if pending.None? then ReadingOwn
      else if pending.value != Key(step, attempt) then Replied(Conflict(pending.value, None))
      else Committing(pending.value)
    case DecidePending(_) =>
      if pending.None? then Replied(NotPending) else Committing(pending.value)
  }

  /** What an undisturbed call does to the records, and what it answers. */
  function DecidePass(d: Records, poll: Poll, request: Request): (Records, Reply) {
    var pending := PendingCompensation(d, poll);
    match request
    case Decide(step, attempt, decision) =>
      var own := Key(step, attempt);
      if pending == Some(own) then (WithDecision(d, own, decision), Accepted(own))
      else if pending.Some? then (d, Conflict(pending.value, None))
      else if own !in d.decision then (d, NotPending)
      else if d.decision[own] == decision then (d, Accepted(own))
      else (d, Conflict(own, Some(d.decision[own])))
    case DecidePending(decision) =>
      if pending.None? then (d, NotPending)
      else (WithDecision(d, pending.value, decision), Accepted(pending.value))
  }

  // --- Runs --------------------------------------------------------------------------

  datatype Result = Completed(exit: Exit) | Interrupted

  /** `executed` lists the compensation activities executed and persisted so far. */
  datatype World = World(
    records: Records,
    executed: seq<Key>,
    result: Option<Result>,
    process: Process,
    operators: seq<Operator>)

  datatype Action =
    | Start
    | Proceed(outcome: Outcome)
    | Crash
    | InterruptRun
    | Arrive(request: Request)
    | Operate(who: nat, suspended: bool)

  function Initial(requests: seq<Request>): World {
    World(NO_RECORDS, [], None, Idle, seq(|requests|, i requires 0 <= i < |requests| => Call(requests[i])))
  }

  function Step(h: Handler, w: World, a: Action): World {
    match a
    case Start =>
      if w.result.None? && w.process.Idle? then w.(process := Begin(h)) else w
    case Proceed(outcome) =>
      if w.result.Some? then w else
      var turn := TurnOf(w.records, w.process, outcome);
      w.(records := turn.records,
         executed := if turn.executed.Some? then w.executed + [turn.executed.value] else w.executed,
         process := turn.process,
         result := if turn.exit.Some? then Some(Completed(turn.exit.value)) else None)
    case Crash => w.(process := Idle)
    case InterruptRun =>
      if w.result.None? then w.(result := Some(Interrupted), process := Idle) else w
    case Arrive(request) => w.(operators := w.operators + [Call(request)])
    case Operate(who, suspended) =>
      if who >= |w.operators| then w else
      var poll := if w.result.Some? then Complete else if suspended then Suspended else NotStarted;
      var (later, op) := OperatorTurn(w.records, poll, w.operators[who]);
      w.(records := later, operators := w.operators[who := op])
  }

  function Exec(h: Handler, w: World, actions: seq<Action>): World
    decreases |actions|
  {
    if actions == [] then w else Exec(h, Step(h, w, actions[0]), actions[1..])
  }

  function ExecAll(h: Handler, requests: seq<Request>, actions: seq<Action>): World {
    Exec(h, Initial(requests), actions)
  }

  // --- Invariants --------------------------------------------------------------------

  /** The handler, replayed over the records, fails with `cause` having registered `plan` reversed. */
  ghost predicate Rollback(h: Handler, d: Records, cause: Cause, plan: seq<StepId>) {
    var (at, registered) := Replay(h, [], d.forward);
    at == Finish(Failure(cause)) && !HasInterruptsOnly(cause) && plan == Reverse(registered)
  }

  ghost predicate PlanRecorded(h: Handler, d: Records) {
    d.plan.Some? ==> exists cause :: Rollback(h, d, cause, d.plan.value)
  }

  ghost predicate ProcessOnPath(h: Handler, d: Records, p: Process) {
    match p
    case Idle => true
    case Handling(at, registered) => Replay(at, registered, d.forward) == Replay(h, [], d.forward)
    case Publishing(cause, plan) => Rollback(h, d, cause, plan)
    case Compensating(cause, plan, cursor, attempt, phase) =>
      && Rollback(h, d, cause, plan)
      && d.plan == Some(plan)
      && cursor <= |plan|
      && PrefixSettled(d, plan, cursor)
      && 1 <= attempt
      && (cursor < |plan| ==>
            && RetriedBefore(d, plan[cursor], attempt)
            && AtPhase(d, Key(plan[cursor], attempt), phase))
  }

  ghost predicate AtPhase(d: Records, k: Key, phase: Phase) {
    match phase
    case Attempting => true
    case Reporting => k in d.activity && d.activity[k].Failed?
    case Awaiting => k in d.activity && d.activity[k].Failed? && k in d.failure
  }

  ghost predicate Walked(d: Records, op: Operator, plan: seq<StepId>, index: nat, attempt: int) {
    && op.polled.Suspended?
    && d.plan == Some(plan)
    && index < |plan|
    && 1 <= attempt
    && RetriedBefore(d, plan[index], attempt)
    && (None in op.seen || PrefixSettled(d, plan, index))
  }

  ghost predicate Addressed(op: Operator, k: Key) {
    op.request.Decide? ==> k == OwnKey(op.request)
  }

  ghost predicate OperatorSound(d: Records, op: Operator) {
    match op.pc
    case Polling => true
    case ReadingPlan => op.polled.Suspended?
    case ReadingFailure(plan, index, attempt) => Walked(d, op, plan, index, attempt)
    case ReadingDecision(plan, index, attempt) =>
      Walked(d, op, plan, index, attempt) && Key(plan[index], attempt) in d.failure
    case Answered(pending) =>
      && (op.polled.Suspended? ==> pending in op.seen)
      && (pending.Some? ==> pending.value in d.failure)
    case ReadingOwn => op.request.Decide? && (op.polled.Suspended? ==> None in op.seen)
    case Committing(k) => Addressed(op, k) && k in d.failure
    case Writing(k) => Addressed(op, k) && k in d.failure
    case Confirming(k) => Addressed(op, k) && k in d.decision
    case Replied(reply) => ReplySound(d, op, reply)
  }

  ghost predicate ReplySound(d: Records, op: Operator, reply: Reply) {
    match reply
    case Accepted(k) => Addressed(op, k) && k in d.decision && d.decision[k] == op.request.decision
    case NotPending => op.polled.Suspended? ==> None in op.seen
    case Conflict(k, accepted) =>
      if accepted.Some? then
        Addressed(op, k) && k in d.decision && d.decision[k] == accepted.value && accepted.value != op.request.decision
      else
        op.request.Decide? && k != OwnKey(op.request) && k in d.failure
  }

  ghost predicate ResultSound(h: Handler, d: Records, result: Option<Result>) {
    result.Some? && result.value.Completed? ==>
      && Replay(h, [], d.forward).0 == Finish(result.value.exit)
      && (result.value.exit.Failure? && !HasInterruptsOnly(result.value.exit.cause) ==>
            d.plan.Some? && PrefixSettled(d, d.plan.value, |d.plan.value|))
  }

  ghost predicate ExecutedOnce(d: Records, executed: seq<Key>) {
    && (forall k :: k in executed <==> k in d.activity)
    && (forall i, j :: 0 <= i < j < |executed| ==> executed[i] != executed[j])
  }

  ghost predicate Inv(h: Handler, w: World) {
    && Coherent(w.records)
    && PlanRecorded(h, w.records)
    && ProcessOnPath(h, w.records, w.process)
    && (forall i :: 0 <= i < |w.operators| ==> OperatorSound(w.records, w.operators[i]))
    && ResultSound(h, w.records, w.result)
    && ExecutedOnce(w.records, w.executed)
  }

  lemma ExtendsSelf(d: Records)
    ensures Extends(d, d)
  {
  }

  // --- Growth of the records keeps every local fact ------------------------------------

  lemma {:induction false} ReplayGrows(at: Handler, registered: seq<StepId>, forward: map<StepId, Outcome>, later: map<StepId, Outcome>)
    requires forall s :: s in forward ==> s in later && later[s] == forward[s]
    ensures var (at', registered') := Replay(at, registered, forward);
            Replay(at', registered', later) == Replay(at, registered, later)
  {
    if at.Run? {
      var registered' := if KindOfStep(at.args).Registers? then registered + [at.id] else registered;
      ReplayGrows(at.onFailure, registered, forward, later);
      ReplayGrows(at.onSuccess, registered', forward, later);
    }
  }

  lemma RollbackGrows(h: Handler, d: Records, later: Records, cause: Cause, plan: seq<StepId>)
    requires Extends(d, later) && Rollback(h, d, cause, plan)
    ensures Rollback(h, later, cause, plan)
  {
    ReplayGrows(h, [], d.forward, later.forward);
  }

  lemma PlanRecordedGrows(h: Handler, d: Records, later: Records)
    requires Extends(d, later) && d.plan == later.plan && PlanRecorded(h, d)
    ensures PlanRecorded(h, later)
  {
    if d.plan.Some? {
      var cause :| Rollback(h, d, cause, d.plan.value);
      RollbackGrows(h, d, later, cause, d.plan.value);
    }
  }

  lemma ProcessStaysOnPath(h: Handler, d: Records, later: Records, p: Process)
    requires Extends(d, later) && ProcessOnPath(h, d, p)
    ensures ProcessOnPath(h, later, p)
  {
    match p
    case Idle =>
    case Handling(at, registered) =>
      ReplayGrows(at, registered, d.forward, later.forward);
      ReplayGrows(h, [], d.forward, later.forward);
    case Publishing(cause, plan) =>
      RollbackGrows(h, d, later, cause, plan);
    case Compensating(cause, plan, cursor, attempt, phase) =>
      RollbackGrows(h, d, later, cause, plan);
      PrefixStays(d, later, plan, cursor);
  }

  lemma OperatorStaysSound(d: Records, later: Records, op: Operator)
    requires Extends(d, later) && OperatorSound(d, op)
    ensures OperatorSound(later, op)
  {
    match op.pc
    case ReadingFailure(plan, index, attempt) =>
      if PrefixSettled(d, plan, index) {
        PrefixStays(d, later, plan, index);
      }
    case ReadingDecision(plan, index, attempt) =>
      if PrefixSettled(d, plan, index) {
        PrefixStays(d, later, plan, index);
      }
    case _ =>
  }

  lemma ResultStaysSound(h: Handler, d: Records, later: Records, result: Option<Result>)
    requires Extends(d, later) && ResultSound(h, d, result)
    ensures ResultSound(h, later, result)
  {
    ReplayGrows(h, [], d.forward, later.forward);
    if d.plan.Some? && PrefixSettled(d, d.plan.value, |d.plan.value|) {
      PrefixStays(d, later, d.plan.value, |d.plan.value|);
    }
  }

  // --- Every turn keeps the invariants ---------------------------------------------------

  /** A turn records at most one new compensation activity and reports it. */
  ghost predicate ExecutionReported(d: Records, turn: Turn) {
    match turn.executed
    case None => turn.records.activity.Keys == d.activity.Keys
    case Some(k) => k !in d.activity && turn.records.activity.Keys == d.activity.Keys + {k}
  }

  ghost predicate TurnSound(h: Handler, d: Records, turn: Turn) {
    && Coherent(turn.records)
    && Extends(d, turn.records)
    && PlanRecorded(h, turn.records)
    && ProcessOnPath(h, turn.records, turn.process)
    && ExecutionReported(d, turn)
    && (turn.exit.Some? ==> turn.process.Idle? && ResultSound(h, turn.records, Some(Completed(turn.exit.value))))
  }

  lemma HandlerTurnSound(h: Handler, d: Records, at: Handler, registered: seq<StepId>, outcome: Outcome)
    requires Coherent(d) && PlanRecorded(h, d) && ProcessOnPath(h, d, Handling(at, registered))
    ensures TurnSound(h, d, HandlerTurn(d, at, registered, outcome))
  {
    hide Coherent, PlanRecorded;
    ExtendsSelf(d);
    if at.Run? && !KindOfStep(at.args).Dies? && at.id !in d.forward {
      var later := WithForward(d, at.id, outcome);
      ForwardKeepsCoherent(d, at.id, outcome);
      PlanRecordedGrows(h, d, later);
      ProcessStaysOnPath(h, d, later, Handling(at, registered));
    }
  }

  lemma AttemptRecordsSound(d: Records, cause: Cause, plan: seq<StepId>, cursor: nat, attempt: int, outcome: Outcome)
    requires Coherent(d) && d.plan == Some(plan) && cursor < |plan| && 1 <= attempt
    requires PrefixSettled(d, plan, cursor) && RetriedBefore(d, plan[cursor], attempt)
    ensures var later := CompensationTurn(d, cause, plan, cursor, attempt, Attempting, outcome).records;
            Coherent(later) && Extends(d, later)
  {
    var k := Key(plan[cursor], attempt);
    if k !in d.activity {
      ActivityKeepsCoherent(d, plan, cursor, attempt, outcome);
      assert CompensationTurn(d, cause, plan, cursor, attempt, Attempting, outcome).records == WithActivity(d, k, outcome);
    } else {
      assert CompensationTurn(d, cause, plan, cursor, attempt, Attempting, outcome).records == d;
    }
  }

  lemma TurnReportsExecution(d: Records, cause: Cause, plan: seq<StepId>, cursor: nat, attempt: int,
                             phase: Phase, outcome: Outcome)
    requires cursor < |plan|
    ensures var turn := CompensationTurn(d, cause, plan, cursor, attempt, phase, outcome);
            ExecutionReported(d, turn) && turn.records.plan == d.plan
  {
    var k := Key(plan[cursor], attempt);
    assert WithActivity(d, k, outcome).activity.Keys == d.activity.Keys + {k};
  }

  /** The cursor moves on only past a settled step. */
  lemma CursorMovesPastSettled(d: Records, plan: seq<StepId>, cursor: nat, attempt: int)
    requires Coherent(d) && cursor < |plan| && 1 <= attempt
    requires PrefixSettled(d, plan, cursor) && RetriedBefore(d, plan[cursor], attempt)
    requires StatusFrom(d, plan[cursor], attempt).Settled?
    ensures PrefixSettled(d, plan, cursor + 1)
  {
    StatusAfterRetries(d, plan[cursor], 1, attempt);
  }

  lemma CompensationProcessSound(h: Handler, d: Records, cause: Cause, plan: seq<StepId>, cursor: nat, attempt: int,
                                 phase: Phase, outcome: Outcome)
    requires Coherent(d) && cursor < |plan|
    requires ProcessOnPath(h, d, Compensating(cause, plan, cursor, attempt, phase))
    requires var turn := CompensationTurn(d, cause, plan, cursor, attempt, phase, outcome);
             Coherent(turn.records) && Extends(d, turn.records)
    ensures var turn := CompensationTurn(d, cause, plan, cursor, attempt, phase, outcome);
            ProcessOnPath(h, turn.records, turn.process)
  {
    hide Coherent, Rollback, IsSettled;
    var turn := CompensationTurn(d, cause, plan, cursor, attempt, phase, outcome);
    var later := turn.records;
    RollbackGrows(h, d, later, cause, plan);
    PrefixStays(d, later, plan, cursor);
    if turn.process.Compensating? && turn.process.cursor == cursor + 1 {
      CursorMovesPastSettled(later, plan, cursor, attempt);
    }
  }

  lemma CompensationTurnSound(h: Handler, d: Records, cause: Cause, plan: seq<StepId>, cursor: nat, attempt: int,
                              phase: Phase, outcome: Outcome)
    requires Coherent(d) && PlanRecorded(h, d) && cursor < |plan|
    requires ProcessOnPath(h, d, Compensating(cause, plan, cursor, attempt, phase))
    ensures TurnSound(h, d, CompensationTurn(d, cause, plan, cursor, attempt, phase, outcome))
  {
    hide Coherent, PlanRecorded;
    ExtendsSelf(d);
    match phase {
      case Attempting => AttemptRecordsSound(d, cause, plan, cursor, attempt, outcome);
      case Reporting => FailureKeepsCoherent(d, Key(plan[cursor], attempt));
      case Awaiting =>
    }
    TurnReportsExecution(d, cause, plan, cursor, attempt, phase, outcome);
    CompensationProcessSound(h, d, cause, plan, cursor, attempt, phase, outcome);
    PlanRecordedGrows(h, d, CompensationTurn(d, cause, plan, cursor, attempt, phase, outcome).records);
  }

  lemma TurnOfSound(h: Handler, d: Records, p: Process, outcome: Outcome)
    requires Coherent(d) && PlanRecorded(h, d) && ProcessOnPath(h, d, p)
    ensures TurnSound(h, d, TurnOf(d, p, outcome))
  {
    match p
    case Idle =>
    case Handling(at, registered) =>
      HandlerTurnSound(h, d, at, registered, outcome);
    case Publishing(cause, plan) =>
      if d.plan.None? {
        PlanKeepsCoherent(d, plan);
      } else {
        var recorded :| Rollback(h, d, recorded, d.plan.value);
      }
      RollbackGrows(h, d, TurnOf(d, p, outcome).records, cause, plan);
    case Compensating(cause, plan, cursor, attempt, phase) =>
      if cursor < |plan| {
        CompensationTurnSound(h, d, cause, plan, cursor, attempt, phase, outcome);
      }
  }

  // --- Every operator turn keeps the invariants --------------------------------------------

  /** When a walk passes a step, either nothing was pending at that read or the step is settled. */
  lemma WalkPasses(d: Records, plan: seq<StepId>, index: nat, attempt: int)
    requires Coherent(d) && d.plan == Some(plan) && index < |plan| && 1 <= attempt
    requires PrefixSettled(d, plan, index) && RetriedBefore(d, plan[index], attempt)
    requires Key(plan[index], attempt) !in d.failure
    ensures PendingCompensation(d, Suspended) == None || PrefixSettled(d, plan, index + 1)
  {
    var pending := PendingCompensation(d, Suspended);
    if pending.Some? {
      var k := pending.value;
      PendingCompensationExact(d, k);
      PendingIsWaiting(d, k);
      StatusAfterRetries(d, plan[index], 1, attempt);
      PositionIsFirst(plan, index);
      assert PrefixSettled(d, plan, index + 1) by {
        if k.step != plan[index] {
          SettledBefore(d, plan, index, k);
        }
      }
    }
  }

  /** A step outside the settled prefix that waits leaves every step in front of it settled. */
  lemma SettledBefore(d: Records, plan: seq<StepId>, index: nat, k: Key)
    requires Coherent(d) && d.plan == Some(plan) && index < |plan|
    requires PrefixSettled(d, plan, index) && Pending(d, k) && k.step != plan[index]
    ensures IsSettled(d, plan[index])
  {
    PendingIsWaiting(d, k);
    var i := Position(plan, k.step);
    assert i < index ==> IsSettled(d, plan[i]);
    PositionIsFirst(plan, index);
  }

  /** A walk that passes its step keeps its bargain: it saw nothing pending, or the step is settled. */
  lemma WalkMovesOn(d: Records, op: Operator, plan: seq<StepId>, index: nat, attempt: int)
    requires Coherent(d) && Walked(d, op, plan, index, attempt)
    requires Key(plan[index], attempt) !in d.failure
             || (Key(plan[index], attempt) in d.decision && d.decision[Key(plan[index], attempt)].Stop?)
    ensures OperatorSound(d, op.(seen := op.seen + {PendingCompensation(d, Suspended)}, pc := NextStep(plan, index)))
  {
    var seen := op.seen + {PendingCompensation(d, Suspended)};
    if None !in seen {
      if Key(plan[index], attempt) !in d.failure {
        WalkPasses(d, plan, index, attempt);
      } else {
        CursorMovesPastSettled(d, plan, index, attempt);
      }
      if index + 1 >= |plan| {
        AllSettledNothingPending(d, plan);
      }
    }
  }

  lemma MembersSettled(d: Records, plan: seq<StepId>, s: StepId)
    requires PrefixSettled(d, plan, |plan|)
    ensures s in plan ==> IsSettled(d, s)
  {
    if s in plan {
      assert IsSettled(d, plan[Position(plan, s)]);
    }
  }

  lemma AllSettledNothingPending(d: Records, plan: seq<StepId>)
    requires Coherent(d) && d.plan == Some(plan) && PrefixSettled(d, plan, |plan|)
    ensures PendingCompensation(d, Suspended) == None
  {
    var pending := PendingCompensation(d, Suspended);
    if pending.Some? {
      PendingCompensationExact(d, pending.value);
      MembersSettled(d, plan, pending.value.step);
      PendingIsWaiting(d, pending.value);
    }
  }

  lemma WalkTurnSound(d: Records, poll: Poll, op: Operator)
    requires Coherent(d) && OperatorSound(d, op)
    requires op.pc.ReadingPlan? || op.pc.ReadingFailure? || op.pc.ReadingDecision?
    ensures var (later, op') := OperatorTurn(d, poll, op);
            later == d && op'.request == op.request && OperatorSound(d, op')
  {
    hide Coherent, NextStep;
    match op.pc
    case ReadingPlan =>
      if d.plan.None? || d.plan.value == [] {
        PendingCompensationExact(d, Key([], 1));
      }
    case ReadingFailure(plan, index, attempt) =>
      if Key(plan[index], attempt) !in d.failure {
        WalkMovesOn(d, op, plan, index, attempt);
      }
    case ReadingDecision(plan, index, attempt) =>
      var k := Key(plan[index], attempt);
      if k !in d.decision {
        PendingCompensationExact(d, k);
      } else if d.decision[k].Stop? {
        WalkMovesOn(d, op, plan, index, attempt);
      }
  }

  /** An operator writes nothing but its own decision, and only on a pending failure. */
  ghost predicate WritesOnlyDecision(d: Records, later: Records, decision: Decision) {
    later == d || exists k :: Pending(d, k) && later == WithDecision(d, k, decision)
  }

  lemma CommitTurnSound(d: Records, poll: Poll, op: Operator)
    requires OperatorSound(d, op)
    requires !(op.pc.ReadingPlan? || op.pc.ReadingFailure? || op.pc.ReadingDecision?)
    ensures var (later, op') := OperatorTurn(d, poll, op);
            WritesOnlyDecision(d, later, op.request.decision) && op'.request == op.request && OperatorSound(later, op')
  {
    if op.pc.Writing? && op.pc.key !in d.decision {
      assert Pending(d, op.pc.key);
    }
  }

  lemma OperatorTurnSound(d: Records, poll: Poll, op: Operator)
    requires Coherent(d) && OperatorSound(d, op)
    ensures var (later, op') := OperatorTurn(d, poll, op);
            WritesOnlyDecision(d, later, op.request.decision) && op'.request == op.request && OperatorSound(later, op')
  {
    if op.pc.ReadingPlan? || op.pc.ReadingFailure? || op.pc.ReadingDecision? {
      WalkTurnSound(d, poll, op);
    } else {
      CommitTurnSound(d, poll, op);
    }
  }

  // --- Every run ------------------------------------------------------------------------------

  lemma OthersStaySound(d: Records, later: Records, operators: seq<Operator>)
    requires Extends(d, later)
    requires forall i :: 0 <= i < |operators| ==> OperatorSound(d, operators[i])
    ensures forall i :: 0 <= i < |operators| ==> OperatorSound(later, operators[i])
  {
    forall i | 0 <= i < |operators|
      ensures OperatorSound(later, operators[i])
    {
      OperatorStaysSound(d, later, operators[i]);
    }
  }

  lemma ProceedKeepsInv(h: Handler, w: World, outcome: Outcome)
    requires Inv(h, w) && w.result.None?
    ensures Inv(h, Step(h, w, Proceed(outcome))) && Extends(w.records, Step(h, w, Proceed(outcome)).records)
  {
    hide Coherent, OperatorSound, ProcessOnPath, PlanRecorded, TurnOf, Extends;
    TurnOfSound(h, w.records, w.process, outcome);
    OthersStaySound(w.records, TurnOf(w.records, w.process, outcome).records, w.operators);
  }

  lemma OperateKeepsInv(h: Handler, w: World, who: nat, suspended: bool)
    requires Inv(h, w) && who < |w.operators|
    ensures Inv(h, Step(h, w, Operate(who, suspended)))
    ensures Extends(w.records, Step(h, w, Operate(who, suspended)).records)
  {
    hide Coherent, OperatorSound, ProcessOnPath, ResultSound, PlanRecorded, OperatorTurn, Extends;
    ExtendsSelf(w.records);
    var poll := if w.result.Some? then Complete else if suspended then Suspended else NotStarted;
    var (later, op) := OperatorTurn(w.records, poll, w.operators[who]);
    OperatorTurnSound(w.records, poll, w.operators[who]);
    if later != w.records {
      var k :| Pending(w.records, k) && later == WithDecision(w.records, k, w.operators[who].request.decision);
      DecisionKeepsCoherent(w.records, k, w.operators[who].request.decision);
    }
    OthersStaySound(w.records, later, w.operators);
    PlanRecordedGrows(h, w.records, later);
    ProcessStaysOnPath(h, w.records, later, w.process);
    ResultStaysSound(h, w.records, later, w.result);
  }

  lemma CallIsSound(d: Records, request: Request)
    ensures OperatorSound(d, Call(request))
  {
  }

  lemma StepKeepsInv(h: Handler, w: World, a: Action)
    requires Inv(h, w)
    ensures Inv(h, Step(h, w, a)) && Extends(w.records, Step(h, w, a).records)
  {
    hide Coherent, OperatorSound, PlanRecorded, TurnOf, OperatorTurn, Extends;
    ExtendsSelf(w.records);
    ReplayGrows(h, [], w.records.forward, w.records.forward);
    match a
    case Proceed(outcome) =>
      if w.result.None? {
        ProceedKeepsInv(h, w, outcome);
      }
    case Operate(who, suspended) =>
      if who < |w.operators| {
        OperateKeepsInv(h, w, who, suspended);
      }
    case Arrive(request) => CallIsSound(w.records, request);
    case _ =>
  }

  lemma {:induction false} ExecKeepsInv(h: Handler, w: World, actions: seq<Action>)
    requires Inv(h, w)
    ensures Inv(h, Exec(h, w, actions)) && Extends(w.records, Exec(h, w, actions).records)
    decreases |actions|
  {
    if actions != [] {
      StepKeepsInv(h, w, actions[0]);
      ExecKeepsInv(h, Step(h, w, actions[0]), actions[1..]);
    }
  }

  lemma {:induction false} EveryRun(h: Handler, requests: seq<Request>, actions: seq<Action>)
    ensures Inv(h, ExecAll(h, requests, actions))
  {
    ExecKeepsInv(h, Initial(requests), actions);
  }
}
