/** How long an operator's call takes, and what it comes to when nobody interferes. */
module CompensationOperators {
  import opened Wrappers
  import opened CompensationRecords
  import opened CompensationProtocol
  import opened CompensationGuarantees

  // --- Every call replies -------------------------------------------------------------

  /** The turns a walk may need at one step of the plan: two for each attempt decided by the end, and two more. */
  ghost function TurnsPerStep(end: Records): nat {
    2 * |end.decision.Keys| + 2
  }

  /** The turns that `steps` steps of the plan may need. */
  ghost function TurnsFor(steps: nat, end: Records): nat {
    if steps == 0 then 0 else TurnsPerStep(end) + TurnsFor(steps - 1, end)
  }

  lemma {:induction false} TurnsForIs(steps: nat, end: Records)
    ensures TurnsFor(steps, end) == steps * (2 * |end.decision.Keys| + 2)
  {
    if steps > 0 {
      TurnsForIs(steps - 1, end);
    }
  }

  ghost function PlanLength(end: Records): nat {
    if end.plan.Some? then |end.plan.value| else 0
  }

  /** A bound on the turns an operator has left before it replies, by the records at the end of the run. */
  ghost function TurnsLeft(end: Records, pc: Pc): nat {
    match pc
    case Polling => 6 + TurnsFor(PlanLength(end), end)
    case ReadingPlan => 5 + TurnsFor(PlanLength(end), end)
    case ReadingFailure(plan, index, attempt) =>
      if index >= |plan| then 0
      else 4 + TurnsFor(|plan| - index - 1, end) + 2 * |LaterDecisions(end, plan[index], attempt)| + 2
    case ReadingDecision(plan, index, attempt) =>
      if index >= |plan| then 0
      else 4 + TurnsFor(|plan| - index - 1, end) + 2 * |LaterDecisions(end, plan[index], attempt)| + 1
    case Answered(_) => 4
    case ReadingOwn => 1
    case Committing(_) => 3
    case Writing(_) => 2
    case Confirming(_) => 1
    case Replied(_) => 0
  }

  lemma LaterIsFewer(end: Records, s: StepId, n: int)
    ensures 2 * |LaterDecisions(end, s, n)| + 2 <= TurnsPerStep(end)
    ensures Key(s, n) in end.decision ==> |LaterDecisions(end, s, n + 1)| < |LaterDecisions(end, s, n)|
  {
    SubsetSize(LaterDecisions(end, s, n), end.decision.Keys);
    if Key(s, n) in end.decision {
      SubsetSize(LaterDecisions(end, s, n + 1), LaterDecisions(end, s, n) - {Key(s, n)});
    }
  }

  lemma {:induction false} SubsetSize(a: set<Key>, b: set<Key>)
    requires a <= b
    ensures |a| <= |b|
  {
    assert b == a + (b - a);
  }

  lemma NextStepShortens(end: Records, plan: seq<StepId>, index: nat)
    requires index < |plan|
    ensures TurnsLeft(end, NextStep(plan, index)) <= 4 + TurnsFor(|plan| - index - 1, end)
  {
    if index + 1 < |plan| {
      LaterIsFewer(end, plan[index + 1], 1);
    }
  }

  lemma PlanTurnShortens(d: Records, end: Records, poll: Poll, op: Operator)
    requires op.pc.ReadingPlan? && Extends(d, end)
    ensures TurnsLeft(end, OperatorTurn(d, poll, op).1.pc) < TurnsLeft(end, op.pc)
  {
    hide PendingCompensation, TurnsPerStep;
    if d.plan.Some? && d.plan.value != [] {
      LaterIsFewer(end, d.plan.value[0], 1);
    }
  }

  lemma FailureTurnShortens(d: Records, end: Records, poll: Poll, op: Operator)
    requires op.pc.ReadingFailure? && op.pc.index < |op.pc.plan|
    ensures TurnsLeft(end, OperatorTurn(d, poll, op).1.pc) < TurnsLeft(end, op.pc)
  {
    hide PendingCompensation, TurnsPerStep, TurnsFor, NextStep;
    NextStepShortens(end, op.pc.plan, op.pc.index);
  }

  lemma DecisionTurnShortens(d: Records, end: Records, poll: Poll, op: Operator)
    requires op.pc.ReadingDecision? && op.pc.index < |op.pc.plan| && Extends(d, end)
    ensures TurnsLeft(end, OperatorTurn(d, poll, op).1.pc) < TurnsLeft(end, op.pc)
  {
    hide PendingCompensation, TurnsPerStep, TurnsFor, NextStep;
    NextStepShortens(end, op.pc.plan, op.pc.index);
    LaterIsFewer(end, op.pc.plan[op.pc.index], op.pc.attempt);
  }

  lemma CommitTurnShortens(d: Records, end: Records, poll: Poll, op: Operator)
    requires OperatorSound(d, op) && !op.pc.Replied? && !Walking(op)
    ensures TurnsLeft(end, OperatorTurn(d, poll, op).1.pc) < TurnsLeft(end, op.pc)
  {
    hide TurnsFor;
  }

  /** Each turn of its own brings a call nearer to its reply. */
  lemma TurnShortens(d: Records, end: Records, poll: Poll, op: Operator)
    requires OperatorSound(d, op) && !op.pc.Replied?
    requires Extends(d, end)
    ensures TurnsLeft(end, OperatorTurn(d, poll, op).1.pc) < TurnsLeft(end, op.pc)
  {
    hide TurnsLeft, OperatorTurn, Extends, PrefixSettled, RetriedBefore;
    match op.pc
    case ReadingPlan => PlanTurnShortens(d, end, poll, op);
    case ReadingFailure(_, _, _) => FailureTurnShortens(d, end, poll, op);
    case ReadingDecision(_, _, _) => DecisionTurnShortens(d, end, poll, op);
    case _ => CommitTurnShortens(d, end, poll, op);
  }

  function OwnTurns(actions: seq<Action>, who: nat): nat {
    if actions == [] then 0
    else (if actions[0].Operate? && actions[0].who == who then 1 else 0) + OwnTurns(actions[1..], who)
  }

  /** A step that is not the operator's own leaves its call alone. */
  lemma OthersLeaveCall(h: Handler, w: World, a: Action, who: nat)
    requires who < |w.operators| && !(a.Operate? && a.who == who)
    ensures who < |Step(h, w, a).operators| && Step(h, w, a).operators[who] == w.operators[who]
  {
    hide TurnOf, OperatorTurn;
  }

  lemma OwnStep(h: Handler, w: World, suspended: bool, who: nat)
    requires who < |w.operators|
    ensures var v := Step(h, w, Operate(who, suspended));
            && |v.operators| == |w.operators|
            && (v.records, v.operators[who]) == OperatorTurn(w.records, PollOf(w, suspended), w.operators[who])
            && v == w.(records := v.records, operators := w.operators[who := v.operators[who]])
  {
    hide OperatorTurn;
  }

  /** What a poll of the workflow answers in `w`. */
  function PollOf(w: World, suspended: bool): Poll {
    if w.result.Some? then Complete else if suspended then Suspended else NotStarted
  }

  /**
   * However its turns are interleaved with the process, crashes and other
   * operators, a call has replied after as many turns of its own as `TurnsLeft`
   * says: three once it commits.
   */
  lemma {:induction false} CallReplies(h: Handler, w: World, more: seq<Action>, who: nat)
    requires Inv(h, w) && who < |w.operators|
    requires OwnTurns(more, who) >= TurnsLeft(Exec(h, w, more).records, w.operators[who].pc)
    ensures who < |Exec(h, w, more).operators| && Exec(h, w, more).operators[who].pc.Replied?
    decreases |more|
  {
    hide Coherent, OperatorSound, TurnOf, OperatorTurn, TurnsLeft, Step;
    if more == [] {
      OnlyRepliedIsDone(w.records, w.operators[who]);
    } else {
      var v := Step(h, w, more[0]);
      StepKeepsInv(h, w, more[0]);
      ExecKeepsInv(h, w, more);
      if more[0].Operate? && more[0].who == who {
        OwnStep(h, w, more[0].suspended, who);
        if w.operators[who].pc.Replied? {
          RepliedStays(w.records, PollOf(w, more[0].suspended), w.operators[who], v.records);
        } else {
          TurnShortens(w.records, Exec(h, w, more).records, PollOf(w, more[0].suspended), w.operators[who]);
        }
      } else {
        OthersLeaveCall(h, w, more[0], who);
      }
      RepliedNeedsNothing(Exec(h, w, more).records, v.operators[who].pc);
      CallReplies(h, v, more[1..], who);
    }
  }

  lemma OnlyRepliedIsDone(d: Records, op: Operator)
    requires OperatorSound(d, op) && TurnsLeft(d, op.pc) == 0
    ensures op.pc.Replied?
  {
  }

  lemma RepliedNeedsNothing(d: Records, pc: Pc)
    ensures pc.Replied? ==> TurnsLeft(d, pc) == 0
  {
  }

  lemma RepliedStays(d: Records, poll: Poll, op: Operator, later: Records)
    requires op.pc.Replied?
    ensures OperatorTurn(d, poll, op) == (d, op)
  {
  }

  /** Six turns, and for each step of the plan two more and two for each decision. */
  ghost function CallBudget(end: Records): nat {
    6 + PlanLength(end) * (2 * |end.decision.Keys| + 2)
  }

  lemma BudgetIs(end: Records)
    ensures CallBudget(end) == 6 + TurnsFor(PlanLength(end), end)
  {
    TurnsForIs(PlanLength(end), end);
  }

  /** A call has replied, at the latest, when its own turns have used up the budget. */
  lemma CallIsBounded(h: Handler, w: World, more: seq<Action>, who: nat)
    requires Inv(h, w) && who < |w.operators|
    requires OwnTurns(more, who) >= CallBudget(Exec(h, w, more).records)
    ensures who < |Exec(h, w, more).operators| && Exec(h, w, more).operators[who].pc.Replied?
  {
    hide CallBudget, Inv, TurnsFor, TurnsLeft, Extends;
    BudgetIs(Exec(h, w, more).records);
    ExecKeepsInv(h, w, more);
    WalkIsWithinPlan(h, w, Exec(h, w, more).records, who);
    CallReplies(h, w, more, who);
  }

  lemma WalkIsWithinPlan(h: Handler, w: World, end: Records, who: nat)
    requires Inv(h, w) && who < |w.operators| && Extends(w.records, end)
    ensures TurnsLeft(end, w.operators[who].pc) <= 6 + TurnsFor(PlanLength(end), end)
  {
    hide Coherent, PlanRecorded, ProcessOnPath, ResultSound, ExecutedOnce, LaterDecisions, TurnsPerStep, TurnsFor;
    var op := w.operators[who];
    assert OperatorSound(w.records, op);
    if op.pc.ReadingFailure? || op.pc.ReadingDecision? {
      LaterIsFewer(end, op.pc.plan[op.pc.index], op.pc.attempt);
      TurnsForGrows(end, |op.pc.plan| - op.pc.index, |op.pc.plan|);
      TurnsForOne(end, |op.pc.plan| - op.pc.index);
    }
  }

  lemma TurnsForOne(end: Records, n: nat)
    requires n > 0
    ensures TurnsFor(n, end) == TurnsPerStep(end) + TurnsFor(n - 1, end)
  {
  }

  lemma {:induction false} TurnsForGrows(end: Records, m: nat, n: nat)
    requires m <= n
    ensures TurnsFor(m, end) <= TurnsFor(n, end)
    decreases n
  {
    if m < n {
      TurnsForGrows(end, m, n - 1);
    }
  }

  // --- An undisturbed call -----------------------------------------------------------------

  /** The records and the operator after `n` turns of its own. */
  function Turns(d: Records, poll: Poll, op: Operator, n: nat): (Records, Operator)
    decreases n
  {
    if n == 0 then (d, op)
    else
      var (later, next) := OperatorTurn(d, poll, op);
      Turns(later, poll, next, n - 1)
  }

  lemma {:induction false} TurnsAdd(d: Records, poll: Poll, op: Operator, m: nat, n: nat)
    ensures var (later, next) := Turns(d, poll, op, m); Turns(d, poll, op, m + n) == Turns(later, poll, next, n)
    decreases m
  {
    hide OperatorTurn;
    if m > 0 {
      var (later, next) := OperatorTurn(d, poll, op);
      TurnsAdd(later, poll, next, m - 1, n);
    }
  }

  /** The walk has seen nothing but what the atomic reading answers over `d`. */
  ghost predicate SawOnly(d: Records, op: Operator) {
    forall answer :: answer in op.seen ==> answer == PendingCompensation(d, Suspended)
  }

  ghost predicate BeforeAnswer(op: Operator) {
    op.pc.Polling? || Walking(op)
  }

  lemma WalkTurn(d: Records, poll: Poll, op: Operator)
    requires Coherent(d) && OperatorSound(d, op) && BeforeAnswer(op) && SawOnly(d, op)
    requires Walking(op) ==> op.polled == poll
    ensures var (later, next) := OperatorTurn(d, poll, op);
            && later == d && next.request == op.request && next.polled == poll
            && OperatorSound(d, next) && SawOnly(d, next)
            && (BeforeAnswer(next) || (next.pc.Answered? && (poll.Suspended? || next.pc.pending.None?)))
  {
    OperatorTurnSound(d, poll, op);
    hide Coherent, OperatorSound, PendingCompensation;
  }

  /** Over records that stay as they are, the walk answers what the atomic reading answers. */
  lemma {:induction false} WalkAnswers(d: Records, poll: Poll, op: Operator) returns (n: nat)
    requires Coherent(d) && OperatorSound(d, op) && BeforeAnswer(op) && SawOnly(d, op)
    requires Walking(op) ==> op.polled == poll
    ensures var (later, next) := Turns(d, poll, op, n);
            later == d && next.request == op.request && next.pc == Answered(PendingCompensation(d, poll))
    decreases TurnsLeft(d, op.pc)
  {
    hide Coherent, OperatorSound, OperatorTurn, TurnsLeft, PendingCompensation, SawOnly;
    WalkTurn(d, poll, op);
    ExtendsSelf(d);
    TurnShortens(d, d, poll, op);
    var (later, next) := OperatorTurn(d, poll, op);
    if BeforeAnswer(next) {
      n := WalkAnswers(d, poll, next);
      n := n + 1;
    } else {
      AnswerIsTheReading(d, poll, next);
      n := 1;
    }
  }

  lemma AnswerIsTheReading(d: Records, poll: Poll, op: Operator)
    requires OperatorSound(d, op) && SawOnly(d, op) && op.polled == poll
    requires op.pc.Answered? && (poll.Suspended? || op.pc.pending.None?)
    ensures op.pc.pending == PendingCompensation(d, poll)
  {
  }

  /** A call that nobody interferes with does what the code does when it runs alone. */
  lemma UndisturbedCall(d: Records, poll: Poll, request: Request) returns (n: nat)
    requires Coherent(d)
    ensures Turns(d, poll, Call(request), n).0 == DecidePass(d, poll, request).0
    ensures Turns(d, poll, Call(request), n).1.pc == Replied(DecidePass(d, poll, request).1)
  {
    CallIsSound(d, request);
    n := WalkAnswers(d, poll, Call(request));
    var answered := Turns(d, poll, Call(request), n).1;
    PendingIsUndecided(d, poll);
    var more := AnsweredCall(d, poll, answered);
    TurnsAdd(d, poll, Call(request), n, more);
    n := n + more;
  }

  lemma AnsweredCall(d: Records, poll: Poll, op: Operator) returns (n: nat)
    requires op.pc == Answered(PendingCompensation(d, poll))
    requires PendingCompensation(d, poll).Some? ==> Pending(d, PendingCompensation(d, poll).value)
    ensures Turns(d, poll, op, n).0 == DecidePass(d, poll, op.request).0
    ensures Turns(d, poll, op, n).1.pc == Replied(DecidePass(d, poll, op.request).1)
  {
    hide PendingCompensation;
    var (d1, op1) := OperatorTurn(d, poll, op);
    var (d2, op2) := OperatorTurn(d1, poll, op1);
    var (d3, op3) := OperatorTurn(d2, poll, op2);
    var (d4, op4) := OperatorTurn(d3, poll, op3);
    TurnsUnfold(d, poll, op);
    n := if op1.pc.Replied? then 1 else if op2.pc.Replied? then 2 else 4;
  }

  lemma TurnsUnfold(d: Records, poll: Poll, op: Operator)
    ensures var (d1, op1) := OperatorTurn(d, poll, op);
            var (d2, op2) := OperatorTurn(d1, poll, op1);
            var (d3, op3) := OperatorTurn(d2, poll, op2);
            var (d4, op4) := OperatorTurn(d3, poll, op3);
            && Turns(d, poll, op, 1) == (d1, op1)
            && Turns(d, poll, op, 2) == (d2, op2)
            && Turns(d, poll, op, 4) == (d4, op4)
  {
    hide OperatorTurn;
    var (d1, op1) := OperatorTurn(d, poll, op);
    var (d2, op2) := OperatorTurn(d1, poll, op1);
    var (d3, op3) := OperatorTurn(d2, poll, op2);
    assert Turns(d3, poll, op3, 1) == OperatorTurn(d3, poll, op3);
    assert Turns(d2, poll, op2, 2) == Turns(d3, poll, op3, 1);
    assert Turns(d1, poll, op1, 3) == Turns(d2, poll, op2, 2);
  }

  // --- The same in a world ---------------------------------------------------------------------

  function Repeat(a: Action, n: nat): (actions: seq<Action>)
    ensures |actions| == n
  {
    if n == 0 then [] else [a] + Repeat(a, n - 1)
  }

  /** Turns of one operator alone change the records and that operator, and nothing else. */
  lemma {:induction false} TurnsInWorld(h: Handler, w: World, who: nat, suspended: bool, n: nat)
    requires who < |w.operators|
    ensures var (records, op) := Turns(w.records, PollOf(w, suspended), w.operators[who], n);
            Exec(h, w, Repeat(Operate(who, suspended), n))
            == w.(records := records, operators := w.operators[who := op])
    decreases n
  {
    hide OperatorTurn, Step, Turns;
    var a := Operate(who, suspended);
    var poll := PollOf(w, suspended);
    if n == 0 {
      TurnsZero(w.records, poll, w.operators[who]);
      assert w.operators[who := w.operators[who]] == w.operators;
    } else {
      var v := Step(h, w, a);
      OwnStep(h, w, suspended, who);
      TurnsStep(w.records, poll, w.operators[who], n);
      ExecCons(h, w, a, Repeat(a, n - 1));
      TurnsInWorld(h, v, who, suspended, n - 1);
    }
  }

  lemma TurnsZero(d: Records, poll: Poll, op: Operator)
    ensures Turns(d, poll, op, 0) == (d, op)
  {
  }

  lemma TurnsStep(d: Records, poll: Poll, op: Operator, n: nat)
    requires n > 0
    ensures var (later, next) := OperatorTurn(d, poll, op); Turns(d, poll, op, n) == Turns(later, poll, next, n - 1)
  {
    hide OperatorTurn;
  }

  /** An operator that comes when an attempt awaits its decision, and is let run alone, decides it. */
  lemma OperatorDecides(h: Handler, w: World, k: Key, decision: Decision) returns (actions: seq<Action>)
    requires Coherent(w.records) && Pending(w.records, k) && w.result.None?
    ensures var v := Exec(h, w, actions);
            && v.records == WithDecision(w.records, k, decision)
            && v.process == w.process && v.result == w.result && v.executed == w.executed
  {
    hide Turns, Coherent, Pending;
    var request := DecidePending(decision);
    var arrived := Step(h, w, Arrive(request));
    var who := |w.operators|;
    PendingCompensationExact(w.records, k);
    var n := UndisturbedCall(w.records, Suspended, request);
    TurnsInWorld(h, arrived, who, true, n);
    actions := [Arrive(request)] + Repeat(Operate(who, true), n);
    ExecCons(h, w, Arrive(request), Repeat(Operate(who, true), n));
  }
}
