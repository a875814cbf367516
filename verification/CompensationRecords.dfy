/**
 * The durable records of one workflow execution and what they mean.
 *
 * Every register is written at most once: step activities, the compensation
 * plan, compensation activities keyed by (step, attempt), published failures
 * and operator decisions.
 */
module CompensationRecords {
  import opened Wrappers
  import opened Utf16

  type StepId = Text

  datatype Key = Key(step: StepId, attempt: int)

  datatype Outcome = Succeeded | Failed

  datatype Decision = Retry | Stop

  datatype Records = Records(
    forward: map<StepId, Outcome>,
    plan: Option<seq<StepId>>,
    activity: map<Key, Outcome>,
    failure: set<Key>,
    decision: map<Key, Decision>)

  const NO_RECORDS: Records := Records(map[], None, map[], {}, map[])

  /** `later` keeps every register of `d`. */
  ghost predicate Extends(d: Records, later: Records) {
    && (forall s :: s in d.forward ==> s in later.forward && later.forward[s] == d.forward[s])
    && (d.plan.Some? ==> later.plan == d.plan)
    && (forall k :: k in d.activity ==> k in later.activity && later.activity[k] == d.activity[k])
    && d.failure <= later.failure
    && (forall k :: k in d.decision ==> k in later.decision && later.decision[k] == d.decision[k])
  }

  // --- The attempts of one step ------------------------------------------------

  /** Where the attempts of a step stand; `attempt` is the attempt reached. */
  datatype Status =
    | Fresh(attempt: int)        // not executed yet
    | Unpublished(attempt: int)  // failed, failure not published yet
    | Waiting(attempt: int)      // failed, published, undecided
    | Settled(attempt: int)      // succeeded, or failed and stopped

  function LaterDecisions(d: Records, s: StepId, n: int): set<Key> {
    set k | k in d.decision && k.step == s && k.attempt >= n
  }

  /** Follows a step from attempt `n` through every attempt an operator retried. */
  function StatusFrom(d: Records, s: StepId, n: int): (status: Status)
    ensures status.attempt >= n
    decreases LaterDecisions(d, s, n)
  {
    var k := Key(s, n);
    if k !in d.activity then Fresh(n)
    else if d.activity[k].Succeeded? then Settled(n)
    else if k !in d.failure then Unpublished(n)
    else if k !in d.decision then Waiting(n)
    else if d.decision[k].Stop? then Settled(n)
    else
      assert k in LaterDecisions(d, s, n) && k !in LaterDecisions(d, s, n + 1);
      StatusFrom(d, s, n + 1)
  }

  predicate IsSettled(d: Records, s: StepId) {
    StatusFrom(d, s, 1).Settled?
  }

  /** A published failure no operator has decided. */
  predicate Pending(d: Records, k: Key) {
    k in d.failure && k !in d.decision
  }

  /** Every attempt of `s` before `n` failed, was published and was retried. */
  ghost predicate RetriedBefore(d: Records, s: StepId, n: int) {
    forall m {:trigger Key(s, m)} :: 1 <= m < n ==> Key(s, m) in d.decision && d.decision[Key(s, m)].Retry?
  }

  // --- What every reachable store satisfies ------------------------------------

  ghost predicate ActivitiesFollow(d: Records) {
    forall k :: k in d.activity ==>
      d.plan.Some? && k.step in d.plan.value && k.attempt >= 1 && RetriedBefore(d, k.step, k.attempt)
  }

  ghost predicate FailuresFollow(d: Records) {
    forall k :: k in d.failure ==> k in d.activity && d.activity[k].Failed?
  }

  ghost predicate DecisionsFollow(d: Records) {
    forall k :: k in d.decision ==> k in d.failure
  }

  /** Where a step first stands in a plan. */
  function Position(plan: seq<StepId>, s: StepId): (i: nat)
    requires s in plan
    ensures i < |plan| && plan[i] == s
  {
    if plan[0] == s then 0 else 1 + Position(plan[1..], s)
  }

  lemma {:induction false} PositionIsFirst(plan: seq<StepId>, i: int)
    requires 0 <= i < |plan|
    ensures Position(plan, plan[i]) <= i
  {
    if plan[0] != plan[i] {
      PositionIsFirst(plan[1..], i - 1);
    }
  }

  /**
   * Rollback order: once a step of the plan has started an attempt, every step
   * that stands before it in the plan is settled.
   */
  ghost predicate InOrder(d: Records) {
    forall k, s :: k in d.activity && d.plan.Some? && s in d.plan.value && k.step in d.plan.value
      && Position(d.plan.value, s) < Position(d.plan.value, k.step)
      ==> IsSettled(d, s)
  }

  ghost predicate Coherent(d: Records) {
    ActivitiesFollow(d) && FailuresFollow(d) && DecisionsFollow(d) && InOrder(d)
  }

  // --- Statuses never go back ---------------------------------------------------

  lemma {:induction false} SettledStays(d: Records, later: Records, s: StepId, n: int)
    requires Extends(d, later)
    requires StatusFrom(d, s, n).Settled?
    ensures StatusFrom(later, s, n) == StatusFrom(d, s, n)
    decreases LaterDecisions(d, s, n)
  {
    var k := Key(s, n);
    if d.activity[k].Failed? && d.decision[k].Retry? {
      assert k in LaterDecisions(d, s, n) && k !in LaterDecisions(d, s, n + 1);
      SettledStays(d, later, s, n + 1);
    }
  }

  /** A step whose attempts before `n` were all retried has the status read from `n`. */
  lemma {:induction false} StatusAfterRetries(d: Records, s: StepId, from: int, n: int)
    requires FailuresFollow(d) && DecisionsFollow(d)
    requires 1 <= from <= n
    requires RetriedBefore(d, s, n)
    ensures StatusFrom(d, s, from) == StatusFrom(d, s, n)
    decreases n - from
  {
    if from < n {
      assert Key(s, from) in d.decision;
      StatusAfterRetries(d, s, from + 1, n);
    }
  }

  lemma {:induction false} ReachedByRetries(d: Records, s: StepId, n: int)
    requires 1 <= n && RetriedBefore(d, s, n)
    ensures RetriedBefore(d, s, StatusFrom(d, s, n).attempt)
    decreases LaterDecisions(d, s, n)
  {
    var k := Key(s, n);
    if k in d.activity && d.activity[k].Failed? && k in d.failure && k in d.decision && d.decision[k].Retry? {
      assert k in LaterDecisions(d, s, n) && k !in LaterDecisions(d, s, n + 1);
      ReachedByRetries(d, s, n + 1);
    }
  }

  /** Nothing ran after the attempt a status names. */
  lemma NothingBeyondStatus(d: Records, s: StepId, m: int)
    requires ActivitiesFollow(d) && FailuresFollow(d) && DecisionsFollow(d)
    requires Key(s, m) in d.activity
    ensures m <= StatusFrom(d, s, 1).attempt
  {
    StatusAfterRetries(d, s, 1, m);
  }

  /**
   * The recorded attempts of a step are exactly 1..n, where its status names n
   * (1..n-1 for a fresh n): all before n failed, were published and retried.
   */
  lemma AttemptWindow(d: Records, s: StepId, m: int)
    requires Coherent(d)
    ensures var status := StatusFrom(d, s, 1);
            && RetriedBefore(d, s, status.attempt)
            && (Key(s, m) in d.activity <==> 1 <= m <= (if status.Fresh? then status.attempt - 1 else status.attempt))
  {
    var n := StatusFrom(d, s, 1).attempt;
    ReachedByRetries(d, s, 1);
    StatusAfterRetries(d, s, 1, n);
    if Key(s, m) in d.activity {
      NothingBeyondStatus(d, s, m);
    }
  }

  /** A pending failure is the status of its step. */
  lemma PendingIsWaiting(d: Records, k: Key)
    requires Coherent(d)
    requires Pending(d, k)
    ensures StatusFrom(d, k.step, 1) == Waiting(k.attempt)
    ensures d.plan.Some? && k.step in d.plan.value && k.attempt >= 1
  {
    StatusAfterRetries(d, k.step, 1, k.attempt);
  }

  /** At most one attempt is failed and undecided. */
  lemma PendingUnique(d: Records, k: Key, l: Key)
    requires Coherent(d)
    requires Pending(d, k) && Pending(d, l)
    ensures k == l
  {
    PendingIsWaiting(d, k);
    PendingIsWaiting(d, l);
  }

  // --- Writes keep the store coherent --------------------------------------------

  ghost predicate PrefixSettled(d: Records, plan: seq<StepId>, i: int) {
    forall j :: 0 <= j < i && j < |plan| ==> IsSettled(d, plan[j])
  }

  lemma PrefixStays(d: Records, later: Records, plan: seq<StepId>, i: int)
    requires Extends(d, later) && PrefixSettled(d, plan, i)
    ensures PrefixSettled(later, plan, i)
  {
    forall j | 0 <= j < i && j < |plan|
      ensures IsSettled(later, plan[j])
    {
      SettledStays(d, later, plan[j], 1);
    }
  }

  lemma OrderStays(d: Records, later: Records)
    requires Extends(d, later) && InOrder(d)
    requires d.plan.Some?
    requires later.activity.Keys == d.activity.Keys
    ensures InOrder(later)
  {
    forall s | IsSettled(d, s)
      ensures IsSettled(later, s)
    {
      SettledStays(d, later, s, 1);
    }
  }

  function WithForward(d: Records, s: StepId, outcome: Outcome): Records {
    d.(forward := d.forward[s := outcome])
  }

  function WithPlan(d: Records, plan: seq<StepId>): Records {
    d.(plan := Some(plan))
  }

  function WithActivity(d: Records, k: Key, outcome: Outcome): Records {
    d.(activity := d.activity[k := outcome])
  }

  function WithFailure(d: Records, k: Key): Records {
    d.(failure := d.failure + {k})
  }

  function WithDecision(d: Records, k: Key, decision: Decision): Records {
    d.(decision := d.decision[k := decision])
  }

  lemma ForwardKeepsCoherent(d: Records, s: StepId, outcome: Outcome)
    requires Coherent(d) && s !in d.forward
    ensures Coherent(WithForward(d, s, outcome)) && Extends(d, WithForward(d, s, outcome))
  {
    var later := WithForward(d, s, outcome);
    if d.plan.Some? {
      OrderStays(d, later);
    }
  }

  lemma PlanKeepsCoherent(d: Records, plan: seq<StepId>)
    requires Coherent(d) && d.plan.None?
    ensures Coherent(WithPlan(d, plan)) && Extends(d, WithPlan(d, plan))
  {
  }

  lemma ActivityKeepsCoherent(d: Records, plan: seq<StepId>, i: int, n: int, outcome: Outcome)
    requires Coherent(d) && d.plan == Some(plan) && 0 <= i < |plan| && 1 <= n
    requires PrefixSettled(d, plan, i) && RetriedBefore(d, plan[i], n)
    requires Key(plan[i], n) !in d.activity
    ensures Coherent(WithActivity(d, Key(plan[i], n), outcome))
    ensures Extends(d, WithActivity(d, Key(plan[i], n), outcome))
  {
    hide StatusFrom, IsSettled, InOrder;
    ActivityKeepsOrder(d, plan, i, n, outcome);
  }

  lemma ActivityKeepsOrder(d: Records, plan: seq<StepId>, i: int, n: int, outcome: Outcome)
    requires InOrder(d) && d.plan == Some(plan) && 0 <= i < |plan|
    requires PrefixSettled(d, plan, i) && Key(plan[i], n) !in d.activity
    ensures InOrder(WithActivity(d, Key(plan[i], n), outcome))
  {
    hide StatusFrom;
    var later := WithActivity(d, Key(plan[i], n), outcome);
    forall k, s | k in later.activity && s in plan && k.step in plan && Position(plan, s) < Position(plan, k.step)
      ensures IsSettled(later, s)
    {
      if k == Key(plan[i], n) {
        PositionIsFirst(plan, i);
        assert IsSettled(d, plan[Position(plan, s)]);
      }
      SettledStays(d, later, s, 1);
    }
  }

  lemma FailureKeepsCoherent(d: Records, k: Key)
    requires Coherent(d) && k in d.activity && d.activity[k].Failed?
    ensures Coherent(WithFailure(d, k)) && Extends(d, WithFailure(d, k))
  {
    OrderStays(d, WithFailure(d, k));
  }

  lemma DecisionKeepsCoherent(d: Records, k: Key, decision: Decision)
    requires Coherent(d) && Pending(d, k)
    ensures Coherent(WithDecision(d, k, decision)) && Extends(d, WithDecision(d, k, decision))
  {
    OrderStays(d, WithDecision(d, k, decision));
  }

  // --- Reading the pending compensation -------------------------------------------

  /** What polling the workflow answers with. */
  datatype Poll = NotStarted | Suspended | Complete

  function PendingForStep(d: Records, s: StepId, n: int): Option<Key>
    decreases LaterDecisions(d, s, n)
  {
    var k := Key(s, n);
    if k !in d.failure then None
    else if k !in d.decision then Some(k)
    else if d.decision[k].Stop? then None
    else
      assert k in LaterDecisions(d, s, n) && k !in LaterDecisions(d, s, n + 1);
      PendingForStep(d, s, n + 1)
  }

  function ReducePending(d: Records, plan: seq<StepId>, pending: Option<Key>): Option<Key> {
    if plan == [] then pending
    else ReducePending(d, plan[1..], if pending.Some? then pending else PendingForStep(d, plan[0], 1))
  }

  function PendingCompensation(d: Records, poll: Poll): Option<Key> {
    match poll
    case NotStarted => None
    case Complete => None
    case Suspended =>
      if d.plan.None? then None else ReducePending(d, d.plan.value, None)
  }

  /** The walk over the attempts of one step finds exactly what its status waits for. */
  lemma {:induction false} PendingForStepReadsStatus(d: Records, s: StepId, n: int)
    requires FailuresFollow(d) && DecisionsFollow(d)
    ensures PendingForStep(d, s, n) == match StatusFrom(d, s, n) { case Waiting(m) => Some(Key(s, m)) case _ => None }
    decreases LaterDecisions(d, s, n)
  {
    var k := Key(s, n);
    if k in d.failure && k in d.decision && d.decision[k].Retry? {
      assert k in LaterDecisions(d, s, n) && k !in LaterDecisions(d, s, n + 1);
      PendingForStepReadsStatus(d, s, n + 1);
    }
  }

  /** What the reading names is pending, whatever the records. */
  lemma {:induction false} StepIsUndecided(d: Records, s: StepId, n: int)
    ensures PendingForStep(d, s, n).Some? ==> Pending(d, PendingForStep(d, s, n).value)
    decreases LaterDecisions(d, s, n)
  {
    var k := Key(s, n);
    if k in d.decision {
      assert k in LaterDecisions(d, s, n) && k !in LaterDecisions(d, s, n + 1);
      StepIsUndecided(d, s, n + 1);
    }
  }

  lemma {:induction false} ReduceIsUndecided(d: Records, plan: seq<StepId>, pending: Option<Key>)
    requires pending.Some? ==> Pending(d, pending.value)
    ensures ReducePending(d, plan, pending).Some? ==> Pending(d, ReducePending(d, plan, pending).value)
  {
    if plan != [] {
      StepIsUndecided(d, plan[0], 1);
      ReduceIsUndecided(d, plan[1..], if pending.Some? then pending else PendingForStep(d, plan[0], 1));
    }
  }

  lemma PendingIsUndecided(d: Records, poll: Poll)
    ensures PendingCompensation(d, poll).Some? ==> Pending(d, PendingCompensation(d, poll).value)
  {
    if d.plan.Some? {
      ReduceIsUndecided(d, d.plan.value, None);
    }
  }

  lemma {:induction false} ReduceFindsFirst(d: Records, plan: seq<StepId>, k: Key)
    requires Coherent(d) && d.plan.Some? && Pending(d, k)
    ensures ReducePending(d, plan, Some(k)) == Some(k)
    ensures ReducePending(d, plan, None) == if k.step in plan then Some(k) else None
  {
    if plan != [] {
      ReduceFindsFirst(d, plan[1..], k);
      PendingForStepReadsStatus(d, plan[0], 1);
      PendingIsWaiting(d, k);
      StepIsUndecided(d, plan[0], 1);
      if PendingForStep(d, plan[0], 1).Some? {
        PendingUnique(d, k, PendingForStep(d, plan[0], 1).value);
      }
    }
  }

  /** Sound and complete: the reading names k exactly when k is the one undecided failure. */
  lemma PendingCompensationExact(d: Records, k: Key)
    requires Coherent(d)
    ensures PendingCompensation(d, Suspended) == Some(k) <==> Pending(d, k)
    ensures PendingCompensation(d, Suspended) == None <==> forall l :: !Pending(d, l)
  {
    if Pending(d, k) {
      PendingIsWaiting(d, k);
      ReduceFindsFirst(d, d.plan.value, k);
    }
    PendingIsUndecided(d, Suspended);
    forall l | Pending(d, l)
      ensures PendingCompensation(d, Suspended) == Some(l)
    {
      PendingIsWaiting(d, l);
      ReduceFindsFirst(d, d.plan.value, l);
    }
  }

  /** A run that has not started or is complete has nothing pending, whatever its records. */
  lemma NothingPendingUnlessSuspended(d: Records)
    ensures PendingCompensation(d, NotStarted) == None && PendingCompensation(d, Complete) == None
  {
  }

  /** Later readings of one run never move back in plan order, then attempt order. */
  lemma PendingNeverMovesBack(d: Records, later: Records, k: Key, l: Key)
    requires Coherent(d) && Coherent(later) && Extends(d, later)
    requires Pending(d, k) && Pending(later, l)
    ensures k.step in later.plan.value && l.step in later.plan.value
    ensures var i, j := Position(later.plan.value, k.step), Position(later.plan.value, l.step);
            i < j || (i == j && k.attempt <= l.attempt)
  {
    PendingIsWaiting(d, k);
    PendingIsWaiting(later, l);
    if IsSettled(d, l.step) {
      SettledStays(d, later, l.step, 1);
    }
  }

  // --- Counting attempts -----------------------------------------------------------

  ghost function Retries(d: Records): set<Key> {
    set k | k in d.decision && d.decision[k].Retry?
  }

  ghost function FirstAttempts(steps: set<StepId>): set<Key> {
    set s | s in steps :: Key(s, 1)
  }

  ghost function NextAttempts(ks: set<Key>): set<Key> {
    set k | k in ks :: Key(k.step, k.attempt + 1)
  }

  lemma {:induction false} FirstAttemptsSize(steps: set<StepId>)
    ensures |FirstAttempts(steps)| == |steps|
  {
    if steps != {} {
      var s :| s in steps;
      FirstAttemptsSize(steps - {s});
      assert FirstAttempts(steps) == FirstAttempts(steps - {s}) + {Key(s, 1)};
    }
  }

  lemma {:induction false} NextAttemptsSize(ks: set<Key>)
    ensures |NextAttempts(ks)| == |ks|
  {
    if ks != {} {
      var k :| k in ks;
      NextAttemptsSize(ks - {k});
      assert NextAttempts(ks) == NextAttempts(ks - {k}) + {Key(k.step, k.attempt + 1)};
    }
  }

  lemma AttemptIsFirstOrNext(d: Records, plan: seq<StepId>, k: Key)
    requires ActivitiesFollow(d) && d.plan == Some(plan) && k in d.activity
    ensures k in FirstAttempts(set s | s in plan) + NextAttempts(Retries(d))
  {
    if k.attempt > 1 {
      var before := Key(k.step, k.attempt - 1);
      assert before in Retries(d);
      assert Key(before.step, before.attempt + 1) == k;
    } else {
      assert k == Key(k.step, 1);
    }
  }

  lemma FirstAttemptRan(d: Records, s: StepId)
    requires IsSettled(d, s)
    ensures Key(s, 1) in d.activity
  {
  }

  lemma NextAttemptRan(d: Records, plan: seq<StepId>, k: Key)
    requires Coherent(d) && d.plan == Some(plan) && PrefixSettled(d, plan, |plan|)
    requires k in Retries(d)
    ensures k.attempt >= 1 && Key(k.step, k.attempt + 1) in d.activity
  {
    assert k in d.activity;
    StatusAfterRetries(d, k.step, 1, k.attempt);
    assert IsSettled(d, plan[Position(plan, k.step)]);
    AttemptWindow(d, k.step, k.attempt + 1);
  }

  /** Attempts are the first attempts and the successors of retried ones, without overlap. */
  lemma CountAttempts(attempts: set<Key>, steps: set<StepId>, retries: set<Key>)
    requires forall k :: k in attempts ==> k in FirstAttempts(steps) + NextAttempts(retries)
    requires forall s :: s in steps ==> Key(s, 1) in attempts
    requires forall k :: k in retries ==> k.attempt >= 1 && Key(k.step, k.attempt + 1) in attempts
    ensures |attempts| == |steps| + |retries|
  {
    var first, next := FirstAttempts(steps), NextAttempts(retries);
    assert attempts == first + next;
    assert first !! next;
    FirstAttemptsSize(steps);
    NextAttemptsSize(retries);
    assert |first + next| == |first| + |next|;
  }

  /** Once every step is settled, attempts = distinct steps + retries. */
  lemma AttemptsConserved(d: Records, plan: seq<StepId>)
    requires Coherent(d) && d.plan == Some(plan) && PrefixSettled(d, plan, |plan|)
    ensures |d.activity.Keys| == |set s | s in plan| + |Retries(d)|
  {
    var steps := set s | s in plan;
    forall k | k in d.activity.Keys
      ensures k in FirstAttempts(steps) + NextAttempts(Retries(d))
    {
      AttemptIsFirstOrNext(d, plan, k);
    }
    forall s | s in steps
      ensures Key(s, 1) in d.activity.Keys
    {
      assert IsSettled(d, plan[Position(plan, s)]);
      FirstAttemptRan(d, s);
    }
    forall k | k in Retries(d)
      ensures k.attempt >= 1 && Key(k.step, k.attempt + 1) in d.activity.Keys
    {
      NextAttemptRan(d, plan, k);
    }
    CountAttempts(d.activity.Keys, steps, Retries(d));
  }
}
