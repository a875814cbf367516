/**
 * In which order calls take effect. The lock says nothing about who waits
 * longest: a call that still waits can be overtaken by a later one, and only such a call.
 */
module StateCalls {
  import opened Wrappers
  import opened StateCell

  // --- The lock order only grows -----------------------------------------------------

  lemma {:induction false} AcquiredGrows(w: World, more: seq<Action>)
    requires |w.ops| == |w.fibers|
    ensures w.acquired <= Exec(w, more).acquired
    decreases |more|
  {
    hide Step;
    if more != [] {
      StepAcquires(w, more[0]);
      StepFrame(w, more[0]);
      AcquiredGrows(Step(w, more[0]), more[1..]);
    }
  }

  /** Whoever gets the lock from now on has not had it before. */
  lemma {:induction false} LaterWereOutside(w: World, more: seq<Action>, q: nat)
    requires |w.ops| == |w.fibers|
    requires |w.acquired| <= q < |Exec(w, more).acquired|
    ensures Exec(w, more).acquired[q] < |w.fibers| && Outside(w.fibers[Exec(w, more).acquired[q]])
    decreases |more|
  {
    hide Step;
    if more != [] {
      var v := Step(w, more[0]);
      StepAcquires(w, more[0]);
      StepFrame(w, more[0]);
      AcquiredGrows(v, more[1..]);
      if q >= |v.acquired| {
        LaterWereOutside(v, more[1..], q);
      }
    }
  }

  /** `second` got the lock before `first` did. */
  ghost predicate Overtakes(w: World, second: nat, first: nat) {
    exists p, q :: 0 <= p < q < |w.acquired| && w.acquired[p] == second && w.acquired[q] == first
  }

  /** A call that no longer waits is never overtaken by one that does not have the lock yet. */
  lemma NotOvertaken(w: World, more: seq<Action>, second: nat, first: nat)
    requires |w.ops| == |w.fibers| && AcquiredOnce(w)
    requires first < |w.fibers| && !Outside(w.fibers[first])
    requires second < |w.fibers| && Outside(w.fibers[second])
    ensures !Overtakes(Exec(w, more), second, first)
  {
    hide Exec;
    var v := Exec(w, more);
    AcquiredGrows(w, more);
    forall p, q | 0 <= p < q < |v.acquired| && v.acquired[p] == second && v.acquired[q] == first
      ensures false
    {
      if q >= |w.acquired| {
        LaterWereOutside(w, more, q);
      }
    }
  }

  // --- A call that runs alone --------------------------------------------------------------

  function TurnsToRelease(f: Fiber): nat {
    match f
    case Reading => 4
    case Writing(_, _) => 3
    case Publishing(_, _) => 2
    case Releasing(_) => 1
    case _ => 0
  }

  /** A turn of the fiber that has the lock, with a read or write that works. */
  lemma HolderTurn(initial: Value, w: World, who: nat)
    requires Inv(initial, w) && who < |w.fibers| && Holds(w.fibers[who])
    ensures var v := Step(w, Advance(who, true));
            && v.acquired == w.acquired && v.called == w.called && |v.fibers| == |w.fibers|
            && v.fibers == w.fibers[who := v.fibers[who]]
            && TurnsToRelease(v.fibers[who]) < TurnsToRelease(w.fibers[who])
            && (if w.fibers[who].Releasing? then v.fibers[who].Returned? && v.holder.None?
                else Holds(v.fibers[who]) && v.holder == Some(who))
  {
    HolderIs(w, who);
    hide Deliver, Replay, Locked, OrderSound, AcquiredOnce, HistorySound, AnswersSound, SubscribersSound, LockSound;
  }

  /** The fiber that has the lock can always finish, and then the lock is free. */
  lemma {:induction false} HolderFinishes(initial: Value, w: World, who: nat) returns (more: seq<Action>)
    requires Inv(initial, w) && |w.ops| == |w.fibers| && who < |w.fibers| && Holds(w.fibers[who])
    ensures var v := Exec(w, more);
            && v.acquired == w.acquired && v.called == w.called && v.holder.None?
            && v.fibers == w.fibers[who := v.fibers[who]] && v.fibers[who].Returned?
    decreases TurnsToRelease(w.fibers[who])
  {
    hide Step, Inv, TurnsToRelease;
    var a: Action := Advance(who, true);
    var v := Step(w, a);
    StepFrame(w, a);
    HolderTurn(initial, w, who);
    StepKeepsInv(initial, w, a);
    if w.fibers[who].Releasing? {
      more := [];
    } else {
      more := HolderFinishes(initial, v, who);
      assert w.fibers[who := v.fibers[who]][who := Exec(v, more).fibers[who]] == w.fibers[who := Exec(v, more).fibers[who]];
    }
    ExecCons(w, a, more);
    more := [a] + more;
  }

  /** With the lock free, whoever waits can get it. */
  lemma Acquires(w: World, who: nat)
    requires |w.ops| == |w.fibers| && who < |w.fibers| && w.holder.None? && w.fibers[who].Waiting?
    ensures var v := Step(w, Advance(who, true));
            && v.acquired == w.acquired + [who] && v.called == w.called
            && |v.fibers| == |w.fibers| && v.fibers == w.fibers[who := v.fibers[who]] && Holds(v.fibers[who])
  {
  }

  lemma {:induction false} ExecKeepsInv(initial: Value, w: World, more: seq<Action>)
    requires Inv(initial, w) && |w.ops| == |w.fibers|
    ensures Inv(initial, Exec(w, more))
    decreases |more|
  {
    hide Step, Inv;
    if more != [] {
      StepFrame(w, more[0]);
      StepKeepsInv(initial, w, more[0]);
      ExecKeepsInv(initial, Step(w, more[0]), more[1..]);
    }
  }

  lemma LockIsLeft(initial: Value, w: World) returns (more: seq<Action>)
    requires Inv(initial, w) && |w.ops| == |w.fibers|
    ensures Exec(w, more).holder.None?
    ensures forall i :: 0 <= i < |w.fibers| && Outside(w.fibers[i]) ==> Exec(w, more).fibers[i] == w.fibers[i]
  {
    if w.holder.Some? {
      more := HolderFinishes(initial, w, w.holder.value);
    } else {
      more := [];
    }
  }

  /** A call that is made while another waits can get the lock first. */
  lemma CanOvertake(initial: Value, w: World, second: nat, first: nat) returns (more: seq<Action>)
    requires Inv(initial, w) && |w.ops| == |w.fibers|
    requires first < |w.fibers| && w.fibers[first].Waiting?
    requires second < |w.fibers| && w.fibers[second].Idle?
    ensures Overtakes(Exec(w, more), second, first)
  {
    hide Step, Inv, Exec;
    var leave := LockIsLeft(initial, w);
    ExecKeepsInv(initial, w, leave);
    var u := Exec(w, leave);
    var steps := CallAndRun(initial, u, second);
    var v := Exec(u, steps);
    Acquires(v, first);
    ExecAppends(u, steps, Advance(first, true));
    ExecSplits(w, leave, steps + [Advance(first, true)]);
    more := leave + (steps + [Advance(first, true)]);
    var end := Exec(w, more).acquired;
    assert end[|u.acquired|] == second && end[|end| - 1] == first;
  }

  /** With the lock free, a call can be made, get the lock and finish. */
  lemma CallAndRun(initial: Value, w: World, who: nat) returns (more: seq<Action>)
    requires Inv(initial, w) && |w.ops| == |w.fibers| && w.holder.None?
    requires who < |w.fibers| && w.fibers[who].Idle?
    ensures var v := Exec(w, more);
            && v.acquired == w.acquired + [who] && v.holder.None?
            && v.fibers == w.fibers[who := v.fibers[who]]
  {
    hide Inv, Exec;
    var called := Step(w, Call(who));
    var held := Step(called, Advance(who, true));
    CallWaits(w, who);
    Acquires(called, who);
    hide Step;
    StepKeepsInv(initial, w, Call(who));
    StepKeepsInv(initial, called, Advance(who, true));
    StepFrame(called, Advance(who, true));
    var finish := HolderFinishes(initial, held, who);
    ExecCons(called, Advance(who, true), finish);
    ExecCons(w, Call(who), [Advance(who, true)] + finish);
    more := [Call(who)] + ([Advance(who, true)] + finish);
    assert w.fibers[who := called.fibers[who]][who := held.fibers[who]] == w.fibers[who := held.fibers[who]];
    assert w.fibers[who := held.fibers[who]][who := Exec(w, more).fibers[who]] == w.fibers[who := Exec(w, more).fibers[who]];
  }

  lemma CallWaits(w: World, who: nat)
    requires |w.ops| == |w.fibers| && who < |w.fibers| && w.fibers[who].Idle?
    ensures Step(w, Call(who)) == w.(fibers := w.fibers[who := Waiting], called := w.called + [who])
  {
  }

  // --- Calls and the order of their effects ------------------------------------------------------

  /**
   * When `first` has been called and `second` has not, `second` can take effect
   * before `first` exactly if `first` still waits for the lock.
   */
  lemma CallOrderHoldsExactly(initial: Value, ops: seq<Op>, run: seq<Action>, first: nat, second: nat)
    requires first < |ops| && second < |ops|
    requires !Run(initial, ops, run).fibers[first].Idle? && Run(initial, ops, run).fibers[second].Idle?
    ensures (exists more :: Overtakes(Run(initial, ops, run + more), second, first))
            <==> Run(initial, ops, run).fibers[first].Waiting?
  {
    hide Run, Step, Exec, Overtakes;
    var w := Run(initial, ops, run);
    RunKeepsInv(initial, ops, run);
    InvParts(initial, w);
    hide Inv;
    forall more | Overtakes(Run(initial, ops, run + more), second, first)
      ensures w.fibers[first].Waiting?
    {
      RunSplits(initial, ops, run, more);
      if !w.fibers[first].Waiting? {
        NotOvertaken(w, more, second, first);
      }
    }
    if w.fibers[first].Waiting? {
      var more := CanOvertake(initial, w, second, first);
      RunSplits(initial, ops, run, more);
    }
  }

  lemma InvParts(initial: Value, w: World)
    requires Inv(initial, w)
    ensures AcquiredOnce(w)
  {
  }

  /** An operation that returned before another was called comes before it in lock order, on every continuation. */
  lemma RealTimeOrder(initial: Value, ops: seq<Op>, run: seq<Action>, more: seq<Action>, first: nat, second: nat)
    requires first < |ops| && second < |ops|
    requires Run(initial, ops, run).fibers[first].Returned? && Run(initial, ops, run).fibers[second].Idle?
    ensures first in Run(initial, ops, run + more).acquired
    ensures !Overtakes(Run(initial, ops, run + more), second, first)
  {
    hide Run, Step, Exec, Overtakes;
    var w := Run(initial, ops, run);
    RunKeepsInv(initial, ops, run);
    ReturnedHasAcquired(initial, w, first);
    InvParts(initial, w);
    hide Inv;
    RunSplits(initial, ops, run, more);
    AcquiredGrows(w, more);
    NotOvertaken(w, more, second, first);
  }

  lemma ReturnedHasAcquired(initial: Value, w: World, who: nat)
    requires Inv(initial, w) && who < |w.fibers| && w.fibers[who].Returned?
    ensures who in w.acquired
  {
    hide AcquiredOnce, HistorySound, CellSound, SubscribersSound, LockSound;
    var p: nat :| AnsweredAt(initial, w, who, w.fibers[who].answer, p);
    InHistory(w.history, p);
  }

  lemma {:induction false} InHistory(history: seq<Entry>, p: nat)
    requires p < |history| && history[p].Entry?
    ensures history[p].fiber in Locked(history)
  {
    if p < |history| - 1 {
      InHistory(history[..|history| - 1], p);
    }
  }

  /** Acquire, write, publish, release. */
  function SetTurns(who: nat): seq<Action> {
    [Advance(who, true)] + [Advance(who, true)] + [Advance(who, true)] + [Advance(who, true)]
  }

  lemma PublishesAndReleases(w: World, who: nat, value: Value)
    requires |w.ops| == |w.fibers| && who < |w.fibers| && w.fibers[who] == Publishing(value, Done)
    ensures var a: Action := Advance(who, true);
            var v := Step(Step(w, a), a);
            && v.cell == w.cell.(log := w.cell.log + [value]) && v.holder.None?
            && v.called == w.called && v.ops == w.ops && |v.fibers| == |w.fibers|
            && v.fibers == w.fibers[who := Returned(Done)]
  {
    hide Deliver;
    var v := Step(w, Advance(who, true));
    assert v.fibers == w.fibers[who := Releasing(Done)];
  }

  /** A waiting `set` that finds the lock free and is let run. */
  lemma SetRuns(w: World, who: nat)
    requires |w.ops| == |w.fibers| && who < |w.fibers|
    requires w.holder.None? && w.fibers[who].Waiting? && w.ops[who].Set?
    ensures var v := Exec(w, SetTurns(who));
            && v.cell == Cell(w.ops[who].value, w.cell.log + [w.ops[who].value])
            && v.holder.None? && v.called == w.called && v.ops == w.ops
            && v.fibers == w.fibers[who := Returned(Done)]
  {
    hide Step, Exec;
    var a: Action := Advance(who, true);
    SetWrites(w, who);
    var written := Exec(w, [a] + [a]);
    PublishesAndReleases(written, who, w.ops[who].value);
    ExecAppends(w, [a] + [a], a);
    ExecAppends(w, [a] + [a] + [a], a);
  }

  lemma TwoCalls(x: Value, ops: seq<Op>)
    requires |ops| == 2
    ensures var w := Exec(Initial(x, ops), [Call(0), Call(1)]);
            && w.fibers == [Waiting, Waiting] && w.called == [0, 1] && w.cell == Cell(x, [x]) && w.holder.None?
  {
    var start := Initial(x, ops);
    CallWaits(start, 0);
    CallWaits(Step(start, Call(0)), 1);
    hide Step;
    ExecCons(start, Call(0), [Call(1)]);
    ExecCons(Step(start, Call(0)), Call(1), []);
    assert [Call(1)] + [] == [Call(1)] && [Call(0)] + [Call(1)] == [Call(0), Call(1)];
  }

  /** Two sets, called in the order y, z, can be logged in the order z, y. */
  lemma SetsOutOfCallOrder(x: Value, y: Value, z: Value)
    ensures var run := [Call(0), Call(1)] + SetTurns(1) + SetTurns(0);
            var w := Run(x, [Set(y), Set(z)], run);
            w.called == [0, 1] && w.cell == Cell(y, [x, z, y])
  {
    hide Step, Exec, SetTurns;
    var ops: seq<Op> := [Set(y), Set(z)];
    var start := Initial(x, ops);
    TwoCalls(x, ops);
    var called := Exec(start, [Call(0), Call(1)]);
    SetRuns(called, 1);
    SetRuns(Exec(called, SetTurns(1)), 0);
    ExecSplits(start, [Call(0), Call(1)], SetTurns(1));
    ExecSplits(start, [Call(0), Call(1)] + SetTurns(1), SetTurns(0));
    RunSplits(x, ops, [], [Call(0), Call(1)] + SetTurns(1) + SetTurns(0));
    assert [] + ([Call(0), Call(1)] + SetTurns(1) + SetTurns(0)) == [Call(0), Call(1)] + SetTurns(1) + SetTurns(0);
  }
}
