/**
 * A state cell: a backing store and a change log behind one lock. Fibers run
 * set, update, updateAndGet, modify and publish as interleaved steps (acquire,
 * read, write, publish, release) and may be killed at any of them.
 */
module StateCell {
  import opened Wrappers

  /** What the cell holds, and what `modify` returns beside it. */
  type Value(!new)
  type Output(!new)

  // --- One operation at a time -------------------------------------------------------

  datatype Op =
    | Set(value: Value)
    | Update(f: Value -> Value)
    | UpdateAndGet(f: Value -> Value)
    | Modify(g: Value -> (Output, Value))
    | Publish(value: Value)

  datatype Answer = Done | Got(value: Value) | Gave(output: Output) | ReadFailed | WriteFailed

  /** How an operation that got the lock went. */
  datatype Fate = Completed | FailedToRead | FailedToWrite | KilledBeforeEffect | KilledAfterWrite

  datatype Entry =
    | Entry(fiber: nat, op: Op, fate: Fate)
    | Unlocked(value: Value)   // published without the lock

  /** The store, and every value published so far. */
  datatype Cell = Cell(store: Value, log: seq<Value>)

  function MakeCell(initial: Value): Cell {
    Cell(initial, [initial])
  }

  /** The value an operation writes over `current`, and what it answers. */
  function Commit(op: Op, current: Value): (Value, Answer)
    requires !op.Publish?
  {
    match op
    case Set(value) => (value, Done)
    case Update(f) => (f(current), Done)
    case UpdateAndGet(f) => (f(current), Got(f(current)))
    case Modify(g) => (g(current).1, Gave(g(current).0))
  }

  /** The cell after an operation met `fate`: a failed write publishes nothing. */
  function Effect(c: Cell, op: Op, fate: Fate): Cell {
    if op.Publish? then (if fate.Completed? then c.(log := c.log + [op.value]) else c)
    else
      var next := Commit(op, c.store).0;
      if fate.Completed? then Cell(next, c.log + [next])
      else if fate.KilledAfterWrite? then c.(store := next)
      else c
  }

  function Reply(c: Cell, op: Op, fate: Fate): Answer {
    match fate
    case FailedToRead => ReadFailed
    case FailedToWrite => WriteFailed
    case _ => if op.Publish? then Done else Commit(op, c.store).1
  }

  function Apply(c: Cell, e: Entry): Cell {
    match e
    case Unlocked(value) => c.(log := c.log + [value])
    case Entry(_, op, fate) => Effect(c, op, fate)
  }

  function Replay(initial: Value, history: seq<Entry>): Cell {
    if history == [] then MakeCell(initial)
    else Apply(Replay(initial, history[..|history| - 1]), history[|history| - 1])
  }

  // --- Interleaved fibers ----------------------------------------------------------------

  datatype Fiber =
    | Idle
    | Waiting
    | Reading
    | Writing(next: Value, answer: Answer)
    | Publishing(next: Value, answer: Answer)
    | Releasing(answer: Answer)
    | Returned(answer: Answer)
    | Killed(wrote: bool)

  /** A subscription: how long the log was when it joined, and what it received. */
  datatype Subscriber = Subscriber(joined: nat, received: seq<Value>)

  /**
   * `called` lists the fibers in the order of their calls, `acquired` in lock
   * order, `history` the operations in the order they took effect.
   */
  datatype World = World(
    cell: Cell,
    holder: Option<nat>,
    ops: seq<Op>,
    fibers: seq<Fiber>,
    subscribers: seq<Subscriber>,
    called: seq<nat>,
    acquired: seq<nat>,
    history: seq<Entry>)

  datatype Action =
    | Call(who: nat)
    | Advance(who: nat, ok: bool)   // `ok`: whether a read or write succeeds
    | Kill(who: nat)
    | PublishUnsafe(value: Value)
    | Subscribe

  function Initial(initial: Value, ops: seq<Op>): World {
    World(MakeCell(initial), None, ops, seq(|ops|, i => Idle), [], [], [], [])
  }

  function Deliver(subscribers: seq<Subscriber>, value: Value): seq<Subscriber> {
    seq(|subscribers|, i requires 0 <= i < |subscribers| => subscribers[i].(received := subscribers[i].received + [value]))
  }

  function Emit(w: World, value: Value): World {
    w.(cell := w.cell.(log := w.cell.log + [value]), subscribers := Deliver(w.subscribers, value))
  }

  /** The operation's write went through. */
  predicate Wrote(f: Fiber, op: Op) {
    match f
    case Publishing(_, _) => !op.Publish?
    case Releasing(answer) => !op.Publish? && !answer.ReadFailed? && !answer.WriteFailed?
    case Returned(answer) => !op.Publish? && !answer.ReadFailed? && !answer.WriteFailed?
    case Killed(wrote) => wrote
    case _ => false
  }

  function AfterAcquire(op: Op): Fiber {
    match op
    case Set(value) => Writing(value, Done)
    case Publish(value) => Publishing(value, Done)
    case _ => Reading
  }

  function Move(w: World, who: nat, fiber: Fiber): World
    requires who < |w.fibers|
  {
    w.(fibers := w.fibers[who := fiber])
  }

  function Record(w: World, who: nat, fate: Fate): World
    requires who < |w.ops|
  {
    w.(history := w.history + [Entry(who, w.ops[who], fate)])
  }

  function Step(w: World, a: Action): World
    requires |w.ops| == |w.fibers|
  {
    match a
    case Call(who) =>
      if who < |w.fibers| && w.fibers[who].Idle? then Move(w, who, Waiting).(called := w.called + [who]) else w
    case Advance(who, ok) => if who < |w.fibers| then AdvanceFiber(w, who, ok) else w
    case Kill(who) => if who < |w.fibers| then KillFiber(w, who) else w
    case PublishUnsafe(value) => Emit(w, value).(history := w.history + [Unlocked(value)])
    case Subscribe =>
      if w.cell.log == [] then w
      else w.(subscribers := w.subscribers + [Subscriber(|w.cell.log|, [w.cell.log[|w.cell.log| - 1]])])
  }

  function AdvanceFiber(w: World, who: nat, ok: bool): World
    requires |w.ops| == |w.fibers| && who < |w.fibers|
  {
    match w.fibers[who]
    case Idle => w
    case Waiting =>
      if w.holder.Some? then w
      else Move(w, who, AfterAcquire(w.ops[who])).(holder := Some(who), acquired := w.acquired + [who])
    case Reading =>
      if !ok then Move(Record(w, who, FailedToRead), who, Releasing(ReadFailed))
      else if w.ops[who].Publish? then w
      else var (next, answer) := Commit(w.ops[who], w.cell.store); Move(w, who, Writing(next, answer))
    case Writing(next, answer) =>
      if !ok then Move(Record(w, who, FailedToWrite), who, Releasing(WriteFailed))
      else Move(w.(cell := w.cell.(store := next)), who, Publishing(next, answer))
    case Publishing(next, answer) => Move(Record(Emit(w, next), who, Completed), who, Releasing(answer))
    case Releasing(answer) => Move(w, who, Returned(answer)).(holder := None)
    case Returned(_) => w
    case Killed(_) => w
  }

  /** An interrupted fiber gives the lock back. */
  function KillFiber(w: World, who: nat): World
    requires |w.ops| == |w.fibers| && who < |w.fibers|
  {
    match w.fibers[who]
    case Idle => w
    case Waiting => Move(w, who, Killed(false))
    case Reading => Move(Record(w, who, KilledBeforeEffect), who, Killed(false)).(holder := None)
    case Writing(_, _) => Move(Record(w, who, KilledBeforeEffect), who, Killed(false)).(holder := None)
    case Publishing(_, _) =>
      var wrote := !w.ops[who].Publish?;
      Move(Record(w, who, if wrote then KilledAfterWrite else KilledBeforeEffect), who, Killed(wrote)).(holder := None)
    case Releasing(_) => Move(w, who, Killed(Wrote(w.fibers[who], w.ops[who]))).(holder := None)
    case Returned(_) => w
    case Killed(_) => w
  }

  // --- The invariant --------------------------------------------------------------------------

  predicate Holds(f: Fiber) {
    f.Reading? || f.Writing? || f.Publishing? || f.Releasing?
  }

  /** The fiber has the lock and its operation is not in the history yet. */
  predicate InFlight(f: Fiber) {
    f.Reading? || f.Writing? || f.Publishing?
  }

  predicate Answered(f: Fiber) {
    f.Releasing? || f.Returned?
  }

  /** The fibers of the history, those that published without the lock left out. */
  function Locked(history: seq<Entry>): seq<nat> {
    if history == [] then []
    else
      var last := history[|history| - 1];
      Locked(history[..|history| - 1]) + (if last.Entry? then [last.fiber] else [])
  }

  /** What the cell is while fiber `f` runs `op` over `base`, the replayed history. */
  ghost predicate FiberSound(f: Fiber, op: Op, base: Cell, cell: Cell) {
    match f
    case Reading => cell == base && !op.Publish? && !op.Set?
    case Writing(next, answer) => cell == base && !op.Publish? && (next, answer) == Commit(op, base.store)
    case Publishing(next, answer) =>
      if op.Publish? then cell == base && next == op.value && answer.Done?
      else cell == base.(store := next) && (next, answer) == Commit(op, base.store)
    case _ => cell == base
  }

  /** At `p` of the history stands the operation of `who`, and `answer` is what it answers there. */
  ghost predicate AnsweredAt(initial: Value, w: World, who: nat, answer: Answer, p: nat) {
    && who < |w.ops| && p < |w.history|
    && w.history[p].Entry? && w.history[p].fiber == who && w.history[p].op == w.ops[who]
    && answer == Reply(Replay(initial, w.history[..p]), w.ops[who], w.history[p].fate)
    && (w.history[p].fate.Completed? || w.history[p].fate.FailedToRead? || w.history[p].fate.FailedToWrite?)
  }

  ghost predicate LockSound(w: World) {
    && |w.ops| == |w.fibers|
    && (w.holder.Some? ==> w.holder.value < |w.fibers| && Holds(w.fibers[w.holder.value]))
    && (forall i :: 0 <= i < |w.fibers| && Holds(w.fibers[i]) ==> w.holder == Some(i))
  }

  /** The fiber that has the lock and is not in the history yet. */
  function Ahead(w: World): seq<nat> {
    match w.holder
    case None => []
    case Some(i) => if i < |w.fibers| && InFlight(w.fibers[i]) then [i] else []
  }

  ghost predicate OrderSound(w: World) {
    w.acquired == Locked(w.history) + Ahead(w)
  }

  /** The fiber has not got the lock, and still may. */
  predicate Outside(f: Fiber) {
    f.Idle? || f.Waiting?
  }

  ghost predicate AcquiredOnce(w: World) {
    && (forall i :: 0 <= i < |w.acquired| ==> w.acquired[i] < |w.fibers| && !Outside(w.fibers[w.acquired[i]]))
    && (forall i, j :: 0 <= i < j < |w.acquired| ==> w.acquired[i] != w.acquired[j])
  }

  ghost predicate HistorySound(w: World) {
    forall p :: 0 <= p < |w.history| && w.history[p].Entry? ==>
      w.history[p].fiber < |w.ops| && w.history[p].op == w.ops[w.history[p].fiber]
  }

  ghost predicate CellSound(initial: Value, w: World)
    requires LockSound(w)
  {
    var base := Replay(initial, w.history);
    && w.cell.log == base.log
    && (match w.holder
        case None => w.cell == base
        case Some(i) => FiberSound(w.fibers[i], w.ops[i], base, w.cell))
  }

  ghost predicate AnswersSound(initial: Value, w: World) {
    forall i :: 0 <= i < |w.fibers| && Answered(w.fibers[i]) ==>
      exists p: nat :: AnsweredAt(initial, w, i, w.fibers[i].answer, p)
  }

  ghost predicate SubscribersSound(w: World) {
    && w.cell.log != []
    && (forall i :: 0 <= i < |w.subscribers| ==>
          && 1 <= w.subscribers[i].joined <= |w.cell.log|
          && w.subscribers[i].received == w.cell.log[w.subscribers[i].joined - 1..])
  }

  ghost predicate Inv(initial: Value, w: World) {
    LockSound(w) && OrderSound(w) && AcquiredOnce(w) && HistorySound(w) &&
    CellSound(initial, w) && AnswersSound(initial, w) && SubscribersSound(w)
  }

  // --- Every step keeps the invariant -----------------------------------------------------------

  lemma ReplayGrows(initial: Value, history: seq<Entry>, e: Entry)
    ensures Replay(initial, history + [e]) == Apply(Replay(initial, history), e)
    ensures Locked(history + [e]) == Locked(history) + (if e.Entry? then [e.fiber] else [])
  {
    assert (history + [e])[..|history|] == history;
  }

  lemma AdvanceKeepsLock(w: World, who: nat, ok: bool)
    requires LockSound(w) && who < |w.fibers|
    ensures LockSound(AdvanceFiber(w, who, ok))
  {
    hide Commit, Deliver;
    if Holds(w.fibers[who]) {
      HolderIs(w, who);
    }
  }

  lemma KillKeepsLock(w: World, who: nat)
    requires LockSound(w) && who < |w.fibers|
    ensures LockSound(KillFiber(w, who))
  {
    hide Commit, Deliver;
    if Holds(w.fibers[who]) {
      HolderIs(w, who);
    }
  }

  lemma StepKeepsLock(w: World, a: Action)
    requires LockSound(w)
    ensures LockSound(Step(w, a))
  {
    match a {
      case Advance(who, ok) => if who < |w.fibers| { AdvanceKeepsLock(w, who, ok); }
      case Kill(who) => if who < |w.fibers| { KillKeepsLock(w, who); }
      case _ =>
    }
  }

  lemma HolderIs(w: World, who: nat)
    requires LockSound(w) && who < |w.fibers| && Holds(w.fibers[who])
    ensures w.holder == Some(who)
  {
  }

  lemma AdvanceKeepsOrder(initial: Value, w: World, who: nat, ok: bool)
    requires LockSound(w) && OrderSound(w) && who < |w.fibers|
    ensures OrderSound(AdvanceFiber(w, who, ok))
  {
    hide Replay, Apply, Commit, Deliver, Locked;
    if Holds(w.fibers[who]) {
      HolderIs(w, who);
      hide LockSound;
      var v := AdvanceFiber(w, who, ok);
      if v.history != w.history {
        ReplayGrows(initial, w.history, v.history[|w.history|]);
      }
    }
  }

  lemma KillKeepsOrder(initial: Value, w: World, who: nat)
    requires LockSound(w) && OrderSound(w) && who < |w.fibers|
    ensures OrderSound(KillFiber(w, who))
  {
    hide Replay, Apply, Commit, Deliver, Locked;
    if Holds(w.fibers[who]) {
      HolderIs(w, who);
      hide LockSound;
      var v := KillFiber(w, who);
      if v.history != w.history {
        ReplayGrows(initial, w.history, v.history[|w.history|]);
      }
    }
  }

  lemma StepKeepsOrder(initial: Value, w: World, a: Action)
    requires LockSound(w) && OrderSound(w)
    ensures OrderSound(Step(w, a))
  {
    hide Replay, Apply, Locked;
    match a {
      case Advance(who, ok) => if who < |w.fibers| { AdvanceKeepsOrder(initial, w, who, ok); }
      case Kill(who) => if who < |w.fibers| { KillKeepsOrder(initial, w, who); }
      case PublishUnsafe(value) => ReplayGrows(initial, w.history, Unlocked(value));
      case _ =>
    }
  }

  lemma AdvanceAcquires(w: World, who: nat, ok: bool)
    requires |w.ops| == |w.fibers| && who < |w.fibers|
    ensures var v := AdvanceFiber(w, who, ok);
            && (!Outside(w.fibers[who]) ==> !Outside(v.fibers[who]))
            && (|| v.acquired == w.acquired
                || (w.fibers[who].Waiting? && !Outside(v.fibers[who]) && v.acquired == w.acquired + [who]))
  {
    hide Commit, Deliver;
  }

  /** Only a waiting fiber acquires, and a fiber that has left the queue stays out of it. */
  lemma StepAcquires(w: World, a: Action)
    requires |w.ops| == |w.fibers|
    ensures |Step(w, a).fibers| == |w.fibers|
    ensures forall i :: 0 <= i < |w.fibers| && !Outside(w.fibers[i]) ==> !Outside(Step(w, a).fibers[i])
    ensures || Step(w, a).acquired == w.acquired
            || (&& a.Advance? && a.who < |w.fibers| && w.fibers[a.who].Waiting?
                && !Outside(Step(w, a).fibers[a.who]) && Step(w, a).acquired == w.acquired + [a.who])
  {
    StepMoves(w, a);
    if a.Advance? && a.who < |w.fibers| {
      AdvanceAcquires(w, a.who, a.ok);
      hide AdvanceFiber;
    } else {
      hide Commit, Deliver;
    }
  }

  lemma StepKeepsAcquiredOnce(w: World, a: Action)
    requires |w.ops| == |w.fibers| && AcquiredOnce(w)
    ensures AcquiredOnce(Step(w, a))
  {
    StepAcquires(w, a);
    hide Step;
  }

  lemma StepKeepsHistory(w: World, a: Action)
    requires |w.ops| == |w.fibers| && HistorySound(w)
    ensures HistorySound(Step(w, a))
  {
    hide Commit, Deliver;
  }

  lemma AdvanceKeepsCell(initial: Value, w: World, who: nat, ok: bool)
    requires LockSound(w) && CellSound(initial, w) && who < |w.fibers|
    requires LockSound(AdvanceFiber(w, who, ok))
    ensures CellSound(initial, AdvanceFiber(w, who, ok))
  {
    hide Replay, Deliver, Locked;
    var v := AdvanceFiber(w, who, ok);
    var f := w.fibers[who];
    if f.Waiting? {
    } else if f.Reading? {
      assert w.holder == Some(who) by { HolderIs(w, who); }
      ReplayGrows(initial, w.history, Entry(who, w.ops[who], FailedToRead));
    } else if f.Writing? {
      assert w.holder == Some(who) by { HolderIs(w, who); }
      ReplayGrows(initial, w.history, Entry(who, w.ops[who], FailedToWrite));
    } else if f.Publishing? {
      assert w.holder == Some(who) by { HolderIs(w, who); }
      ReplayGrows(initial, w.history, Entry(who, w.ops[who], Completed));
    } else if f.Releasing? {
      assert w.holder == Some(who) by { HolderIs(w, who); }
    }
  }

  lemma KillKeepsCell(initial: Value, w: World, who: nat)
    requires LockSound(w) && CellSound(initial, w) && who < |w.fibers|
    requires LockSound(KillFiber(w, who))
    ensures CellSound(initial, KillFiber(w, who))
  {
    hide Replay, Deliver, Locked;
    if Holds(w.fibers[who]) {
      HolderIs(w, who);
      if InFlight(w.fibers[who]) {
        ReplayGrows(initial, w.history, KillFiber(w, who).history[|w.history|]);
      }
    }
  }

  lemma StepKeepsCell(initial: Value, w: World, a: Action)
    requires LockSound(w) && CellSound(initial, w)
    requires LockSound(Step(w, a))
    ensures CellSound(initial, Step(w, a))
  {
    match a {
      case Advance(who, ok) => if who < |w.fibers| { AdvanceKeepsCell(initial, w, who, ok); }
      case Kill(who) => if who < |w.fibers| { KillKeepsCell(initial, w, who); }
      case PublishUnsafe(value) =>
        hide Replay;
        ReplayGrows(initial, w.history, Unlocked(value));
      case _ =>
    }
  }

  lemma EmitKeepsSubscribers(w: World, value: Value)
    requires SubscribersSound(w)
    ensures SubscribersSound(Emit(w, value))
  {
    forall i | 0 <= i < |w.subscribers|
      ensures w.subscribers[i].received + [value] == (w.cell.log + [value])[w.subscribers[i].joined - 1..]
    {
    }
  }

  /** Only publishing changes the log, and it delivers what it logs. */
  lemma AdvanceEmits(w: World, who: nat, ok: bool)
    requires |w.ops| == |w.fibers| && who < |w.fibers|
    ensures var v := AdvanceFiber(w, who, ok);
            if w.fibers[who].Publishing? then
              v.cell.log == Emit(w, w.fibers[who].next).cell.log && v.subscribers == Emit(w, w.fibers[who].next).subscribers
            else v.cell.log == w.cell.log && v.subscribers == w.subscribers
  {
    hide Commit, Deliver;
  }

  lemma SameSubscribers(w: World, v: World)
    requires SubscribersSound(w) && v.cell.log == w.cell.log && v.subscribers == w.subscribers
    ensures SubscribersSound(v)
  {
  }

  lemma StepKeepsSubscribers(w: World, a: Action)
    requires |w.ops| == |w.fibers| && SubscribersSound(w)
    ensures SubscribersSound(Step(w, a))
  {
    match a
    case Advance(who, ok) =>
      hide AdvanceFiber, Emit, SubscribersSound;
      if who < |w.fibers| {
        AdvanceEmits(w, who, ok);
        if w.fibers[who].Publishing? {
          EmitKeepsSubscribers(w, w.fibers[who].next);
          SameSubscribers(Emit(w, w.fibers[who].next), AdvanceFiber(w, who, ok));
        } else {
          SameSubscribers(w, AdvanceFiber(w, who, ok));
        }
      }
    case PublishUnsafe(value) =>
      hide Deliver, Emit, SubscribersSound;
      EmitKeepsSubscribers(w, value);
      SameSubscribers(Emit(w, value), Step(w, a));
    case Subscribe =>
    case Call(_) =>
    case Kill(_) =>
      hide Deliver, SubscribersSound;
      SameSubscribers(w, Step(w, a));
  }

  lemma AnswerStays(initial: Value, w: World, v: World, who: nat, answer: Answer, p: nat)
    requires w.ops == v.ops && w.history <= v.history
    requires AnsweredAt(initial, w, who, answer, p)
    ensures AnsweredAt(initial, v, who, answer, p)
  {
    assert v.history[..p] == w.history[..p];
  }

  /** The step that records an operation answers what the operation answers there. */
  lemma AnswerRecorded(initial: Value, w: World, who: nat, ok: bool)
    requires LockSound(w) && CellSound(initial, w)
    requires who < |w.fibers|
    requires InFlight(w.fibers[who]) && Step(w, Advance(who, ok)).fibers[who].Releasing?
    ensures AnsweredAt(initial, Step(w, Advance(who, ok)), who, Step(w, Advance(who, ok)).fibers[who].answer, |w.history|)
  {
    var v := Step(w, Advance(who, ok));
    assert v.history[..|w.history|] == w.history;
    assert w.holder == Some(who);
  }

  /** The fiber a step is about. */
  predicate Moves(w: World, a: Action) {
    (a.Call? || a.Advance? || a.Kill?) && a.who < |w.fibers|
  }

  /** A step moves no other fiber than the one it is about. */
  lemma StepMoves(w: World, a: Action)
    requires |w.ops| == |w.fibers|
    ensures var v := Step(w, a);
            && v.ops == w.ops && |v.fibers| == |w.fibers|
            && (Moves(w, a) ==> v.fibers == w.fibers[a.who := v.fibers[a.who]])
            && (!Moves(w, a) ==> v.fibers == w.fibers)
            && (a.Kill? && Moves(w, a) ==> v.fibers[a.who] == w.fibers[a.who] || v.fibers[a.who].Killed?)
            && (a.Call? && Moves(w, a) ==> v.fibers[a.who] == w.fibers[a.who] || v.fibers[a.who].Waiting?)
  {
    hide Commit, Deliver;
  }

  /** Operations are fixed and the history only grows. */
  lemma StepFrame(w: World, a: Action)
    requires |w.ops| == |w.fibers|
    ensures Step(w, a).ops == w.ops && w.history <= Step(w, a).history
    ensures |Step(w, a).fibers| == |w.fibers|
  {
    hide Commit, Deliver;
  }

  /** An answer comes from recording an operation, and stays. */
  lemma AdvanceAnswers(w: World, who: nat, ok: bool)
    requires |w.ops| == |w.fibers| && who < |w.fibers|
    ensures var f, g := w.fibers[who], AdvanceFiber(w, who, ok).fibers[who];
            Answered(g) ==> if InFlight(f) then g.Releasing? else Answered(f) && f.answer == g.answer
  {
    hide Commit, Deliver;
  }

  lemma StepAnswers(w: World, a: Action, i: nat)
    requires |w.ops| == |w.fibers| && i < |w.fibers|
    requires i < |Step(w, a).fibers| && Answered(Step(w, a).fibers[i])
    ensures if InFlight(w.fibers[i]) then a == Advance(i, a.ok) && Step(w, a).fibers[i].Releasing?
            else Answered(w.fibers[i]) && w.fibers[i].answer == Step(w, a).fibers[i].answer
  {
    if a.Advance? && a.who == i {
      AdvanceAnswers(w, i, a.ok);
    } else {
      hide Commit, Deliver;
      StepMoves(w, a);
    }
  }

  lemma StepKeepsAnswers(initial: Value, w: World, a: Action)
    requires LockSound(w) && CellSound(initial, w) && AnswersSound(initial, w)
    ensures AnswersSound(initial, Step(w, a))
  {
    StepFrame(w, a);
    hide Step, AnsweredAt, CellSound;
    var v := Step(w, a);
    forall i | 0 <= i < |v.fibers| && Answered(v.fibers[i])
      ensures exists p: nat :: AnsweredAt(initial, v, i, v.fibers[i].answer, p)
    {
      StepAnswers(w, a, i);
      if InFlight(w.fibers[i]) {
        AnswerRecorded(initial, w, i, a.ok);
      } else {
        var p: nat :| AnsweredAt(initial, w, i, w.fibers[i].answer, p);
        AnswerStays(initial, w, v, i, w.fibers[i].answer, p);
      }
    }
  }

  lemma StepKeepsInv(initial: Value, w: World, a: Action)
    requires Inv(initial, w)
    ensures Inv(initial, Step(w, a))
  {
    StepKeepsLock(w, a);
    StepKeepsOrder(initial, w, a);
    StepKeepsAcquiredOnce(w, a);
    StepKeepsHistory(w, a);
    StepKeepsCell(initial, w, a);
    StepKeepsAnswers(initial, w, a);
    StepKeepsSubscribers(w, a);
    hide LockSound, OrderSound, AcquiredOnce, HistorySound, CellSound, AnswersSound, SubscribersSound, Step;
  }

  // --- Runs ---------------------------------------------------------------------------------------

  /** The world after the steps of `run`. */
  function Run(initial: Value, ops: seq<Op>, run: seq<Action>): (w: World)
    ensures w.ops == ops && |w.fibers| == |ops|
  {
    if run == [] then Initial(initial, ops)
    else Step(Run(initial, ops, run[..|run| - 1]), run[|run| - 1])
  }

  lemma {:induction false} RunKeepsInv(initial: Value, ops: seq<Op>, run: seq<Action>)
    ensures Inv(initial, Run(initial, ops, run))
  {
    if run != [] {
      RunKeepsInv(initial, ops, run[..|run| - 1]);
      StepKeepsInv(initial, Run(initial, ops, run[..|run| - 1]), run[|run| - 1]);
    }
  }

  lemma RunSteps(initial: Value, ops: seq<Op>, run: seq<Action>, a: Action)
    ensures Run(initial, ops, run + [a]) == Step(Run(initial, ops, run), a)
  {
    assert (run + [a])[..|run|] == run;
  }

  /** The world after the steps of `actions` from `w` on. */
  function Exec(w: World, actions: seq<Action>): (v: World)
    requires |w.ops| == |w.fibers|
    ensures v.ops == w.ops && |v.fibers| == |w.fibers|
    decreases |actions|
  {
    if actions == [] then w else Exec(Step(w, actions[0]), actions[1..])
  }

  lemma ExecCons(w: World, a: Action, rest: seq<Action>)
    requires |w.ops| == |w.fibers|
    ensures |Step(w, a).ops| == |Step(w, a).fibers| && Exec(w, [a] + rest) == Exec(Step(w, a), rest)
  {
    hide Step;
    StepFrame(w, a);
    assert ([a] + rest)[1..] == rest;
  }

  lemma {:induction false} ExecSplits(w: World, first: seq<Action>, rest: seq<Action>)
    requires |w.ops| == |w.fibers|
    ensures Exec(w, first + rest) == Exec(Exec(w, first), rest)
    decreases |first|
  {
    hide Step;
    if first == [] {
      assert first + rest == rest;
    } else {
      StepFrame(w, first[0]);
      assert first == [first[0]] + first[1..];
      assert first + rest == [first[0]] + (first[1..] + rest);
      ExecCons(w, first[0], first[1..] + rest);
      ExecSplits(Step(w, first[0]), first[1..], rest);
    }
  }

  lemma ExecAppends(w: World, actions: seq<Action>, a: Action)
    requires |w.ops| == |w.fibers|
    ensures Exec(w, actions + [a]) == Step(Exec(w, actions), a)
  {
    hide Step;
    ExecSplits(w, actions, [a]);
    ExecCons(Exec(w, actions), a, []);
    assert [a] + [] == [a];
  }

  lemma {:induction false} RunSplits(initial: Value, ops: seq<Op>, run: seq<Action>, more: seq<Action>)
    ensures Run(initial, ops, run + more) == Exec(Run(initial, ops, run), more)
    decreases |more|
  {
    hide Step;
    if more == [] {
      assert run + more == run;
    } else {
      var front, last := more[..|more| - 1], more[|more| - 1];
      RunSplits(initial, ops, run, front);
      RunSteps(initial, ops, run + front, last);
      ExecAppends(Run(initial, ops, run), front, last);
      assert run + more == (run + front) + [last];
      assert more == front + [last];
    }
  }

  /**
   * Whenever the lock is free, the cell is what the operations leave when run
   * one at a time in lock order, each once; and every returned answer is the
   * operation's answer at its place in that order.
   */
  lemma Linearizable(initial: Value, ops: seq<Op>, run: seq<Action>)
    ensures var w := Run(initial, ops, run);
            && (w.holder.None? ==> w.cell == Replay(initial, w.history) && Locked(w.history) == w.acquired)
            && Locked(w.history) <= w.acquired
            && (forall i, j :: 0 <= i < j < |w.acquired| ==> w.acquired[i] != w.acquired[j])
            && HistorySound(w)
            && (forall i :: 0 <= i < |ops| && w.fibers[i].Returned? ==>
                  exists p: nat :: AnsweredAt(initial, w, i, w.fibers[i].answer, p))
  {
    RunKeepsInv(initial, ops, run);
    hide AnsweredAt, Replay, Locked, HistorySound;
  }

  /** A read without the lock sees the store after the history, or after the one operation in flight. */
  lemma GetSeesACommittedValue(initial: Value, ops: seq<Op>, run: seq<Action>)
    ensures var w := Run(initial, ops, run);
            || w.cell.store == Replay(initial, w.history).store
            || (w.holder.Some? && w.holder.value < |ops| &&
                w.cell.store ==
                Replay(initial, w.history + [Entry(w.holder.value, ops[w.holder.value], Completed)]).store)
  {
    RunKeepsInv(initial, ops, run);
    var w := Run(initial, ops, run);
    if w.holder.Some? {
      ReplayGrows(initial, w.history, Entry(w.holder.value, ops[w.holder.value], Completed));
    }
  }

  // --- No update is lost ------------------------------------------------------------------------------

  function CountWrote(fibers: seq<Fiber>, ops: seq<Op>): (n: nat)
    requires |fibers| == |ops|
    ensures n <= |ops|
    ensures n == |ops| <==> forall i :: 0 <= i < |ops| ==> Wrote(fibers[i], ops[i])
  {
    if fibers == [] then 0
    else
      var last := |fibers| - 1;
      CountWrote(fibers[..last], ops[..last]) + (if Wrote(fibers[last], ops[last]) then 1 else 0)
  }

  lemma {:induction false} CountMoves(fibers: seq<Fiber>, ops: seq<Op>, who: nat, f: Fiber)
    requires |fibers| == |ops| && who < |fibers|
    requires Wrote(fibers[who], ops[who]) ==> Wrote(f, ops[who])
    ensures CountWrote(fibers[who := f], ops) ==
            CountWrote(fibers, ops) + (if Wrote(f, ops[who]) && !Wrote(fibers[who], ops[who]) then 1 else 0)
  {
    hide Wrote;
    var last := |fibers| - 1;
    if who < last {
      assert fibers[who := f][..last] == fibers[..last][who := f];
      CountMoves(fibers[..last], ops[..last], who, f);
    } else {
      assert fibers[who := f][..last] == fibers[..last];
    }
  }

  function Iterate(f: Value -> Value, x: Value, n: nat): Value {
    if n == 0 then x else f(Iterate(f, x, n - 1))
  }

  ghost predicate AllUpdate(ops: seq<Op>, f: Value -> Value) {
    forall i :: 0 <= i < |ops| ==> ops[i] == Update(f)
  }

  /** The step is a write that goes through. */
  predicate Writes(w: World, a: Action) {
    a.Advance? && a.who < |w.fibers| && w.fibers[a.who].Writing? && a.ok
  }

  /** A fiber's write goes through at most once, and applies its function. */
  lemma AdvanceMovesOne(initial: Value, w: World, who: nat, ok: bool)
    requires Inv(initial, w) && who < |w.fibers| && w.ops[who].Update?
    ensures var v, writes := AdvanceFiber(w, who, ok), w.fibers[who].Writing? && ok;
            && (Wrote(v.fibers[who], w.ops[who]) <==> Wrote(w.fibers[who], w.ops[who]) || writes)
            && (writes ==> !Wrote(w.fibers[who], w.ops[who]))
            && v.cell.store == (if writes then w.ops[who].f(w.cell.store) else w.cell.store)
  {
    hide Replay, Deliver, Locked, OrderSound, AcquiredOnce, HistorySound, AnswersSound, SubscribersSound;
    if Holds(w.fibers[who]) {
      HolderIs(w, who);
    }
  }

  lemma StepMovesOne(initial: Value, w: World, a: Action, who: nat)
    requires Inv(initial, w) && who < |w.fibers| && w.ops[who].Update?
    requires Moves(w, a) && a.who == who
    ensures var v := Step(w, a);
            && |v.fibers| == |w.fibers|
            && (Wrote(v.fibers[who], w.ops[who]) <==> Wrote(w.fibers[who], w.ops[who]) || Writes(w, a))
            && (Writes(w, a) ==> !Wrote(w.fibers[who], w.ops[who]))
            && v.cell.store == (if Writes(w, a) then w.ops[who].f(w.cell.store) else w.cell.store)
  {
    if a.Advance? {
      AdvanceMovesOne(initial, w, who, a.ok);
    } else {
      hide Replay, Deliver, Locked, OrderSound, AcquiredOnce, HistorySound, CellSound, AnswersSound, SubscribersSound;
    }
  }

  /** The store only changes at a write, which applies `f` once and is counted once. */
  lemma StepCounts(initial: Value, w: World, a: Action, f: Value -> Value)
    requires Inv(initial, w) && AllUpdate(w.ops, f)
    ensures var v := Step(w, a);
            && |v.fibers| == |w.ops| && v.ops == w.ops
            && CountWrote(v.fibers, v.ops) == CountWrote(w.fibers, w.ops) + (if Writes(w, a) then 1 else 0)
            && v.cell.store == (if Writes(w, a) then f(w.cell.store) else w.cell.store)
  {
    hide CountWrote, Wrote, Deliver, OrderSound, AcquiredOnce, HistorySound, CellSound, AnswersSound, SubscribersSound;
    StepMoves(w, a);
    if Moves(w, a) {
      hide Step;
      StepMovesOne(initial, w, a, a.who);
      CountMoves(w.fibers, w.ops, a.who, Step(w, a).fibers[a.who]);
    }
  }

  lemma StepLands(initial: Value, w: World, a: Action, f: Value -> Value)
    requires Inv(initial, w) && AllUpdate(w.ops, f)
    requires |w.fibers| == |w.ops|
    requires w.cell.store == Iterate(f, initial, CountWrote(w.fibers, w.ops))
    ensures |Step(w, a).fibers| == |w.ops|
    ensures Step(w, a).cell.store == Iterate(f, initial, CountWrote(Step(w, a).fibers, w.ops))
  {
    hide Step, Inv, CountWrote, AllUpdate, Writes, Wrote;
    StepCounts(initial, w, a, f);
    var n := CountWrote(w.fibers, w.ops);
    assert Iterate(f, initial, n + 1) == f(Iterate(f, initial, n));
  }

  /** At every point of every run of `update(f)` fibers, `f` has been applied once for each write that went through. */
  lemma {:induction false} EveryUpdateLands(initial: Value, ops: seq<Op>, f: Value -> Value, run: seq<Action>)
    requires AllUpdate(ops, f)
    ensures var w := Run(initial, ops, run); w.cell.store == Iterate(f, initial, CountWrote(w.fibers, ops))
  {
    hide Step, Inv, CountWrote, AllUpdate, Wrote;
    if run == [] {
      NoneWrote(ops);
    } else {
      EveryUpdateLands(initial, ops, f, run[..|run| - 1]);
      RunKeepsInv(initial, ops, run[..|run| - 1]);
      StepLands(initial, Run(initial, ops, run[..|run| - 1]), run[|run| - 1], f);
    }
  }

  /** So once every fiber has returned, all of them are in the store. */
  lemma AllUpdatesLand(initial: Value, ops: seq<Op>, f: Value -> Value, run: seq<Action>)
    requires AllUpdate(ops, f)
    requires forall i :: 0 <= i < |ops| ==> Run(initial, ops, run).fibers[i] == Returned(Done)
    ensures Run(initial, ops, run).cell.store == Iterate(f, initial, |ops|)
  {
    EveryUpdateLands(initial, ops, f, run);
    hide Run, CountWrote;
  }

  lemma {:induction false} NoneWrote(ops: seq<Op>)
    ensures CountWrote(seq(|ops|, i => Idle), ops) == 0
  {
    if ops != [] {
      var last := |ops| - 1;
      assert seq(|ops|, i => Idle)[..last] == seq(last, i => Idle);
      NoneWrote(ops[..last]);
    }
  }

  // --- The change log -------------------------------------------------------------------------------------

  function StoreAfter(initial: Value, history: seq<Entry>): Value {
    if history == [] then initial
    else
      var before := StoreAfter(initial, history[..|history| - 1]);
      var e := history[|history| - 1];
      if e.Entry? && !e.op.Publish? && (e.fate.Completed? || e.fate.KilledAfterWrite?) then Commit(e.op, before).0
      else before
  }

  /** What the log gained: the value of every completed write and of every publish, in order. */
  function Emitted(initial: Value, history: seq<Entry>): seq<Value> {
    if history == [] then []
    else
      var before := Emitted(initial, history[..|history| - 1]);
      match history[|history| - 1]
      case Unlocked(value) => before + [value]
      case Entry(_, op, fate) =>
        if !fate.Completed? then before
        else if op.Publish? then before + [op.value]
        else before + [StoreAfter(initial, history)]
  }

  lemma {:induction false} ReplaySplits(initial: Value, history: seq<Entry>)
    ensures Replay(initial, history) == Cell(StoreAfter(initial, history), [initial] + Emitted(initial, history))
  {
    if history != [] {
      ReplaySplits(initial, history[..|history| - 1]);
    }
  }

  /** The log is the initial value and then exactly what was emitted, at every point of every run. */
  lemma ChangeLog(initial: Value, ops: seq<Op>, run: seq<Action>)
    ensures var w := Run(initial, ops, run);
            w.cell.log == [initial] + Emitted(initial, w.history)
  {
    RunKeepsInv(initial, ops, run);
    ReplaySplits(initial, Run(initial, ops, run).history);
  }

  lemma {:induction false} LogGrows(initial: Value, history: seq<Entry>, p: nat)
    requires p <= |history|
    ensures Replay(initial, history[..p]).log <= Replay(initial, history).log
  {
    if p < |history| {
      assert history[..|history| - 1][..p] == history[..p];
      LogGrows(initial, history[..|history| - 1], p);
    } else {
      assert history[..p] == history;
    }
  }

  /** What the operation writes over `current`, told kind by kind. */
  ghost predicate Wants(op: Op, current: Value, next: Value) {
    match op
    case Set(value) => next == value
    case Update(f) => next == f(current)
    case UpdateAndGet(f) => next == f(current)
    case Modify(g) => next == g(current).1
    case Publish(_) => next == current
  }

  /** An operation that answered `answer` found `before` and left `after`. */
  ghost predicate Took(op: Op, answer: Answer, before: Cell, after: Cell) {
    match answer
    case ReadFailed => after == before
    case WriteFailed => after == before
    case Done =>
      && (op.Set? || op.Update? || op.Publish?)
      && Wants(op, before.store, after.store)
      && after.log == before.log + [if op.Publish? then op.value else after.store]
    case Got(value) =>
      && op.UpdateAndGet? && value == op.f(before.store)
      && after.store == value && after.log == before.log + [value]
    case Gave(output) =>
      && op.Modify? && output == op.g(before.store).0
      && after.store == op.g(before.store).1 && after.log == before.log + [after.store]
  }

  /** An operation that was killed took place up to its write, or not at all; one that failed not at all. */
  ghost predicate Happened(e: Entry, before: Cell, after: Cell) {
    match e
    case Unlocked(value) => after.store == before.store && after.log == before.log + [value]
    case Entry(_, op, fate) =>
      match fate
      case Completed =>
        && Wants(op, before.store, after.store)
        && after.log == before.log + [if op.Publish? then op.value else after.store]
      case KilledAfterWrite => Wants(op, before.store, after.store) && after.log == before.log
      case FailedToRead => after == before
      case FailedToWrite => after == before
      case KilledBeforeEffect => after == before
  }

  /** Every place in a history happened as its operation and fate say. */
  lemma HistoryHappened(initial: Value, history: seq<Entry>, p: nat)
    requires p < |history|
    ensures Happened(history[p], Replay(initial, history[..p]), Replay(initial, history[..p + 1]))
  {
    assert history[..p + 1] == history[..p] + [history[p]];
    ReplayGrows(initial, history[..p], history[p]);
    hide Replay;
  }

  /** The operation of fiber `i` stands at `p`, and its answer is what it took there. */
  ghost predicate TookAt(initial: Value, w: World, i: nat, answer: Answer, p: nat) {
    && i < |w.ops| && p < |w.history|
    && w.history[p].Entry? && w.history[p].fiber == i && w.history[p].op == w.ops[i]
    && Took(w.ops[i], answer, Replay(initial, w.history[..p]), Replay(initial, w.history[..p + 1]))
  }

  lemma AnsweredTook(initial: Value, w: World, i: nat, answer: Answer, p: nat)
    requires AnsweredAt(initial, w, i, answer, p)
    ensures TookAt(initial, w, i, answer, p)
  {
    HistoryHappened(initial, w.history, p);
    hide Replay;
  }

  /**
   * Every returned answer is computed from the store as it stood at the
   * operation's place in lock order, and the store and the log right after it
   * hold what the answer says.
   */
  lemma AnswersAreComputedInPlace(initial: Value, ops: seq<Op>, run: seq<Action>, i: nat)
    requires i < |ops| && Run(initial, ops, run).fibers[i].Returned?
    ensures exists p: nat ::
              TookAt(initial, Run(initial, ops, run), i, Run(initial, ops, run).fibers[i].answer, p)
  {
    hide LockSound, OrderSound, AcquiredOnce, HistorySound, SubscribersSound, AnsweredAt;
    var w := Run(initial, ops, run);
    RunKeepsInv(initial, ops, run);
    var p: nat :| AnsweredAt(initial, w, i, w.fibers[i].answer, p);
    AnsweredTook(initial, w, i, w.fibers[i].answer, p);
  }

  /** Whoever gets a value back got it from a write that is in the log ever after. */
  lemma ReturnedValuesWereLogged(initial: Value, ops: seq<Op>, run: seq<Action>, i: nat)
    requires i < |ops| && Run(initial, ops, run).fibers[i].Returned?
    requires Run(initial, ops, run).fibers[i].answer.Got? || Run(initial, ops, run).fibers[i].answer.Gave?
    ensures exists p: nat ::
              && TookAt(initial, Run(initial, ops, run), i, Run(initial, ops, run).fibers[i].answer, p)
              && Replay(initial, Run(initial, ops, run).history[..p + 1]).store in Run(initial, ops, run).cell.log
  {
    hide LockSound, OrderSound, AcquiredOnce, HistorySound, SubscribersSound;
    var w := Run(initial, ops, run);
    RunKeepsInv(initial, ops, run);
    var p: nat :| AnsweredAt(initial, w, i, w.fibers[i].answer, p);
    AnsweredTook(initial, w, i, w.fibers[i].answer, p);
    HistoryHappened(initial, w.history, p);
    LogGrows(initial, w.history, p + 1);
    var before, after := Replay(initial, w.history[..p]), Replay(initial, w.history[..p + 1]);
    assert w.cell.log == Replay(initial, w.history).log;
    assert after.log[|before.log|] == after.store;
    assert w.cell.log[|before.log|] == after.store;
  }

  /** The last operation to touch store or log did not do both with one value. */
  predicate Stale(history: seq<Entry>) {
    history != [] &&
    var e := history[|history| - 1];
    match e
    case Unlocked(_) => true
    case Entry(_, op, fate) =>
      if op.Publish? then fate.Completed? || Stale(history[..|history| - 1])
      else fate.KilledAfterWrite? || (!fate.Completed? && Stale(history[..|history| - 1]))
  }

  lemma {:induction false} FreshHistory(initial: Value, history: seq<Entry>)
    requires !Stale(history)
    ensures var c := Replay(initial, history); c.log != [] && c.log[|c.log| - 1] == c.store
  {
    if history != [] && !Stale(history[..|history| - 1]) {
      FreshHistory(initial, history[..|history| - 1]);
    }
  }

  // --- Stale histories are exactly those that can tell log and store apart

  /** The operation with another value to write or to publish. */
  function WithValue(op: Op, value: Value): Op {
    match op
    case Set(_) => Set(value)
    case Update(_) => Update(_ => value)
    case UpdateAndGet(_) => UpdateAndGet(_ => value)
    case Modify(g) => Modify(current => (g(current).0, value))
    case Publish(_) => Publish(value)
  }

  predicate SameKind(op: Op, other: Op) {
    && (op.Set? <==> other.Set?) && (op.Update? <==> other.Update?) && (op.UpdateAndGet? <==> other.UpdateAndGet?)
    && (op.Modify? <==> other.Modify?)
  }

  /** The same fiber, kind of operation and fate, whatever the values and functions. */
  predicate SameShape(e: Entry, other: Entry) {
    match (e, other)
    case (Unlocked(_), Unlocked(_)) => true
    case (Entry(fiber, op, fate), Entry(fiber', op', fate')) => fiber == fiber' && fate == fate' && SameKind(op, op')
    case _ => false
  }

  predicate SameShapes(history: seq<Entry>, other: seq<Entry>) {
    |history| == |other| && forall i :: 0 <= i < |history| ==> SameShape(history[i], other[i])
  }

  ghost predicate InStep(initial: Value, history: seq<Entry>) {
    var c := Replay(initial, history); c.log != [] && c.log[|c.log| - 1] == c.store
  }

  lemma {:induction false} ShapeKeepsStale(history: seq<Entry>, other: seq<Entry>)
    requires SameShapes(history, other)
    ensures Stale(history) <==> Stale(other)
  {
    if history != [] {
      ShapeKeepsStale(history[..|history| - 1], other[..|other| - 1]);
    }
  }

  lemma LogIsNotEmpty(initial: Value, history: seq<Entry>)
    ensures Replay(initial, history).log != []
  {
    ReplaySplits(initial, history);
  }

  /** The entry decides by itself that the history is stale. */
  predicate Parts(e: Entry) {
    e.Unlocked? || (if e.op.Publish? then e.fate.Completed? else e.fate.KilledAfterWrite?)
  }

  /** Some value in place of the one `e` wrote or published sets log and store apart. */
  lemma PartingValue(initial: Value, before: seq<Entry>, e: Entry, x: Value, y: Value) returns (other: Entry)
    requires x != y && Parts(e)
    ensures SameShape(e, other) && !InStep(initial, before + [other])
  {
    LogIsNotEmpty(initial, before);
    var c := Replay(initial, before);
    if e.Unlocked? {
      other := Unlocked(if x == c.store then y else x);
    } else if e.op.Publish? {
      other := Entry(e.fiber, WithValue(e.op, if x == c.store then y else x), e.fate);
    } else {
      var last := c.log[|c.log| - 1];
      other := Entry(e.fiber, WithValue(e.op, if x == last then y else x), e.fate);
    }
    ReplayGrows(initial, before, other);
  }

  lemma {:induction false} StaleCanPart(initial: Value, history: seq<Entry>, x: Value, y: Value) returns (other: seq<Entry>)
    requires x != y && Stale(history)
    ensures SameShapes(history, other) && !InStep(initial, other)
  {
    hide Replay, InStep, WithValue;
    var before, e := history[..|history| - 1], history[|history| - 1];
    if Parts(e) {
      var e' := PartingValue(initial, before, e, x, y);
      other := before + [e'];
      SameShapeAsItself(before);
    } else {
      var before' := StaleCanPart(initial, before, x, y);
      other := before' + [e];
      IdleEntry(initial, before', e);
    }
  }

  lemma SameShapeAsItself(history: seq<Entry>)
    ensures SameShapes(history, history)
  {
  }

  /** An entry that neither writes nor publishes leaves the cell alone. */
  lemma IdleEntry(initial: Value, before: seq<Entry>, e: Entry)
    requires !Parts(e) && e.Entry? && (e.op.Publish? || !e.fate.Completed?)
    ensures InStep(initial, before + [e]) <==> InStep(initial, before)
  {
    ReplayGrows(initial, before, e);
  }

  /** Log and store end in step under all values exactly for the histories that are not stale. */
  lemma StaleExactly(initial: Value, history: seq<Entry>, x: Value, y: Value)
    requires x != y
    ensures (forall other :: SameShapes(history, other) ==> InStep(initial, other)) <==> !Stale(history)
  {
    hide Replay, InStep, SameShapes;
    if Stale(history) {
      var other := StaleCanPart(initial, history, x, y);
    } else {
      forall other | SameShapes(history, other)
        ensures InStep(initial, other)
      {
        ShapeKeepsStale(history, other);
        EndsInStep(initial, other);
      }
    }
  }

  lemma EndsInStep(initial: Value, history: seq<Entry>)
    requires !Stale(history)
    ensures InStep(initial, history)
  {
    FreshHistory(initial, history);
  }

  /** With the lock free, the last logged value is the stored one unless a publish or a half-done write came last. */
  lemma LastLoggedIsStored(initial: Value, ops: seq<Op>, run: seq<Action>)
    requires Run(initial, ops, run).holder.None? && !Stale(Run(initial, ops, run).history)
    ensures var c := Run(initial, ops, run).cell; c.log != [] && c.log[|c.log| - 1] == c.store
  {
    RunKeepsInv(initial, ops, run);
    FreshHistory(initial, Run(initial, ops, run).history);
  }

  /** Killing a fiber between its write and its publish does leave them apart. */
  lemma KilledWriteIsNotLogged(x: Value, y: Value)
    requires x != y
    ensures var w := Run(x, [Set(y)], [Call(0), Advance(0, true), Advance(0, true), Kill(0)]);
            w.holder.None? && w.cell == Cell(y, [x])
  {
    hide Deliver;
    var ops: seq<Op> := [Set(y)];
    var advance: Action := Advance(0, true);
    var called := Step(Initial(x, ops), Call(0));
    SetWrites(called, 0);
    ExecAppends(called, [advance] + [advance], Kill(0));
    RunSplits(x, ops, [], [Call(0)] + ([advance] + [advance] + [Kill(0)]));
    ExecCons(Initial(x, ops), Call(0), [advance] + [advance] + [Kill(0)]);
    assert [] + ([Call(0)] + ([advance] + [advance] + [Kill(0)])) == [Call(0), advance, advance, Kill(0)];
  }

  /** A `set` that gets the lock and has written, not published. */
  lemma SetWrites(w: World, who: nat)
    requires |w.ops| == |w.fibers| && who < |w.fibers|
    requires w.holder.None? && w.fibers[who].Waiting? && w.ops[who].Set?
    ensures Exec(w, [Advance(who, true)] + [Advance(who, true)])
            == w.(cell := w.cell.(store := w.ops[who].value), holder := Some(who),
                  fibers := w.fibers[who := Publishing(w.ops[who].value, Done)], acquired := w.acquired + [who])
  {
    hide Deliver;
    var a: Action := Advance(who, true);
    ExecCons(w, a, [a]);
    ExecCons(Step(w, a), a, []);
    assert [a] + [] == [a];
    assert w.fibers[who := Writing(w.ops[who].value, Done)][who := Publishing(w.ops[who].value, Done)]
           == w.fibers[who := Publishing(w.ops[who].value, Done)];
  }

  lemma StepKeepsSubscription(w: World, a: Action, i: nat)
    requires |w.ops| == |w.fibers| && i < |w.subscribers|
    ensures i < |Step(w, a).subscribers| && Step(w, a).subscribers[i].joined == w.subscribers[i].joined
  {
    hide Commit;
  }

  lemma {:induction false} SubscriptionStays(initial: Value, ops: seq<Op>, before: seq<Action>, after: seq<Action>, i: nat)
    requires i < |Run(initial, ops, before).subscribers|
    ensures i < |Run(initial, ops, before + after).subscribers|
    ensures Run(initial, ops, before + after).subscribers[i].joined == Run(initial, ops, before).subscribers[i].joined
  {
    if after == [] {
      assert before + after == before;
    } else {
      var shorter := after[..|after| - 1];
      SubscriptionStays(initial, ops, before, shorter, i);
      assert (before + shorter) + [after[|after| - 1]] == before + after;
      RunSteps(initial, ops, before + shorter, after[|after| - 1]);
      StepKeepsSubscription(Run(initial, ops, before + shorter), after[|after| - 1], i);
    }
  }

  /** Whoever joins after `before` receives the log from the element that was last when it joined, and nothing else. */
  lemma SubscriberSeesTheSuffix(initial: Value, ops: seq<Op>, before: seq<Action>, after: seq<Action>)
    ensures var joined := Run(initial, ops, before);
            var w := Run(initial, ops, before + [Subscribe] + after);
            && 1 <= |joined.cell.log| <= |w.cell.log|
            && |joined.subscribers| < |w.subscribers|
            && w.subscribers[|joined.subscribers|].received == w.cell.log[|joined.cell.log| - 1..]
  {
    RunKeepsInv(initial, ops, before);
    RunSteps(initial, ops, before, Subscribe);
    SubscriptionStays(initial, ops, before + [Subscribe], after, |Run(initial, ops, before).subscribers|);
    RunKeepsInv(initial, ops, before + [Subscribe] + after);
    hide LockSound, OrderSound, AcquiredOnce, HistorySound, CellSound, AnswersSound;
  }

  // --- The cell as the code updates it, one caller at a time ------------------------------------------------

  /** How a call ends when its read and its write succeed or not. */
  function FateOf(canRead: bool, canWrite: bool): Fate {
    if !canRead then FailedToRead else if !canWrite then FailedToWrite else Completed
  }

  class State {
    var store: Value
    var changes: seq<Value>

    function Contents(): Cell
      reads this
    {
      Cell(store, changes)
    }

    constructor (initial: Value)
      ensures Contents() == MakeCell(initial)
      ensures store == initial && changes == [initial]
    {
      store := initial;
      changes := [initial];
    }

    /** Writes through and, if that worked, publishes. */
    method CommitValue(value: Value, canWrite: bool) returns (written: bool)
      modifies this
      ensures written == canWrite
      ensures Contents() == if canWrite then Cell(value, old(changes) + [value]) else old(Contents())
    {
      written := canWrite;
      if written {
        store := value;
        changes := changes + [value];
      }
    }

    method Set(value: Value, canWrite: bool) returns (answer: Answer)
      modifies this
      ensures Contents() == Effect(old(Contents()), Op.Set(value), FateOf(true, canWrite))
      ensures answer == Reply(old(Contents()), Op.Set(value), FateOf(true, canWrite))
      ensures canWrite ==> store == value && changes == old(changes) + [value] && answer == Done
      ensures !canWrite ==> Contents() == old(Contents()) && answer == WriteFailed
    {
      var written := CommitValue(value, canWrite);
      answer := if written then Done else WriteFailed;
    }

    method Update(f: Value -> Value, canRead: bool, canWrite: bool) returns (answer: Answer)
      modifies this
      ensures Contents() == Effect(old(Contents()), Op.Update(f), FateOf(canRead, canWrite))
      ensures answer == Reply(old(Contents()), Op.Update(f), FateOf(canRead, canWrite))
      ensures canRead && canWrite ==>
                store == f(old(store)) && changes == old(changes) + [store] && answer == Done
      ensures !canRead || !canWrite ==>
                Contents() == old(Contents()) && answer == if canRead then WriteFailed else ReadFailed
    {
      if !canRead { return ReadFailed; }
      var written := CommitValue(f(store), canWrite);
      answer := if written then Done else WriteFailed;
    }

    method UpdateAndGet(f: Value -> Value, canRead: bool, canWrite: bool) returns (answer: Answer)
      modifies this
      ensures Contents() == Effect(old(Contents()), Op.UpdateAndGet(f), FateOf(canRead, canWrite))
      ensures answer == Reply(old(Contents()), Op.UpdateAndGet(f), FateOf(canRead, canWrite))
      ensures canRead && canWrite ==>
                store == f(old(store)) && changes == old(changes) + [store] && answer == Got(store)
      ensures !canRead || !canWrite ==>
                Contents() == old(Contents()) && answer == if canRead then WriteFailed else ReadFailed
    {
      if !canRead { return ReadFailed; }
      var next := f(store);
      var written := CommitValue(next, canWrite);
      answer := if written then Got(next) else WriteFailed;
    }

    method Modify(g: Value -> (Output, Value), canRead: bool, canWrite: bool) returns (answer: Answer)
      modifies this
      ensures Contents() == Effect(old(Contents()), Op.Modify(g), FateOf(canRead, canWrite))
      ensures answer == Reply(old(Contents()), Op.Modify(g), FateOf(canRead, canWrite))
      ensures canRead && canWrite ==>
                store == g(old(store)).1 && changes == old(changes) + [store]
                && answer == Gave(g(old(store)).0)
      ensures !canRead || !canWrite ==>
                Contents() == old(Contents()) && answer == if canRead then WriteFailed else ReadFailed
    {
      if !canRead { return ReadFailed; }
      var (output, next) := g(store);
      var written := CommitValue(next, canWrite);
      answer := if written then Gave(output) else WriteFailed;
    }

    method Publish(value: Value)
      modifies this
      ensures Contents() == Effect(old(Contents()), Op.Publish(value), Completed)
      ensures store == old(store) && changes == old(changes) + [value]
    {
      changes := changes + [value];
    }
  }
}
