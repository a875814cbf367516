/** Watching an execution: polls, consecutive duplicates dropped, up to the first terminal result. */
module Observation {
  import opened Wrappers

  /** A JavaScript value as `===` sees it: everything but NaN equals itself; the two zeros are one. */
  datatype Value = NaN | Plain(id: int)

  datatype PeekResult =
    | Pending
    | Success(value: Value)
    | Failure(error: Value)
    | Interrupted
    | Defect(cause: Value)
    | Suspended

  predicate StrictEquals(a: Value, b: Value) {
    a.Plain? && a == b
  }

  predicate Equals(left: PeekResult, right: PeekResult) {
    match (left, right)
    case (Success(a), Success(b)) => StrictEquals(a, b)
    case (Failure(a), Failure(b)) => StrictEquals(a, b)
    case (Defect(a), Defect(b)) => StrictEquals(a, b)
    case (Pending, Pending) => true
    case (Interrupted, Interrupted) => true
    case (Suspended, Suspended) => true
    case _ => false
  }

  predicate IsTerminal(r: PeekResult) {
    !r.Pending? && !r.Suspended?
  }

  /** Results are equal when they are the same result, unless it carries NaN. */
  lemma EqualsAccepts(left: PeekResult, right: PeekResult)
    ensures Equals(left, right) <==>
            left == right && left != Success(NaN) && left != Failure(NaN) && left != Defect(NaN)
  {
  }

  /** Success, failure, interruption and defect end an execution; pending and suspended do not. */
  lemma TerminalTags(value: Value)
    ensures IsTerminal(Success(value)) && IsTerminal(Failure(value)) && IsTerminal(Defect(value))
    ensures IsTerminal(Interrupted) && !IsTerminal(Pending) && !IsTerminal(Suspended)
  {
  }

  /** `Stream.changesWith(equals)` after `last` was emitted. */
  function Changes(last: Option<PeekResult>, polls: seq<PeekResult>): seq<PeekResult>
    decreases polls
  {
    if polls == [] then []
    else if last.Some? && Equals(last.value, polls[0]) then Changes(last, polls[1..])
    else [polls[0]] + Changes(Some(polls[0]), polls[1..])
  }

  /** `Stream.takeUntil(isTerminal)`: the terminal result is the last one taken. */
  function TakeUntilTerminal(results: seq<PeekResult>): seq<PeekResult> {
    if results == [] then []
    else if IsTerminal(results[0]) then [results[0]]
    else [results[0]] + TakeUntilTerminal(results[1..])
  }

  function Watch(polls: seq<PeekResult>): seq<PeekResult> {
    TakeUntilTerminal(Changes(None, polls))
  }

  /** The first poll the filter accepts; `None` while there is none. */
  function WaitFor(polls: seq<PeekResult>, filter: PeekResult -> bool): Option<PeekResult> {
    if polls == [] then None
    else if filter(polls[0]) then Some(polls[0])
    else WaitFor(polls[1..], filter)
  }

  /** The accepted poll is the first one the filter accepts, and none is passed over. */
  lemma {:induction false} WaitForIsFirst(polls: seq<PeekResult>, filter: PeekResult -> bool) returns (i: nat)
    ensures i <= |polls| && forall j :: 0 <= j < i ==> !filter(polls[j])
    ensures WaitFor(polls, filter) == if i < |polls| then Some(polls[i]) else None
    ensures i < |polls| ==> filter(polls[i])
  {
    i := 0;
    if polls != [] && !filter(polls[0]) {
      i := WaitForIsFirst(polls[1..], filter);
      i := i + 1;
    }
  }

  /** The polls that differ from the poll just before them. */
  function Starts(before: Option<PeekResult>, polls: seq<PeekResult>): seq<PeekResult>
    decreases polls
  {
    if polls == [] then []
    else
      (if before.Some? && Equals(before.value, polls[0]) then [] else [polls[0]]) + Starts(Some(polls[0]), polls[1..])
  }

  /** Comparing with the last emission is comparing with the last poll. */
  lemma {:induction false} ChangesAreStarts(last: Option<PeekResult>, before: Option<PeekResult>, polls: seq<PeekResult>)
    requires last == before || (last.Some? && before.Some? && Equals(last.value, before.value))
    ensures Changes(last, polls) == Starts(before, polls)
    decreases polls
  {
    if polls != [] {
      if last.Some? && Equals(last.value, polls[0]) {
        ChangesAreStarts(last, Some(polls[0]), polls[1..]);
      } else {
        ChangesAreStarts(Some(polls[0]), Some(polls[0]), polls[1..]);
      }
    }
  }

  /** Dropping duplicates and stopping commute: a duplicate of a non-terminal result is not terminal. */
  lemma {:induction false} DedupAndStopCommute(last: Option<PeekResult>, polls: seq<PeekResult>)
    requires last.Some? ==> !IsTerminal(last.value)
    ensures TakeUntilTerminal(Changes(last, polls)) == Changes(last, TakeUntilTerminal(polls))
    decreases polls
  {
    if polls == [] {
    } else if last.Some? && Equals(last.value, polls[0]) {
      DedupAndStopCommute(last, polls[1..]);
      assert TakeUntilTerminal(polls)[1..] == TakeUntilTerminal(polls[1..]);
    } else if IsTerminal(polls[0]) {
    } else {
      DedupAndStopCommute(Some(polls[0]), polls[1..]);
      var tail := Changes(Some(polls[0]), polls[1..]);
      assert ([polls[0]] + tail)[1..] == tail;
      assert TakeUntilTerminal(polls)[1..] == TakeUntilTerminal(polls[1..]);
    }
  }

  /** How many polls there are up to and including the first terminal one. */
  function Watched(polls: seq<PeekResult>): (n: nat)
    ensures n <= |polls|
    ensures forall i :: 0 <= i < n - 1 ==> !IsTerminal(polls[i])
    ensures n == |polls| || (n > 0 && IsTerminal(polls[n - 1]))
  {
    if polls == [] then 0
    else if IsTerminal(polls[0]) then 1
    else 1 + Watched(polls[1..])
  }

  lemma {:induction false} TakesThePrefix(polls: seq<PeekResult>)
    ensures TakeUntilTerminal(polls) == polls[..Watched(polls)]
  {
    if polls != [] && !IsTerminal(polls[0]) {
      TakesThePrefix(polls[1..]);
    }
  }

  /**
   * The watch emits exactly the polls, up to the first terminal one, that differ
   * from the poll before them, whichever of dropping and stopping comes first.
   */
  lemma WatchEmits(polls: seq<PeekResult>)
    ensures Watch(polls) == Starts(None, polls[..Watched(polls)])
    ensures Watch(polls) == Changes(None, TakeUntilTerminal(polls))
  {
    DedupAndStopCommute(None, polls);
    TakesThePrefix(polls);
    ChangesAreStarts(None, None, polls[..Watched(polls)]);
  }

  lemma {:induction false} EmittedOnce(last: Option<PeekResult>, polls: seq<PeekResult>)
    ensures var s := Changes(last, polls);
            && (s != [] && last.Some? ==> !Equals(last.value, s[0]))
            && (forall i :: 0 < i < |s| ==> !Equals(s[i - 1], s[i]))
    decreases polls
  {
    if polls == [] {
    } else if last.Some? && Equals(last.value, polls[0]) {
      EmittedOnce(last, polls[1..]);
    } else {
      EmittedOnce(Some(polls[0]), polls[1..]);
      var tail := Changes(Some(polls[0]), polls[1..]);
      var s := [polls[0]] + tail;
      assert forall i :: 0 < i < |s| ==> s[i] == tail[i - 1];
    }
  }

  lemma {:induction false} TakenEnd(results: seq<PeekResult>)
    ensures var s := TakeUntilTerminal(results);
            && s <= results
            && (forall i :: 0 <= i < |s| - 1 ==> !IsTerminal(s[i]))
  {
    if results != [] && !IsTerminal(results[0]) {
      TakenEnd(results[1..]);
      var tail := TakeUntilTerminal(results[1..]);
      assert forall i :: 0 < i < |tail| + 1 ==> ([results[0]] + tail)[i] == tail[i - 1];
    }
  }

  /** No two neighbours are equal, and nothing follows a terminal result. */
  lemma WatchShape(polls: seq<PeekResult>)
    ensures forall i :: 0 < i < |Watch(polls)| ==> !Equals(Watch(polls)[i - 1], Watch(polls)[i])
    ensures forall i :: 0 <= i < |Watch(polls)| - 1 ==> !IsTerminal(Watch(polls)[i])
  {
    EmittedOnce(None, polls);
    TakenEnd(Changes(None, polls));
  }

  lemma {:induction false} TerminalIsKept(last: Option<PeekResult>, polls: seq<PeekResult>)
    requires last.Some? ==> !IsTerminal(last.value)
    ensures var s := TakeUntilTerminal(Changes(last, polls));
            WaitFor(polls, IsTerminal) ==
            if s != [] && IsTerminal(s[|s| - 1]) then Some(s[|s| - 1]) else None
    decreases polls
  {
    if polls == [] {
    } else if last.Some? && Equals(last.value, polls[0]) {
      TerminalIsKept(last, polls[1..]);
    } else if IsTerminal(polls[0]) {
    } else {
      TerminalIsKept(Some(polls[0]), polls[1..]);
      var tail := Changes(Some(polls[0]), polls[1..]);
      assert ([polls[0]] + tail)[1..] == tail;
    }
  }

  /** The watch ends with the first terminal poll, which is what `waitFor` returns, or with none when there is none. */
  lemma WatchEndsWhereWaitForReturns(polls: seq<PeekResult>)
    ensures WaitFor(polls, IsTerminal) ==
            if Watch(polls) != [] && IsTerminal(Watch(polls)[|Watch(polls)| - 1])
            then Some(Watch(polls)[|Watch(polls)| - 1])
            else None
  {
    TerminalIsKept(None, polls);
  }

  /** A poll is emitted if it is the first or differs from the one before. */
  predicate Emitted(polls: seq<PeekResult>, before: Option<PeekResult>, i: nat)
    requires i < |polls|
  {
    if i == 0 then before.None? || !Equals(before.value, polls[0]) else !Equals(polls[i - 1], polls[i])
  }

  function Shifted(places: seq<nat>): (r: seq<nat>)
    ensures |r| == |places| && forall k :: 0 <= k < |r| ==> r[k] == places[k] + 1
  {
    seq(|places|, k requires 0 <= k < |places| => places[k] + 1)
  }

  lemma ShiftedHolds(places: seq<nat>, i: nat)
    ensures i + 1 in Shifted(places) <==> i in places
    ensures 0 !in Shifted(places)
  {
    if i in places {
      var k :| 0 <= k < |places| && places[k] == i;
      assert Shifted(places)[k] == i + 1;
    }
  }

  lemma EmittedLater(polls: seq<PeekResult>, before: Option<PeekResult>, i: nat)
    requires i + 1 < |polls|
    ensures Emitted(polls, before, i + 1) <==> Emitted(polls[1..], Some(polls[0]), i)
  {
  }

  function Places(before: Option<PeekResult>, polls: seq<PeekResult>): seq<nat>
    decreases polls
  {
    if polls == [] then []
    else (if Emitted(polls, before, 0) then [0] else []) + Shifted(Places(Some(polls[0]), polls[1..]))
  }

  lemma {:induction false} PlacesGive(before: Option<PeekResult>, polls: seq<PeekResult>)
    ensures |Places(before, polls)| == |Starts(before, polls)|
    ensures forall k :: 0 <= k < |Places(before, polls)| ==>
              Places(before, polls)[k] < |polls| && polls[Places(before, polls)[k]] == Starts(before, polls)[k]
    decreases polls
  {
    hide Equals;
    if polls != [] {
      PlacesGive(Some(polls[0]), polls[1..]);
    }
  }

  lemma {:induction false} PlacesAscend(before: Option<PeekResult>, polls: seq<PeekResult>)
    ensures forall j, k :: 0 <= j < k < |Places(before, polls)| ==> Places(before, polls)[j] < Places(before, polls)[k]
    decreases polls
  {
    hide Equals, Emitted;
    if polls != [] {
      PlacesAscend(Some(polls[0]), polls[1..]);
    }
  }

  lemma {:induction false} PlacesExact(before: Option<PeekResult>, polls: seq<PeekResult>, i: nat)
    requires i < |polls|
    ensures i in Places(before, polls) <==> Emitted(polls, before, i)
    decreases polls
  {
    hide Equals, Emitted, Shifted;
    var rest := Places(Some(polls[0]), polls[1..]);
    if i > 0 {
      ShiftedHolds(rest, i - 1);
      EmittedLater(polls, before, i - 1);
      PlacesExact(Some(polls[0]), polls[1..], i - 1);
    } else {
      ShiftedHolds(rest, 0);
    }
  }

  /** Place by place: of the polls up to the first terminal one, the first and every change are emitted, in order. */
  lemma WatchByIndex(polls: seq<PeekResult>) returns (places: seq<nat>)
    ensures |places| == |Watch(polls)|
    ensures forall k :: 0 <= k < |places| ==> places[k] < Watched(polls) && polls[places[k]] == Watch(polls)[k]
    ensures forall j, k :: 0 <= j < k < |places| ==> places[j] < places[k]
    ensures forall i: nat :: i < Watched(polls) ==>
              (i in places <==> i == 0 || !Equals(polls[i - 1], polls[i]))
  {
    WatchEmits(polls);
    var watched := polls[..Watched(polls)];
    places := Places(None, watched);
    PlacesGive(None, watched);
    PlacesAscend(None, watched);
    forall i: nat | i < Watched(polls)
      ensures i in places <==> i == 0 || !Equals(polls[i - 1], polls[i])
    {
      PlacesExact(None, watched, i);
      assert Emitted(watched, None, i) <==> i == 0 || !Equals(polls[i - 1], polls[i]);
    }
  }
}
