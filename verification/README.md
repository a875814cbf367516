# effect-encore, verified

A Dafny model of the parts of effect-encore that are hard to get right by
inspection, with proofs of what they promise. `dafny verify dfyconfig.toml`
checks the whole project.

## What is modelled

**Durable compensation** (`CompensationRecords`, `CompensationProtocol`,
`CompensationGuarantees`, `CompensationOperators`, `CompensationReplay`,
`CompensationTermination`, `CompensationEngine`, `DurableNames`). A failed workflow rolls back the steps
that registered an undo, newest first. Every fact lives in a write-once durable
register: step results, the plan, undo results keyed by (step, attempt),
published failures, operator decisions. `CompensationProtocol` is a step machine:
one process that replays handler and rollback from the top, any number of
operators that come at any time and read and write register by register, crashes,
interrupts, in any interleaving. A run is any sequence of actions and every action is a total step,
so a statement over `ExecAll(h, requests, actions)` is a statement over every
reachable state. `CompensationReplay` relates every run to the uninterrupted one,
`CompensationTermination` says when that one ends and that no reachable state is a
dead end, `CompensationOperators` bounds every operator's call, and
`CompensationEngine` is the code itself (the store, the mutable compensation list, the wrapped handler)
with a proof that each call is a run of the protocol.

**Canonical JSON** (`JsonText`, `OwnKeyOrder`, `IndexKeys`, `CanonicalJson`). The exact printer
sorts keys and prints recursively; the fast form rebuilds every object in sorted
order and relies on `JSON.stringify`, which follows JavaScript's own-key order
instead: array-index keys first (section 10.1.11 of ECMA-262). The fast form is
proved equal to the exact one on every value, and the text is proved unambiguous
by a parser that undoes the printer.

**State cell** (`StateCell`, `StateCalls`). Fibers are called and run set, update, updateAndGet, modify and
publish as acquire, read, write, publish and release steps and may be killed at
any of them; publishes without the lock and subscriptions happen in between.
A class with the code's methods is proved against the same one-operation
specification the interleaved runs are proved to linearize to.

**Entity ids, shards, registry, observation, execution ids**
(`PercentEncoding`, `EntityIdCodec`, `Hex`, `Bits`, `ShardHash`, `Separators`,
`ActorStateRegistry`, `Observation`, `ExecId`). Strings are sequences of UTF-16
code units (`Utf16`), lone surrogates included; decimal texts are in `Decimals`,
texts written out and joined in `Texts`.

## What is assumed of the libraries underneath

- A durable deferred is a register: the first write wins, reads see it.
- An activity is execute-and-persist, cached by name and attempt; a crash between
  executing and persisting is a crash before the activity. That no attempt is
  executed twice (`CompensationGuarantees.ExecutesOnce`) is this assumption carried
  over to whole runs.
- A workflow handler is deterministic: it branches on the outcomes of its steps
  and on nothing else.
- The semaphore is mutual exclusion, released when its holder is interrupted; the
  pubsub is an append-only log that replays its last element to a new subscriber.
- A write to the backing store that fails leaves the store as it was.
- `JSON.stringify`, `encodeURIComponent`, `decodeURIComponent`, `Array.prototype.sort`
  and property order are those of ECMA-262.

## What is false, and when it holds

- An entity id round trip fails for the empty tuple, which shares its id with the
  tuple of one empty string; `EntityIdCodec.RoundTrip` and `EncodeInjective` give
  the exact conditions. A text that is decoded and encoded again comes back exactly
  when its segments are canonical (`EntityIdCodec.EncodeUndoesDecode`).
- The registry finds and lists what is registered at an address exactly when neither
  type nor id holds a NUL (`ActorStateRegistry.GetHoldsExactly`, `ListHoldsExactly`).
  Otherwise another address has the same key (`KeyIsUnique`, `TwinSharesKey`), even
  for a type without NUL: `ForeignHandle` finds at ("a", "b\0c") what was registered
  at ("a\0b", "c"). As long as all types are free of NUL, ids may hold what they like
  (`NulFreeTypesAgree`).
- An execution id reads back exactly when entity id and tag hold no NUL; a text is
  the id of what it decodes to exactly when it holds two NULs or more.
- A fiber killed between write and publish leaves the log behind the store
  (`StateCell.KilledWriteIsNotLogged`). `Stale` is the exact condition on the
  history up to values that happen to coincide (`LastLoggedIsStored`, `StaleExactly`).
- The comment on `set` (src/state.ts:158-161) promises writes in invocation order. The
  code orders them by lock acquisition: `StateCalls.SetsOutOfCallOrder` logs two sets
  against the order of their calls. A call can be overtaken by a later one exactly
  while it waits for the lock (`StateCalls.CallOrderHoldsExactly`).
- One-character ids reach every shard exactly up to 65536 shards.
- "Attempts = plan length + retries" fails for a step id that is run twice
  (`CompensationGuarantees.RepeatedStepBreaksTheCount`): it is planned twice and
  undone once. The equation holds exactly when the plan repeats no id
  (`AttemptsAreConserved`); with repeats it is distinct steps + retries
  (`RunEndsWithItsCause`).

## Model

| member | source | states |
|---|---|---|
| CompensationGuarantees.RollbackOrder | src/internal/durable-compensation.ts:373-379 | in every reachable state, an attempt of a plan step exists only if every step before it in the plan has ended: its last attempt succeeded or was stopped and every earlier one failed and was retried |
| CompensationGuarantees.AttemptsAreContiguous | src/internal/durable-compensation.ts:290-344 | attempts start at 1, and attempt n+1 exists only after a published failure and a Retry of every attempt up to n |
| CompensationGuarantees.OnePending | src/internal/durable-compensation.ts:93-158 | in every reachable state at most one attempt is failed and undecided, and the pending reading of a suspended run names k if and only if k is that attempt |
| CompensationGuarantees.PendingMovesForward | src/internal/durable-compensation.ts:120-158 | what one run reports as pending never moves back, first by plan position and then by attempt |
| CompensationGuarantees.WalkLinearizes | src/internal/durable-compensation.ts:93-158 | the register-by-register walk of an operator answers what an atomic reading answered at some instant during that call, whatever ran in between |
| CompensationGuarantees.OperatorsAgree | src/internal/durable-compensation.ts:160-266 | every accepted call has the register's decision, a conflict that carries a decision carries the register's and it differs from the caller's, no Retry and Stop of one attempt are both accepted |
| CompensationGuarantees.NotPendingIsHonest | src/internal/durable-compensation.ts:215-227 | a not-pending reply to a suspended run means that nothing was pending at some instant of that call, and a call for one attempt also read that attempt as undecided |
| CompensationOperators.CallReplies | src/internal/durable-compensation.ts:160-266 | however it is interleaved, a call that commits replies within three turns of its own, and one that walks within a bound set by plan and decisions |
| CompensationOperators.CallIsBounded | src/internal/durable-compensation.ts:93-266 | a whole call replies within six turns of its own plus, for each step of the plan, two and two for each decision |
| CompensationOperators.UndisturbedCall | src/internal/durable-compensation.ts:200-266 | a call nobody interferes with comes, register by register, to the records and the reply of the code run alone |
| CompensationGuarantees.DecisionsAreFinal | src/internal/durable-compensation.ts:160-198 | a decision is only ever recorded for an attempt whose failure is recorded, and no later action of any run changes it |
| CompensationGuarantees.PlanReversesRegistration | src/internal/durable-compensation.ts:346-379 | the published plan is the exact reverse of the registration order and holds exactly the steps that have an undo and completed, wherever the handler fails |
| CompensationGuarantees.ExecutesOnce | src/internal/durable-compensation.ts:313-321 | the assumed caching of activities, carried over to whole runs: across crashes and replays no (step, attempt) is executed and persisted twice |
| CompensationGuarantees.RunEndsWithItsCause | src/internal/workflow-actor.ts:525-534 | a completed run exits with the handler's own exit; a rolled-back one has every planned step ended and as many executions as distinct steps plus retries; success or interrupts only start no compensation |
| CompensationGuarantees.RollbackStartsExactly | src/internal/workflow-actor.ts:529-531 | a failed run was rolled back if and only if its cause holds a failure or a defect, whatever interrupts it holds besides |
| CompensationGuarantees.AttemptsAreConserved | src/internal/durable-compensation.ts:321-343 | the number of executed attempts is plan length plus Retry decisions if and only if the plan repeats no step id |
| CompensationGuarantees.RepeatedStepBreaksTheCount | src/internal/durable-compensation.ts:346-379 | a step id run twice is planned twice and undone once |
| CompensationGuarantees.RegistersUndoable | src/step.ts:364-420 | replaying a handler registers exactly the steps with an undo that completed, in order, for every argument shape |
| CompensationProtocol.EveryRun | src/internal/durable-compensation.ts:268-382 | the invariant (records coherent, process on the handler's path, operators sound, executions unique) holds after every sequence of actions |
| CompensationProtocol.StepKeepsInv | src/internal/durable-compensation.ts:268-382 | each single action keeps the invariant and only adds to the records |
| CompensationRecords.PendingCompensationExact | src/internal/durable-compensation.ts:120-158 | on coherent records the reading is sound and complete for undecided failures |
| CompensationRecords.PendingForStepReadsStatus | src/internal/durable-compensation.ts:93-117 | the recursive walk over attempts finds exactly the attempt the step waits at, and terminates |
| CompensationRecords.NothingPendingUnlessSuspended | src/internal/durable-compensation.ts:133-138 | a run that has not started or is complete has nothing pending |
| CompensationRecords.AttemptWindow | src/internal/durable-compensation.ts:290-344 | the recorded attempts of a step are exactly 1..n for the n its status names |
| CompensationRecords.AttemptsConserved | src/internal/durable-compensation.ts:321-343 | once every planned step is settled, attempts are distinct steps plus retries |
| CompensationReplay.CrashTransparency | src/internal/durable-compensation.ts:290-379 | under fixed step outcomes, undo outcomes and decisions, every run's records are those of the uninterrupted run at some point, and if it completes so does the uninterrupted run, with the same records and exit |
| CompensationReplay.CompletedRunsAgree | src/internal/durable-compensation.ts:290-379 | two runs that complete under the same outcomes and decisions leave the same plan, activity, failure and decision records and the same exit |
| CompensationReplay.RunsNeverDiverge | src/internal/durable-compensation.ts:290-379 | of two runs under the same outcomes and decisions, at any points, the records of one extend the other's |
| CompensationReplay.SoloProgresses | src/internal/durable-compensation.ts:290-379 | from any point of the uninterrupted run the next due register gets written or the run exits |
| CompensationTermination.RunEnds | src/internal/durable-compensation.ts:321-343 | the uninterrupted run ends if and only if nothing is rolled back or every registered step has an attempt that succeeds or is stopped, and then with the handler's own exit |
| CompensationTermination.EveryRunCanFinish | src/internal/durable-compensation.ts:290-379 | from every reachable state without a result some continuation completes with the handler's own exit, so neither crashes nor waits are dead ends |
| CompensationTermination.CanFinishExactly | src/internal/durable-compensation.ts:321-343 | a run can be continued to completion if and only if nothing is rolled back or every registered step has an attempt that succeeds or is stopped |
| CompensationTermination.CompletionIsFate | src/internal/workflow-actor.ts:525-534 | whatever happened on the way, a completed run has the exit the handler has under the recorded outcomes |
| CompensationEngine.Engine.ExecuteUndo | src/internal/durable-compensation.ts:313-321 | executes and persists, or answers with the persisted result and changes nothing |
| CompensationEngine.Engine.CommitDecision | src/internal/durable-compensation.ts:160-198 | the register keeps its first decision, and the reply accepts exactly a caller that agrees with it |
| CompensationEngine.Engine.DecideCompensation | src/internal/durable-compensation.ts:200-240 | the undisturbed call: writes exactly when it names the pending attempt; otherwise nothing changes and the reply is the conflict, the confirmation or the not-pending error the registers call for |
| CompensationEngine.Engine.DecidePendingCompensation | src/internal/durable-compensation.ts:242-266 | the undisturbed call: decides the pending attempt, or fails without writing |
| CompensationEngine.DurableCompensation.Add | src/internal/durable-compensation.ts:346-371 | the undo is registered exactly when the step's activity completed |
| CompensationEngine.DurableCompensation.Run | src/internal/durable-compensation.ts:290-344 | every new record is what the undo came to, every failure is published, and the step is settled if the call says so and otherwise waits for a decision; tied to the protocol by its replay specification |
| CompensationEngine.DurableCompensation.Compensate | src/internal/durable-compensation.ts:373-379 | publishes the reversed list once and settles its steps in order up to the first that waits, trying none behind it; every new record is what the undo came to |
| CompensationEngine.Execute | src/internal/workflow-actor.ts:525-534 | one call records what steps and undos came to and publishes a plan if and only if the cause holds a failure or a defect; without an exit it waits in a rollback |
| CompensationEngine.WorkflowPassMeans | src/internal/workflow-actor.ts:525-534 | a replay exits with the handler's own exit; with a failure or defect in the cause it works through the completed undoable steps newest first, and otherwise leaves plan and attempts alone |
| CompensationEngine.StepPassMeans | src/internal/durable-compensation.ts:290-344 | the replay of one step ends it settled or leaves it waiting with its failure published, and records what its own undo came to and nothing else |
| CompensationEngine.OutcomePicksTheBranch | src/step.ts:364-420 | a handler goes on from a step by the outcome the step had |
| CompensationEngine.ReplayIsARun | src/internal/workflow-actor.ts:525-534 | from any idle world, what one call of the code does is reached by a start and turns of the process alone, each with the outcome its step or undo has, so every guarantee above holds of the code |
| DurableNames.NamesNeverCollide | src/internal/durable-compensation.ts:36-70 | two register names are equal if and only if kind, id and attempt are, for arbitrary ids; no name equals the literal plan name |
| DurableNames.TupleInjective | src/step.ts:302-304 | the tuples behind the names, signals included, determine kind, id and attempt |
| DurableNames.NameTexts | src/internal/durable-compensation.ts:36-70 | the text of every name, kind by kind: the JSON tuple with its literal, the quoted id and the attempt in decimal |
| CanonicalJson.CanonicalJsonString | src/canonical-json.ts:119-130 | whichever of its exits it takes, the fast form prints the canonical text, which is the value with its keys in ascending code-unit order at every depth, and fails exactly when some leaf is a non-finite number |
| CanonicalJson.CanonicalJsonStringExact | src/canonical-json.ts:34-56 | the exact printer prints the same text, keys in ascending code-unit order at every depth, and fails exactly on a non-finite leaf |
| CanonicalJson.SortedIsTheValueInOrder | src/canonical-json.ts:47-56 | the value that is printed is the value given but for the order of members, and in every object of it the keys ascend by UTF-16 code units |
| CanonicalJson.FailsOnNonFiniteLeaf | src/canonical-json.ts:18-21 | a value has a canonical text if and only if none of its leaves is a non-finite number |
| OwnKeyOrder.LessIsCodeUnitOrder | src/canonical-json.ts:48 | one key sorts before another if and only if it is a proper prefix or has the smaller code unit at the first difference |
| CanonicalJson.ExactObject | src/canonical-json.ts:47-56 | the member loop prints the sorted members, commas and all |
| CanonicalJson.HasNativeKeyOrderConflict | src/canonical-json.ts:63-78 | true if and only if the sorted keys are not in own-key order |
| CanonicalJson.OrderJsonObject | src/canonical-json.ts:84-116 | rebuilds the value with own-key order taken into account; the flag ends set if and only if it was set or some object anywhere in the tree has a conflict |
| CanonicalJson.OrderEntries | src/canonical-json.ts:91-105 | every member survives the rebuild, `__proto__` included, and fails exactly on a non-finite leaf below |
| CanonicalJson.KeysDiffer | src/canonical-json.ts:106-113 | the comparison loop finds a difference if and only if there is one |
| CanonicalJson.OrderedSortsTheSame | src/canonical-json.ts:84-130 | the rebuilt value is a value with the same sorted form and the same failures, so the third exit may print it instead of the original |
| CanonicalJson.OrderedWithoutConflict | src/canonical-json.ts:124-130 | without a conflict anywhere the rebuilt value is the sorted value, so native encoding is canonical |
| CanonicalJson.CanonicalTextUnambiguous | src/canonical-json.ts:118-130 | two values have the same canonical text if and only if they are equal up to member order and the sign of zero |
| CanonicalJson.CanonicalTextParses | src/canonical-json.ts:118-130 | a parser reads the canonical text back as the value's normal form, whatever text follows |
| OwnKeyOrder.InsertionOrderKept | src/canonical-json.ts:63-116 | inserting distinct keys in some order gives that own-key order if and only if the order is native |
| OwnKeyOrder.BuildMembers | src/canonical-json.ts:91-105 | building an object by insertion keeps every member once and puts the keys in own-key order |
| OwnKeyOrder.ArrayIndexKeys | src/canonical-json.ts:58-61 | a key is an array index if and only if it is the decimal text of a number below 2^32 - 1 |
| IndexKeys.IndexKeysByShape | src/canonical-json.ts:58-61 | a key is an array index if and only if it is digits without a leading zero, below "4294967295" by length and digits |
| IndexKeys.PrecedesByShape | src/canonical-json.ts:63-78 | own-key order puts index keys first, shorter before longer and by digits within one length |
| IndexKeys.TenBeforeNine | src/canonical-json.ts:63-78 | the keys "9" and "10" conflict: code units put "10" first and own-key order "9" |
| IndexKeys.BuildKeepsInsertionOrder | src/canonical-json.ts:91-105 | building an object keeps its non-index keys in insertion order, behind the index keys |
| OwnKeyOrder.AssignmentLosesProto | src/canonical-json.ts:94-103 | plain assignment would lose a `__proto__` member, defining it keeps it |
| JsonText.ParserUndoesPrinter | src/canonical-json.ts:12-56 | the parser undoes the printer on every value, string escapes and surrogates included, with any text behind it |
| JsonText.StringifyInjective | src/canonical-json.ts:124-130 | values that print the same are the same |
| JsonText.StringifyForms | src/canonical-json.ts:12-56 | every kind of value as it is printed: literals, quoted strings, items and members between commas, keys before colons |
| JsonText.QuoteUnits | src/canonical-json.ts:24-27 | every code unit as it is written in a string: short escapes, lower-case \u escapes for controls and lone surrogates, all else as it is |
| StateCell.Linearizable | src/state.ts:162-227 | for every interleaving, kills included, a free lock means the cell is what the operations leave when run one at a time in lock order, and every returned answer is the operation's answer at its place |
| StateCalls.RealTimeOrder | src/state.ts:162-227 | an operation that returned before another was called comes before it in lock order, on every continuation |
| StateCalls.CallOrderHoldsExactly | src/state.ts:158-167 | once one call is made and another not yet, the later one can take effect first if and only if the earlier still waits for the lock |
| StateCalls.SetsOutOfCallOrder | src/state.ts:158-167 | two sets can be logged against the order of their calls |
| StateCell.GetSeesACommittedValue | src/state.ts:156 | a read without the lock sees the store after the history, or after the one operation in flight |
| StateCell.EveryUpdateLands | src/state.ts:174-182 | at every point of every run of update fibers the function has been applied once for each write that went through |
| StateCell.AllUpdatesLand | src/state.ts:174-182 | when all update fibers have returned, none of the updates is lost |
| StateCell.ChangeLog | src/state.ts:248-288 | the log is the initial value followed by exactly the completed writes and the publishes, in lock order |
| StateCell.LastLoggedIsStored | src/state.ts:287-288 | with the lock free the last logged value is the stored one, unless a publish or a write killed before its publish came last |
| StateCell.StaleExactly | src/state.ts:248-288 | log and store end in step for all values written and published if and only if the history is not stale |
| StateCell.KilledWriteIsNotLogged | src/state.ts:287-288 | killing a fiber between write and publish leaves store and log apart |
| StateCell.SubscriberSeesTheSuffix | src/state.ts:139-146 | a subscriber that joins at any point receives the log from its then-last element on, and nothing else |
| StateCell.StepKeepsInv | src/state.ts:162-288 | every step of every fiber keeps the invariant from which linearizability follows |
| StateCell.State.constructor | src/state.ts:135-151 | a new cell holds the initial value and has logged it |
| StateCell.State.CommitValue | src/state.ts:287-288 | writes and publishes both, or neither |
| StateCell.State.Set | src/state.ts:162-167 | stores and logs the value, or on a failed write changes nothing |
| StateCell.State.Update | src/state.ts:174-182 | stores and logs f of the stored value, or on a failed read or write changes nothing and says which |
| StateCell.State.UpdateAndGet | src/state.ts:188-199 | the same, and answers the value it stored |
| StateCell.State.Modify | src/state.ts:206-227 | stores and logs the second component of g of the stored value and answers the first, or changes nothing and says which failed |
| StateCell.State.Publish | src/state.ts:248-253 | extends the log and leaves the store |
| StateCell.AnswersAreComputedInPlace | src/state.ts:162-227 | every returned answer is computed from the store as it stood at the operation's place in lock order, and store and log right after it hold what the answer says |
| StateCell.HistoryHappened | src/state.ts:162-288 | every place of a history changed store and log as its operation and fate say, kills between write and publish included |
| StateCell.ReturnedValuesWereLogged | src/state.ts:188-227 | the write behind every returned value is in the log ever after |
| EntityIdCodec.RoundTrip | src/entity-id-codec.ts:44-62 | an id exists if and only if every component is well-formed UTF-16, and it decodes to the tuple if and only if the tuple is not empty |
| EntityIdCodec.EncodeInjective | src/entity-id-codec.ts:1-9 | two tuples share an id only when they are equal, the empty tuple and the tuple of one empty string excepted |
| EntityIdCodec.EncodeUndoesDecode | src/entity-id-codec.ts:44-62 | a text is the id of what it decodes to if and only if every segment is canonical: unreserved characters and upper-case escapes of what needs escaping |
| EntityIdCodec.DocumentedId | src/entity-id-codec.ts:16-19 | the documented tuple has the documented id |
| EntityIdCodec.FirstMalformed | src/entity-id-codec.ts:51-60 | decoding fails with the first segment that is malformed |
| EntityIdCodec.SplitUndoesJoin | src/entity-id-codec.ts:44-49 | splitting undoes joining for parts free of colons |
| EntityIdCodec.PartsRoundTrip | src/entity-id-codec.ts:10-13 | no encoded part contains a colon, and parts decode one by one to the components |
| PercentEncoding.ComponentRoundTrip | src/entity-id-codec.ts:44-53 | `decodeURIComponent` undoes `encodeURIComponent` through UTF-8 and percent-hex |
| PercentEncoding.CanonicalExactly | src/entity-id-codec.ts:46-53 | decoding and encoding again gives a segment back if and only if it is canonical |
| PercentEncoding.EncodesWellFormed | src/entity-id-codec.ts:46-47 | `encodeURIComponent` throws exactly on a lone surrogate |
| PercentEncoding.Utf8Exact | src/entity-id-codec.ts:52-53 | a byte sequence decodes to a code point if and only if it is that code point's UTF-8 form: overlong forms and surrogates are rejected |
| PercentEncoding.PlainTextStays | src/entity-id-codec.ts:17-19 | a component is its own encoding if and only if all of it is unreserved |
| PercentEncoding.AsciiEncoding | src/entity-id-codec.ts:47 | every ASCII unit is left alone if it is a letter, a digit or one of - _ . ! ~ * ' ( ), and otherwise reads %XX in upper case |
| PercentEncoding.StandardExamples | src/entity-id-codec.ts:47 | the UTF-8 forms of the examples of section 7 of RFC 3629 |
| PercentEncoding.EscapedExactly | src/entity-id-codec.ts:52-53 | escapes decode if and only if they spell, in either case, the UTF-8 form of a code point |
| ShardHash.HashString | src/actor-address-resolver.ts:76-84 | for every string the loop computes djb2 on wrapping 32-bit words over all characters, read as signed and folded to 31 bits |
| ShardHash.LastCharacterFirst | src/actor-address-resolver.ts:77-82 | djb2 starts from 5381 and takes the characters from last to first, times 33 and exclusive-or each time |
| ShardHash.EveryCharacterCounts | src/actor-address-resolver.ts:76-84 | changing one character of an id, wherever it stands, always changes its hash |
| ShardHash.ShardFromDjb2 | src/actor-address-resolver.ts:86-93 | the shard is the magnitude of that hash modulo the number of shards, plus one |
| ShardHash.NearestIsNear | src/actor-address-resolver.ts:81 | the double a product becomes is the nearest one with 53 significant bits, ties to even |
| ShardHash.DoublesAgreeWithWords | src/actor-address-resolver.ts:77-82 | for every string every product in the loop is below 2^53 in magnitude, so double arithmetic never rounds and agrees with djb2 on wrapping 32-bit words |
| Bits.BitwiseAt | src/actor-address-resolver.ts:74-81 | the bit operators act bit by bit |
| ShardHash.HashOptimizeFolds | src/actor-address-resolver.ts:74 | the bit operations keep sign and low 30 bits: 31-bit two's complement |
| ShardHash.Bounds | src/actor-address-resolver.ts:86-93 | the folded hash lies in [-2^30, 2^30) and the shard in 1..n for every n of at least 1 |
| ShardHash.OneCharacterIdsReachEveryShard | src/actor-address-resolver.ts:86-93 | one-character ids reach all of 1..n if and only if n is at most 65536 |
| ActorStateRegistry.GetHoldsExactly | src/actor-state.ts:67-95 | over every history `get` answers the handle last registered at that very address and not deregistered since, if and only if neither type nor id holds a NUL |
| ActorStateRegistry.ListHoldsExactly | src/actor-state.ts:67-104 | over every history `list` holds an id of a type once when it is live there and not at all otherwise, if and only if neither type nor id holds a NUL |
| ActorStateRegistry.NulFreeTypesAgree | src/actor-state.ts:67-104 | in a history whose types are all NUL-free, `get` and `list` are right at every NUL-free type, whatever the ids |
| ActorStateRegistry.ForeignHandle | src/actor-state.ts:228-229 | a handle registered at ("a\0b", "c") is found and listed at ("a", "b\0c"), where nothing was registered |
| ActorStateRegistry.GetFindsTheLatest | src/actor-state.ts:67-95 | read by key and for every history: a lookup finds a handle if and only if its registration is the latest under that key and has not been deregistered since |
| ActorStateRegistry.SupersededFinalizerIsIdle | src/actor-state.ts:73-80 | deregistering a handle that is not live under its key changes nothing |
| ActorStateRegistry.HandlesNeverResurface | src/actor-state.ts:67-80 | a handle that is gone from a key stays gone until it is registered there again |
| ActorStateRegistry.ListIsExact | src/actor-state.ts:96-104 | read by key and for every history: a NUL-free type lists each id with a live key exactly once and no other; any other type lists nothing |
| ActorStateRegistry.EntriesAreInOrder | src/actor-state.ts:67-104 | the map holds its live keys in the order in which they became live: setting a known key keeps its place |
| ActorStateRegistry.ListedOne | src/actor-state.ts:96-104 | an entry is listed under its own type, by its id, and under no other |
| ActorStateRegistry.ListedAppends | src/actor-state.ts:96-104 | the list takes the entries as they come |
| ActorStateRegistry.KeyReadsBack | src/actor-state.ts:228-242 | a key reads back if and only if the entity type holds no NUL |
| ActorStateRegistry.KeyIsUnique | src/actor-state.ts:228-229 | an address has its key to itself if and only if neither type nor id holds a NUL |
| ActorStateRegistry.Registry.Register | src/actor-state.ts:67-72 | the map becomes the map of the history extended by the registration |
| ActorStateRegistry.Registry.Deregister | src/actor-state.ts:73-80 | the map becomes the map of the history extended by the deregistration |
| ActorStateRegistry.Registry.Get | src/actor-state.ts:81-95 | answers exactly the handle live under the key, and so at the address itself when it is clean or all types are NUL-free; fails when there is none |
| ActorStateRegistry.Registry.List | src/actor-state.ts:96-104 | each id with a live key of a NUL-free type once, which is each id live at its address when that is clean or all types are NUL-free |
| Observation.WatchEmits | src/internal/execution-observation.ts:24-32 | the watch emits exactly the polls, up to the first terminal one, that differ from the poll before, so dropping duplicates and stopping commute |
| Observation.WatchByIndex | src/internal/execution-observation.ts:24-32 | place by place: of the polls up to the first terminal one, the first and every change are emitted, in order |
| Observation.EqualsAccepts | src/internal/execution-observation.ts:15-21 | results are equal if and only if they are the same result and carry no NaN |
| Observation.TerminalTags | src/receipt.ts:113-114 | success, failure, defect and interruption are terminal, pending and suspended are not |
| Observation.WatchShape | src/internal/execution-observation.ts:24-32 | no two neighbours are equal and nothing follows a terminal result |
| Observation.WatchEndsWhereWaitForReturns | src/internal/execution-observation.ts:24-52 | the first terminal poll is never dropped: it ends the watch and is what `waitFor` returns |
| Observation.WaitForIsFirst | src/internal/execution-observation.ts:37-52 | `waitFor` returns the first poll its filter accepts |
| ExecId.DecodeUndoesEncode | src/receipt.ts:40-65 | decoding undoes encoding if and only if entity id and tag hold no NUL |
| ExecId.DecodeForms | src/receipt.ts:44-65 | a text without a NUL decodes to itself three times, one with a single NUL is split there and is its own primary key, any other is split at the first two |
| ExecId.EncodeUndoesDecode | src/receipt.ts:44-65 | encoding undoes decoding if and only if the text holds at least two NULs |
| ExecId.EncodeInjective | src/receipt.ts:20-29 | executions with NUL-free entity id and tag share an id only when they are the same |

## Left out

- Internals of the durable engine, activities, deferreds, semaphore and pubsub: taken as listed under the assumptions above.
- A crash in the middle of an undo's side effect: the claims are about persisted results, not physical executions.
- Interrupted undo attempts: an interrupt ends the run without publishing a failure; how interrupts are persisted upstream is not part of this model.
- Steps run concurrently inside one handler, `step.race`, `step.sleep` and waiting for signals: a handler is a tree of steps run one after the other.
- The values steps return and undos receive, and the retry policy of a step: a step has one recorded outcome.
- A step id that equals an encoded internal tuple shares the activity namespace with it; README.md of the repository forbids such ids (README.md:306-307), and the model keeps forward steps and undos apart.
- The wait of 10 ms between reads after a decision is written: the confirming read simply happens when the operator next moves.
- CompensationEngine.Engine.DecideCompensation: is the undisturbed call; calls that interleave register by register are the operators of CompensationProtocol, and CompensationOperators.UndisturbedCall ties the two together.
- CompensationEngine.Engine.DecidePendingCompensation: is the undisturbed call, likewise.
- ActorStateRegistry.GetFindsTheLatest: is read by key, which is what holds of every address; GetHoldsExactly reads it by address.
- ActorStateRegistry.ListIsExact: is read by key; ListHoldsExactly reads it by address.
- Fairness of the lock: which of several waiting fibers gets it is left open.
- Attempt numbers from 10^21 on, which `String` would print with an exponent.
- Floating-point printing: a finite number is represented by the text `Number::toString` gives it, and texts of distinct numbers are distinct.
- `Number(key)` for keys that are not decimal texts: no such key prints back as itself from an index.
- `undefined` members, which the type of a JSON value rules out, and toJSON, cycles and stack depth.
- `canonicalJsonSha256`, which hashes the text.
- Writers of a state's backing store other than the state itself, and `make` when its first read fails.
- Read-only states, and the stream and reference wrappers around a state.
- Entity id tuples with components other than strings, and the schema check of the decoded tuple.
- Shard counts that are not positive integers, and parity with the upstream shard function, which is not in the repository.
- The rejection of the whole polling effect, schedules and intervals in `watch` and `waitFor`: polls are an arbitrary sequence.
- Client, mailbox, sender, storage, layer assembly and the invocation compiler: wiring over upstream services.
- Exit classification beyond `isTerminal`, reserved names, observability and benchmarks: single-branch facts.
