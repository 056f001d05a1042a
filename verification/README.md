# swarm-emotions: a verified model

A Dafny 4.11 model of the stateful and algorithmic cores of the swarm-emotions system: the Go orchestrator (agent lock,
circuit breaker, memory store, caches, goals, event stream), the Rust emotion engine (emotion dynamics, emotional state
machine, promotion, ranking) and the Python classifier. `dafny verify dfyconfig.toml` checks the whole project.

| file | what it models |
|---|---|
| `AgentLock.dfy` | the per-agent Redis lock and the read-modify-write it protects, as a step machine over many processes and runs |
| `LockLimits.dfy` | the executions in which the lock loses an update, and exactly which assumptions rule them out |
| `AgentLockClient.dfy` | the cache client's lock operations with their retry loops, proved to be steps of that machine |
| `CircuitBreaker.dfy` | the closed / open / half-open breaker, and its overlapping calls as a step machine |
| `EmotionDynamics.dfy`, `Vectors.dfy` | decay, susceptibility matrix, clamp, and runs of turns, over exact reals in any dimension |
| `MemoryStore.dfy`, `MemoryGc.dfy`, `MemoryLifecycle.dfy`, `TurnIdentity.dfy` | the in-memory vector store, batched garbage collection, promotion, runs of all of them, and the identifiers of stored turns |
| `EmotionalFsm.dfy`, `EnterableStates.dfy` | rule table, breadth-first validation, constrained transitions, and the states that runs can enter |
| `Sse.dfy`, `SseBlocks.dfy` | the server-sent-event writer, the browser's incremental reader, and what it makes of any block of fields |
| `WorkingMemory.dfy` | the working-memory window of the cache and of the Redis script |
| `Ranking.dfy`, `Classifier.dfy` | score fusion, emotion classification |
| `Goals.dfy`, `GoalStability.dfy` | goal reprioritisation, and when its outcome is determined and stable |
| `StableSorting.dfy`, `Places.dfy`, `TopN.dfy`, `TopTies.dfy`, `Selections.dfy`, `FiniteSets.dfy`, `Text.dfy`, `Wrappers.dfy` | sorting, first-n selection and its ties, selections of lists, finite sets, white space, options and results |

## How it is modelled

* A Redis command, a Redis script and a mutex-guarded body are one atomic step. A command may be executed with its reply
  lost, never be executed, or be executed after its caller gave up on it.
* Objects that the source updates in place are classes, proved against functions of their old contents. Go map iteration,
  unstable sorts and the completion order of futures are left open: what is proved holds for every order.
* `f32` is `real`; `exp(-lambda t)` is any factor in (0, 1]; a norm is a non-negative number with the right square. SHA-1,
  random tokens, JSON and the language model are parameters or fresh values.
* Clock readings are parameters. The circuit breaker reads its clock before it takes its mutex, so a reading may be stale
  when it is used; the model keeps the two apart.

## Findings

Where the code does not meet a property on all inputs, the exact condition is proved beside it.

* The lock serialises its runs exactly if every critical section, counted from when its lease was taken, is shorter than
  the lease and no state write outlives its section (`LockLimits.SerialExactly`). When a section overruns, the run that
  got the lock next can lose its update, whichever process it belongs to (`LockLimits.OverrunLosesUpdate`); a sibling of
  the same process can also lose its live lease, because the process keeps one token per agent
  (`LockLimits.OverrunBreaksIsolation`). Leases of other processes stay safe without any timing assumption
  (`AgentLock.OnlyOwnProcessReleases`). When Redis executes a write after its run gave up on it and released the lock, the
  next run loses its update, however short the sections (`LockLimits.LateWriteBreaksOrder`).
* A garbage-collection pass with a batch size above 1000 stops after its first batch, the store having cut it to 1000
  (`MemoryGc.PassIsFilter`). Deletion goes by point identifier, so a memory worth keeping disappears if it shares one with
  a stale memory (`MemoryGc.GcIsFilter`). A cutoff of exactly zero is refused and nothing is collected.
* Two intense turns of one agent in one millisecond have one memory identifier; the second replaces the first and can
  take a level-3 memory back to level 2 (`MemoryLifecycle.SecondTurnInMillisecond`). Over a whole history level 3 is kept
  for good exactly if no turn is stored under the identifier of a memory that is at level 3 then
  (`TurnIdentity.TopStaysExactly`).
* Table validation ignores the constraints: a table can be sound although no run ever leaves Neutral
  (`EnterableStates.CircleCutOff`). A run enters a state exactly if moves that are not forbidden lead there and their dwell
  times fit into 64-bit time (`EnterableStates.EnterableExactly`).
* The event reader trims data and dispatches an unfinished event at the end of the stream, which section 9.2.6 of the
  WHATWG HTML Standard does not do (`Sse.UnfinishedEventDispatched`). A stream cut off anywhere gives the events whose
  frames are complete, and one more exactly if nothing but the newline of its blank line is missing
  (`Sse.CutOffExactly`). An event survives framing and reading exactly if its name and its data are each one
  trimmed line (`Sse.CarriedExactly`).
* A current goal that repeats a built-in description and priority under an identifier of its own makes the iteration
  order of the map visible in the outcome, and running again can change the goals (`GoalStability.RepeatedDescription`).
  The outcome is determined exactly if no tie in priority and description comes among the first four
  (`GoalStability.OrderIndependentExactly`). Running again changes nothing exactly if no two tied goals fit among the first
  four together and every built-in goal that may be cut off has four goals before its built-in form
  (`GoalStability.IdempotentExactly`).
* In heuristic mode a batch gives blank text confidence 0.55, classifying it alone gives 0.0
  (`Classifier.HeuristicBatchExactly`).

## Model

| member | source | states |
|---|---|---|
| AgentLock.Serialisable | orchestrator/internal/pipeline/orchestrator.go:220-275 | for any number of processes and runs, any interleaving, expiry, lost or late command: if no critical section outlives its lease and no write its critical section, at most one run is inside, the stored state is the fold of the writing runs in the order they got the lock, and a first write starts from the state stored at that moment |
| AgentLock.InvStep | orchestrator/internal/pipeline/orchestrator.go:366-393 | every step of the protocol keeps the joint invariant of leases, noted tokens, lock order and stored state |
| AgentLock.SaveIsSerial | orchestrator/internal/connector/cache/client.go:139-160 | the state a run writes, at first, retried or late, is the serial outcome with that run last |
| AgentLock.ReleaseTakesOwnToken | orchestrator/internal/connector/cache/client.go:240-262 | within the lease times a release takes the token its own run drew out of the map its process shares |
| AgentLock.OnlyOwnProcessReleases | orchestrator/internal/connector/cache/client.go:26-31 | with no assumption on time, a live lease is only ever removed by a release of the process whose run drew its token, and nothing replaces it |
| LockLimits.SerialExactly | orchestrator/internal/connector/cache/client.go:139-262 | for runs to which it matters whether they see each other's update: in every execution with sections up to some length, writes prompt or not, every stored state is the fold of the writing runs iff that length is below the lease time and writes are prompt |
| LockLimits.OverrunLosesUpdate | orchestrator/internal/connector/cache/client.go:139-160 | for every effect and every two runs, of one process or two, there is an execution in which an overrun overwrites the update of the run whose lease is live |
| LockLimits.OverrunBreaksIsolation | orchestrator/internal/connector/cache/client.go:232-262 | for two runs of one process it also deletes the live lease of the second |
| LockLimits.LateWriteBreaksOrder | orchestrator/internal/connector/cache/client.go:151-155 | for every effect and every two runs there is an execution, with sections as short as one likes, in which a write executed late overwrites the update of the next run |
| LockLimits.WriteUnanswered | orchestrator/internal/connector/cache/client.go:139-160 | a write whose reply is lost has changed the state and is repeated |
| LockLimits.LateSetNxBlocks | orchestrator/internal/connector/cache/client.go:223-227 | a SETNX executed after its run gave up takes the lock for nobody for a whole lease |
| LockLimits.LateDeleteFrees | orchestrator/internal/connector/cache/client.go:245-249 | a release script executed after its run gave up still frees that run's lock |
| AgentLockClient.CacheClient.AcquireAgentLock | orchestrator/internal/connector/cache/client.go:214-238 | whatever time, Redis and other runs do around its attempts, the call is a sequence of steps of the lock machine, which it returns, that leaves its run inside with its own token noted, waiting, or finished, as the answer says; undisturbed, it is told yes exactly if the key was free and the attempt that took it was answered, and a lost reply leaves the lease in place with the caller told no; the lease then ends the time asked for, or 2000 ms if none was, after now; a caller already cancelled changes nothing, and one that gives up after an attempt makes no other |
| AgentLockClient.CacheClient.ConsumeLockToken | orchestrator/internal/connector/cache/client.go:256-262 | gives the noted token once and forgets it |
| AgentLockClient.CacheClient.ReleaseAgentLock | orchestrator/internal/connector/cache/client.go:240-254 | whatever happens around its attempts, the call is a sequence of steps of the lock machine, which it returns; undisturbed, the key goes away exactly if the script ran at least once and the live key held the noted token, however often it is retried |
| AgentLockClient.CacheClient.OwnTokenIsNoted | orchestrator/internal/connector/cache/client.go:240-262 | at the end of an execution within the lease times, the token a release is about to take is its own run's |
| AgentLockClient.StaysInMachine | orchestrator/internal/resilience/retry.go:62-94 | the steps of a call prolong any execution they start from, and keep it within lease times and writing promptly if they do so themselves |
| AgentLockClient.SerialAfterCall | orchestrator/internal/pipeline/orchestrator.go:366-393 | after a call with such steps in such an execution at most one run is inside, the stored state is the fold of the writing runs in lock order, and a first write starts from it |
| CircuitBreaker.CircuitBreakerClient.BeforeCall | orchestrator/internal/connector/emotion/circuit_breaker.go:159-181 | admitted exactly if closed, or open with the reading at or past the end of the timeout, or half-open with no probe marked; not being admitted changes nothing |
| CircuitBreaker.AdmittedExactly | orchestrator/internal/connector/emotion/circuit_breaker.go:159-181 | over executions, told from the events and the time a call read: a call is let through always while closed, as a probe once a timeout has passed since the last opening, never while half-open |
| CircuitBreaker.CircuitBreakerClient.AfterSuccess | orchestrator/internal/connector/emotion/circuit_breaker.go:183-192 | the new state is that of the specification; a half-open circuit closes |
| CircuitBreaker.CircuitBreakerClient.AfterFailure | orchestrator/internal/connector/emotion/circuit_breaker.go:194-210 | the new state is that of the specification for each of the three states it may find |
| CircuitBreaker.CircuitBreakerClient.OpenCircuit | orchestrator/internal/connector/emotion/circuit_breaker.go:212-216 | opens for a whole timeout from now with the failure count at the threshold |
| CircuitBreaker.CircuitBreakerClient.Execute | orchestrator/internal/connector/emotion/circuit_breaker.go:129-157 | a call is rejected, succeeds or fails, with the state change of exactly that case |
| CircuitBreaker.InvStep | orchestrator/internal/connector/emotion/circuit_breaker.go:159-216 | every step of overlapping calls, stale completions and stale clock readings included, keeps the state, clock and history invariants |
| CircuitBreaker.BreakerInvariant | orchestrator/internal/connector/emotion/circuit_breaker.go:159-216 | in every reachable state: half-open iff a probe is marked in flight, and then the probe has not completed; closed iff the events say so, with the failure count the trailing failures of the completion log and below the threshold |
| CircuitBreaker.OpensExactlyAtThreshold | orchestrator/internal/connector/emotion/circuit_breaker.go:204-208 | a failure opens a closed circuit iff it completes a run of threshold failures |
| CircuitBreaker.HalfOpenEnds | orchestrator/internal/connector/emotion/circuit_breaker.go:183-210 | a half-open circuit has a call running, and whichever completes first ends the visit |
| CircuitBreaker.NoEarlyAdmission | orchestrator/internal/connector/emotion/circuit_breaker.go:165-169 | over whole runs no call is admitted within the timeout after an opening |
| CircuitBreaker.OneAdmissionPerVisit | orchestrator/internal/connector/emotion/circuit_breaker.go:170-177 | a visit to half-open admits one call |
| CircuitBreaker.ProbesApart | orchestrator/internal/connector/emotion/circuit_breaker.go:165-177 | two half-open admissions with no recovery between them are at least a timeout apart |
| CircuitBreaker.OpenedUntilNeverDecreases | orchestrator/internal/connector/emotion/circuit_breaker.go:212-216 | the end of the timeout never moves back along a run |
| Vectors.CauchySchwarz | emotion-engine/src/vector/emotion.rs:46-64 | the inner product is bounded by the norms, in any dimension |
| Vectors.DotSums | emotion-engine/src/vector/emotion.rs:46-48 | the inner product is the products of the components added up one after the other |
| EmotionDynamics.FromRowMajor | emotion-engine/src/vector/matrix.rs:10-28 | accepted exactly for a positive dimension and its square of values, and then square |
| EmotionDynamics.RowsIndex | emotion-engine/src/vector/matrix.rs:25-27 | entry (i, j) is value i dim + j |
| EmotionDynamics.FrobeniusBound | emotion-engine/src/vector/matrix.rs:38-48 | the squared output is at most the squared Frobenius norm times the squared trigger |
| EmotionDynamics.StableNeverAmplifies | emotion-engine/src/vector/matrix.rs:42-56 | a matrix that passes the check never amplifies a trigger |
| EmotionDynamics.StableExactly | emotion-engine/src/vector/matrix.rs:42-56 | a matrix built from values passes exactly if their squares add up to less than one |
| EmotionDynamics.ClampInPlace | emotion-engine/src/vector/emotion.rs:66-69 | the storage is clamped component by component |
| EmotionDynamics.CosineNeedsNoClamp | emotion-engine/src/vector/emotion.rs:50-64 | the unclamped cosine of non-zero vectors already lies in [-1, 1] |
| EmotionDynamics.CosineOfNothing | emotion-engine/src/vector/emotion.rs:50-64 | vectors of different dimension and zero vectors have similarity zero |
| EmotionDynamics.TurnSucceedsExactly | emotion-engine/src/vector/compute.rs:51-73 | a turn is computed iff all dimensions agree and rate and time are not negative; the error names the first check that fails |
| EmotionDynamics.TurnByComponent | emotion-engine/src/vector/compute.rs:13-49 | each component of a turn is baseline plus decayed offset plus the products of matrix row and trigger added up, cut to [-1, 1] |
| EmotionDynamics.EmittedInBox | emotion-engine/src/vector/compute.rs:13-36 | what a turn emits has the dimension, components in [-1, 1] and squared intensity at most the dimension |
| EmotionDynamics.TurnMovesAtMostTrigger | emotion-engine/src/vector/compute.rs:38-49 | with a stable matrix and emotion and baseline in the box, a turn moves the decayed emotion by at most the trigger |
| EmotionDynamics.RunSameShape | emotion-engine/src/vector/compute.rs:51-73 | all vectors of a run have one dimension |
| EmotionDynamics.RunEmitsInBox | emotion-engine/src/vector/compute.rs:33-49 | every vector emitted along a run is in the box |
| EmotionDynamics.Contraction | emotion-engine/src/vector/compute.rs:38-49 | two runs with the same turns are, after n turns and in each component, within the product of the decay factors times their first gap |
| EmotionDynamics.ContractionPower | emotion-engine/src/vector/compute.rs:38-49 | with decay factors of at most k they are within k^n times their first gap |
| EmotionDynamics.GainOfConstant | emotion-engine/src/vector/decay.rs:25-28 | with one factor throughout that product is its n-th power |
| EmotionDynamics.InputToState | emotion-engine/src/vector/decay.rs:3-29 | with factors at most k < 1 and matrix outputs at most M: distance from the baseline at most k^n times the first plus M (1 - k^n) / (1 - k) |
| EmotionDynamics.StableEngineBound | emotion-engine/src/vector/matrix.rs:42-56 | the same bound from a matrix that passed the check and triggers of size at most M |
| EmotionDynamics.QuietRunIsOneDecay | emotion-engine/src/vector/decay.rs:25-28 | without triggers and inside the box, n turns are one decay by the product of their factors |
| MemoryStore.NormalizeIdempotent | orchestrator/internal/connector/vectorstore/client.go:931-952 | normalising a point identifier twice changes nothing |
| MemoryStore.NormalizedExactly | orchestrator/internal/connector/vectorstore/client.go:931-952 | blank stays blank, numbers and UUIDs lose surrounding white space, anything else is hashed without it |
| MemoryStore.PointExactly | orchestrator/internal/connector/vectorstore/client.go:901-906 | the point of a memory is its own point identifier, or if that is blank its name, normalised |
| MemoryStore.SelectionKeyInjective | orchestrator/internal/connector/vectorstore/mock.go:288-290 | the text key names one agent and one point, for points without a bar |
| MemoryStore.NormalizedHasNoBar | orchestrator/internal/connector/vectorstore/client.go:931-987 | normalised point identifiers hold no bar |
| MemoryStore.MockClient.UpsertMemory | orchestrator/internal/connector/vectorstore/mock.go:118-158 | fails exactly for a blank identifier or agent; otherwise the memory with its defaults replaces the first of its identifier or is appended |
| MemoryStore.DefaultsFill | orchestrator/internal/connector/vectorstore/mock.go:125-139 | level 1, time 1, the name as point, the size of the first component as valence and the creation time as last access are filled in where missing, nothing else changes, and filling twice is filling once |
| MemoryStore.LookupAfterUpsert | orchestrator/internal/connector/vectorstore/mock.go:145-156 | an upsert answers for its own identifier and changes no other |
| MemoryStore.MockClient.TouchMemories | orchestrator/internal/connector/vectorstore/mock.go:160-182 | in each list the first memory of each touched point gets the last count sent for it; the order of the points cannot be seen |
| MemoryStore.TouchArrives | orchestrator/internal/connector/vectorstore/mock.go:160-182 | the first memory of a touched point in each list gets the count sent last for that point, and the time |
| MemoryStore.TouchLeaves | orchestrator/internal/connector/vectorstore/mock.go:160-182 | every other memory, and the number of them, stays as it was |
| MemoryStore.MockClient.LatestTouches | orchestrator/internal/connector/vectorstore/client.go:908-929 | the last touch of every point that is not blank |
| MemoryStore.LatestIsLast | orchestrator/internal/connector/vectorstore/client.go:913-919 | the last touch of a point that is not blank is the one kept |
| MemoryStore.LatestIsTouched | orchestrator/internal/connector/vectorstore/client.go:913-919 | only touches that were sent, under their own point, are kept |
| MemoryStore.NewestAreNewest | orchestrator/internal/connector/vectorstore/mock.go:194-200 | nothing of the level that is left out is newer than anything returned |
| MemoryStore.NewestExactly | orchestrator/internal/connector/vectorstore/mock.go:184-201 | by creation time newest first, as many as the limit allows, nothing left out newer than anything returned, list order at one time |
| MemoryStore.AtLevelSelects | orchestrator/internal/connector/vectorstore/mock.go:188-193 | exactly the memories of the level, each as often as stored, in list order |
| MemoryStore.MockClient.GetMemoriesByLevel | orchestrator/internal/connector/vectorstore/mock.go:184-201 | the newest memories of the level, ties in list order, cut to the limit |
| MemoryStore.MockClient.UpdateMemoryLevel | orchestrator/internal/connector/vectorstore/mock.go:203-226 | succeeds exactly if some memory answers to the name; then the first to answer in some agent's list changes level and permanence, nothing else |
| MemoryStore.MockClient.DeleteStaleMemories | orchestrator/internal/connector/vectorstore/mock.go:228-286 | refused exactly for level 0 or cutoff 0; otherwise the oldest stale memories up to the limit are reported, and every memory sharing agent and point with one of them goes |
| MemoryStore.BatchExactly | orchestrator/internal/connector/vectorstore/mock.go:228-286 | the batch is cut oldest first from exactly the memories of the level created by the cutoff and, with a threshold, accessed less often, to the limit (100 if none, 1000 at most); a memory stays exactly if nothing reported has its agent and point |
| MemoryStore.KeepSelects | orchestrator/internal/connector/vectorstore/mock.go:272-283 | what stays stays in order, each as often as stored |
| MemoryStore.KeepAllTwice | orchestrator/internal/connector/vectorstore/mock.go:272-283 | deleting in two batches deletes the union, in order |
| MemoryGc.RunMemoryGCOnce | orchestrator/internal/connector/vectorstore/gc.go:50-87 | terminates; a finished pass leaves, for batch sizes up to 1000, all but the keys stale at its last reading of the clock, in order, whatever the batch size and iteration order, and above 1000 all but the first thousand oldest; a cancelled or refused pass has removed nothing but stale keys, and it is refused only at cutoff zero; in the fields of the memories: whatever went shared agent and point with a level-2 memory at least the maximum age old and accessed less than the threshold, and a finished pass with a batch size up to 1000 leaves no such memory |
| MemoryGc.GcIsFilter | orchestrator/internal/connector/vectorstore/mock.go:262-284 | deletion by key is the one-shot filter iff nothing worth keeping shares agent and point with something stale |
| MemoryGc.BigBatchStopsEarly | orchestrator/internal/connector/vectorstore/client.go:792-804 | above the store's limit a pass is complete iff at most the limit's worth of memories was stale |
| MemoryGc.PassIsFilter | orchestrator/internal/connector/vectorstore/gc.go:50-87 | for distinct points a finished pass is the filter to what is not stale iff the batch size is within the limit or few enough were stale |
| MemoryLifecycle.Evaluate | emotion-engine/src/promotion/evaluator.rs:25-76 | promotion raises by exactly one level, never past 3, and takes high intensity or both frequent access and high valence |
| MemoryLifecycle.PersistPromotedInteractionMemory | orchestrator/internal/pipeline/step_postprocess.go:119-164 | a turn is stored exactly if its intensity is above 0.9 and its agent is not blank, under its agent and millisecond at level 2 with its time, intensity, emotion and the size of its first component; for fresh identifiers that is a turn step of the life cycle |
| MemoryLifecycle.EvaluateL2Promotions | orchestrator/internal/pipeline/step_postprocess.go:191-230 | the names of those that qualify among the newest hundred level-2 memories are raised to level 3 one after the other, each at the first memory that answers in the list of some agent; where names address their memories, these go to level 3 and nothing else changes |
| MemoryLifecycle.RaisedExactly | orchestrator/internal/pipeline/step_postprocess.go:191-230 | where names address memories: of the newest hundred at level 2, those above 0.9 intensity, or accessed more than 10 times with valence above 0.8, are at level 3 afterwards, and every other memory is unchanged |
| MemoryLifecycle.StepKeeps | orchestrator/internal/connector/vectorstore/mock.go:118-286 | every single store call of the life cycle keeps levels proper, points distinct and level-3 memories in place |
| MemoryLifecycle.CollectionKeepsTop | orchestrator/internal/connector/vectorstore/mock.go:247-284 | no batch of stale level-2 memories takes a level-3 memory with it |
| MemoryLifecycle.Lifecycle | orchestrator/internal/pipeline/step_postprocess.go:119-230 | along every interleaving of turns with fresh identifiers, touches, promotions and collections: level 2 or 3, pseudopermanent iff 3, never a lower level than before, level 3 never removed |
| MemoryLifecycle.RepeatedTurnDropsLevel | orchestrator/internal/connector/vectorstore/mock.go:145-156 | a stored turn leaves the level-3 memories in place iff its identifier is not that of one of them |
| MemoryLifecycle.SecondTurnInMillisecond | orchestrator/internal/pipeline/step_postprocess.go:128-128 | a turn raised to level 3 is back at level 2 after another intense turn in the same millisecond |
| TurnIdentity.TurnIdInjective | orchestrator/internal/pipeline/step_postprocess.go:128-128 | a turn identifier names one agent and one millisecond, whatever agents are called |
| TurnIdentity.TurnPoint | orchestrator/internal/connector/vectorstore/client.go:931-952 | the point of a turn is the hash of its trimmed identifier, never the identifier itself |
| TurnIdentity.TopStaysExactly | orchestrator/internal/pipeline/step_postprocess.go:119-230 | in every history whose hash does not collide on the identifiers of its turns, levels are 2 or 3 and pseudopermanent iff 3, and level 3 is kept throughout iff no turn is stored under the identifier of a memory at level 3 at that moment |
| TurnIdentity.TurnLifecycle | orchestrator/internal/pipeline/step_postprocess.go:119-230 | the life cycle, with freshness no longer assumed but derived: it holds for every such history in which no agent has two intense turns in one millisecond |
| TurnIdentity.TurnsAddressable | orchestrator/internal/pipeline/step_postprocess.go:197-230 | in every store of such a history, repeated identifiers included, each memory, and no other of any agent, answers to the name it is evaluated under |
| EmotionalFsm.FromConfig | emotion-engine/src/fsm/transition.rs:16-25 | the table gives for each state and stimulus the target of the last rule |
| EmotionalFsm.LastMatchExactly | emotion-engine/src/fsm/transition.rs:16-29 | that target is the one of the rule after which no other has the state and stimulus |
| EmotionalFsm.TableUnique | emotion-engine/src/fsm/transition.rs:16-29 | the rules determine the table |
| EmotionalFsm.ReachableStatesFrom | emotion-engine/src/fsm/transition.rs:31-45 | terminates with exactly the states that a finite path of rules leads to, for every iteration order |
| EmotionalFsm.Validate | emotion-engine/src/fsm/transition.rs:47-74 | succeeds iff every state has an exit and a path from Neutral; otherwise reports every sink and then every unreachable state in order |
| EmotionalFsm.DefectsExactly | emotion-engine/src/fsm/transition.rs:47-74 | a state is reported as a sink exactly if no rule leaves it and as unreachable exactly if no path leads to it from Neutral, sinks first |
| EmotionalFsm.BuildEngine | emotion-engine/src/fsm/mod.rs:32-42 | an engine exists only for a sound table; otherwise its defects are reported |
| EmotionalFsm.AllowedExactly | emotion-engine/src/fsm/constraints.rs:44-78 | whatever the clock does: a move passes iff it is not forbidden and the dwell time, none if the clock ran backwards and capped at the largest 64-bit value, reaches the minimum; otherwise the first of the two reasons is given with both times |
| EmotionalFsm.RunSafety | emotion-engine/src/fsm/mod.rs:49-95 | whatever the clock does: a run changes its snapshot exactly when the last matching rule asks for another state, the move is not forbidden and the minimum dwell has passed; every other step keeps the snapshot and its entry time |
| EmotionalFsm.RefusalSaysWhy | emotion-engine/src/fsm/mod.rs:55-94 | the reason a step gives, told from the rules and constraints |
| EmotionalFsm.DwellBetweenChanges | emotion-engine/src/fsm/constraints.rs:61-75 | consecutive changes of a run are at least the minimum dwell of the state between them apart |
| EmotionalFsm.RunStaysReachable | emotion-engine/src/fsm/mod.rs:49-95 | a run stays in the states its table reaches from its first state |
| EnterableStates.EnterableExactly | emotion-engine/src/fsm/mod.rs:49-95 | some run from a state at a time enters another state iff a route of moves that are not forbidden leads there whose dwell times fit into the 64-bit time that is left |
| EnterableStates.EnterableWithTime | emotion-engine/src/fsm/constraints.rs:44-78 | with seven times the longest dwell time left, that is iff any such route leads there |
| EnterableStates.ForbiddenNeverEntered | emotion-engine/src/fsm/constraints.rs:52-59 | a state all of whose rules are forbidden is never entered in any run |
| EnterableStates.CircleCutOff | emotion-engine/src/fsm/transition.rs:47-74 | a sound table of eight states with one forbidden move: validation finds no defect and every run stays in Neutral |
| Sse.ResponseWriter.WriteSSE | orchestrator/internal/api/response.go:29-39 | appends one frame, or nothing if the payload cannot be encoded, its text given literally |
| Sse.ParseSSE | orchestrator/internal/api/ui/assets/app.js:309-347 | for every text and every way of cutting it into chunks, the outcome is that of reading the whole text at once, refused dispatches included |
| SseBlocks.BlockRead | orchestrator/internal/api/ui/assets/app.js:309-352 | any block of fields: the last name, the data lines joined by newlines, nothing without data, comments passed over, values with or without a space, lines ended with or without a carriage return; handed over if accepted, the end of the reader if refused |
| SseBlocks.StreamRead | orchestrator/internal/api/ui/assets/app.js:309-352 | from a stream of blocks the reader hands over the event of every block that has data, in order |
| SseBlocks.RefusedEnds | orchestrator/internal/api/ui/assets/app.js:320-346 | however framed events are cut into chunks, the first one refused ends the reader: it has failed, what was before it is handed over, and nothing after it |
| Sse.RoundTrip | orchestrator/internal/api/ui/assets/app.js:309-347 | whatever trimmed one-line names and data are framed, and however the text is cut, the reader hands over exactly those events in order |
| Sse.CarriedExactly | orchestrator/internal/api/response.go:34-34 | an event survives framing and reading iff its name and its data are each one trimmed line |
| Sse.CutOffExactly | orchestrator/internal/api/ui/assets/app.js:336-346 | cut off after any number of characters, a stream gives the events whose frames are complete, and one more exactly if only the newline of its blank line is missing |
| Sse.UnfinishedEventDispatched | orchestrator/internal/api/ui/assets/app.js:336-346 | an event without its blank line is handed over all the same |
| Sse.OnlyCarriedNames | orchestrator/internal/api/ui/assets/app.js:326-330 | no text makes the reader report a name that is not one trimmed line |
| TopN.TopPush | orchestrator/internal/connector/cache/mock.go:119-136 | the first n of (the first n so far and one more) are the first n of everything |
| TopN.TopUnique | orchestrator/internal/connector/cache/mock.go:126-131 | when nothing ties, the first n do not depend on the sort |
| TopN.LexExactly | orchestrator/internal/connector/cache/mock.go:126-131 | the order of texts is decided at the first place where they differ |
| WorkingMemory.Prune | orchestrator/internal/connector/cache/mock.go:119-136 | the newest entries up to the limit in order, nothing for no limit |
| WorkingMemory.MockClient.PushWorkingMemory | orchestrator/internal/connector/cache/mock.go:85-97 | after every push the window holds the newest of everything pushed since it last expired, and the windows of other agents are unchanged |
| WorkingMemory.MockClient.ClearExpired | orchestrator/internal/connector/cache/mock.go:138-149 | an expired window is removed, and every other window is unchanged |
| WorkingMemory.MockClient.GetWorkingMemory | orchestrator/internal/connector/cache/mock.go:70-83 | the entries of the window, latest first, nothing once it has expired; other windows are unchanged; by falling timestamp |
| WorkingMemory.WindowIsNewest | orchestrator/internal/connector/cache/mock.go:85-136 | with distinct keys the window is the front of the whole history sorted once |
| WorkingMemory.WindowInOrder | orchestrator/internal/connector/cache/mock.go:119-136 | a window lists by falling time, at one time by falling identifier, and leaves out only what comes later in that order |
| WorkingMemory.MembersInOrder | orchestrator/internal/connector/cache/client.go:33-42 | the same for the sorted set with the text of the member |
| WorkingMemory.SortedSet.GetWorkingMemory | orchestrator/internal/connector/cache/client.go:162-184 | the members by falling time, nothing once the key has expired |
| WorkingMemory.SortedSet.PushScript | orchestrator/internal/connector/cache/client.go:33-42 | after every script the set holds the highest ranks of everything added since the key last expired; the count before trimming is returned and the expiry renewed; running it again changes nothing else |
| WorkingMemory.ScriptKeepsTop | orchestrator/internal/connector/cache/client.go:33-42 | adding and trimming keeps the highest ranks, for new, present and evicted members |
| WorkingMemory.WindowsAgree | orchestrator/internal/connector/cache/client.go:162-184 | with distinct timestamps the cache and the sorted set hold the same entries in the same order |
| Places.SortPlaces | emotion-engine/src/scoring/fusion.rs:69-69 | a stable sort puts each element behind what is less and what ties and came first |
| Ranking.FuseAndRank | emotion-engine/src/scoring/fusion.rs:41-71 | fails exactly for a negative weight or a sum off one by more than 0.01, saying which; otherwise lists every candidate by falling score, each at its place, with its weighted parts and their sum raised by a positive boost if pseudopermanent |
| Ranking.RankingIsStable | emotion-engine/src/scoring/fusion.rs:69-69 | equal scores keep their input order, and no other ordered list does that |
| Ranking.BoostNeverHurts | emotion-engine/src/scoring/fusion.rs:55-57 | the pseudopermanent mark never lowers a non-negative score, whatever the boost |
| Ranking.ScoreBounded | emotion-engine/src/scoring/fusion.rs:28-62 | accepted weights and unit scores give a final score in [0, 1.01 (1 + max(0, boost))] |
| Ranking.RaisingNeverHurts | emotion-engine/src/scoring/fusion.rs:41-71 | raising component scores of one candidate never moves it to a later place |
| Goals.ReprioritizeGoals | orchestrator/internal/pipeline/step_cognitive.go:87-174 | the four foremost goals of the merged map in order of priority and description |
| Goals.BuiltInsApart | orchestrator/internal/pipeline/step_cognitive.go:100-156 | the built-in goals of any phase and beliefs differ in identifier and description |
| Goals.BuiltInsExactly | orchestrator/internal/pipeline/step_cognitive.go:100-156 | which goals are built in for which phase, expertise and pressure, with name, description and priority |
| Goals.MergedExactly | orchestrator/internal/pipeline/step_cognitive.go:92-156 | what the merged map holds under a name: the built-in goal, the last current goal of that name, or of both the current one with the higher priority and a missing description filled in |
| Goals.OutcomeInOrder | orchestrator/internal/pipeline/step_cognitive.go:158-173 | the outcome falls by priority, rises by description at one priority, has at most four goals, and leaves out nothing that comes before them |
| TopTies.OneTopExactly | orchestrator/internal/pipeline/step_cognitive.go:158-173 | the first n of a set are one list iff nothing that ties with something else comes among the first n |
| GoalStability.OrderIndependentExactly | orchestrator/internal/pipeline/step_cognitive.go:158-173 | neither map order nor the unstable sort can be seen in the outcome iff no two goals tie in priority and description with one of them among the first four |
| GoalStability.IdempotentExactly | orchestrator/internal/pipeline/step_cognitive.go:87-174 | for all current goals and any built-in goals apart in identifier and description: running again gives the goals of the first run iff no two tied goals fit among the first four together and every built-in goal that may be cut off has four goals before its built-in form |
| GoalStability.PhaseIdempotentExactly | orchestrator/internal/pipeline/step_cognitive.go:87-174 | the same for the built-in goals of every phase and beliefs |
| GoalStability.WellKeptIsSteady | orchestrator/internal/pipeline/step_cognitive.go:87-174 | current goals with one identifier to each description, the built-in ones included, meet that condition |
| GoalStability.RepeatedDescription | orchestrator/internal/pipeline/step_cognitive.go:87-174 | the input at which map order shows and running again can change the goals |
| Classifier.LabelVector | python-ml/app/classifier.py:18-47 | every label vector has six components in [-1, 1] |
| Classifier.CombineWeightedLabels | python-ml/app/classifier.py:353-371 | fails exactly for no labels; otherwise the clamped weighted mean, the first label of greatest score and its share of the weight |
| Classifier.ConvexCombination | python-ml/app/classifier.py:357-364 | with positive weights each component lies between those of the labels, and the clamp is the identity |
| Classifier.ConfidenceBounds | python-ml/app/classifier.py:366-366 | with positive weights the confidence is the top share, at least one in n and at most one |
| Classifier.CombineLabels | python-ml/app/classifier.py:353-371 | for the program's own labels: with a positive total weight the vector is the weighted mean of theirs, cut to [-1, 1], under the first label of greatest weight, and the confidence its share, one at most; otherwise the plain sums and no confidence; for positive weights a convex combination with confidence from one in n to one |
| Classifier.ClassifyManyWithOllama | python-ml/app/classifier.py:202-228 | for every completion order the batch succeeds iff each text would alone, blank texts neutral without confidence and the others with their own answers in input order; a failed batch reports the failure of one of its texts |
| Classifier.HeuristicBatchExactly | python-ml/app/classifier.py:103-127 | in heuristic mode the batch equals classifying each text alone iff no text is blank; what each text gets either way |

## Left out

- Qdrant, Postgres, Redis and Ollama wire calls: the in-memory store stands for the vector store, Redis is a key with an expiry or a sorted set, the language model is a function.
- HTTP handlers, middleware, gRPC transport and the user interface except the event reader: plumbing.
- The unlocked write of the agent state in orchestrator/internal/api/handler_agent.go:35: outside the lock protocol.
- f32 rounding, NaN and signed zero, and the Gaussian noise of compute_next_emotion: arithmetic is exact and noise is off.
- SHA-1, the random source of lock tokens and JSON encoding: a hash printing UUIDs, fresh tokens, and opaque text.
- UTF-8 decoding across chunk borders in the event reader: chunks are text.
- Parsing of state and stimulus names, and errors for unknown names: rules arrive parsed.
- Defaulting of the garbage-collection and cache configuration, and the ticker between passes: only easy members.
- QuerySemantic, QueryEmotional and the prompt, tone and keyword heuristics: formatting and flat case lists.
- The transformers mode of the classifier and the parsing of language-model output: foreign calls.
- Content and cognitive score of a stored memory: carried along unchanged by every operation.
- scaled_identity, prototype vectors, macro states and other constant tables: only easy members.
- MemoryStore.MockClient.TouchMemories: does not model the sort of the touches by point, because the result is proved for every order of the points.
- EmotionalFsm.BuildEngine: the error is the list of defects, not the joined text.
- AgentLockClient.CacheClient.AcquireAgentLock: keys and tokens of other agents stand still during a call, because nothing in it depends on them.
- AgentLockClient.CacheClient.ReleaseAgentLock: the same.
