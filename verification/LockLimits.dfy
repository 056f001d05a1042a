/** Why the lock needs its two assumptions. Sections must end within the lease, and writes within their
    section: with either dropped an update is lost, with both the runs are serial. The executions that
    lose an update are built step by step. */
module LockLimits {
  import opened Wrappers
  import opened AgentLock

  /** How long a section may last, counted from the moment its lease was taken, and whether a state write
      must be executed before its run leaves. */
  datatype Discipline = Discipline(longest: nat, prompt: bool)

  ghost predicate Brief(w: World, s: State, longest: nat) {
    forall r :: r in s.runs && s.runs[r].Entered() ==> s.now - (s.runs[r].deadline - w.ttl) <= longest
  }

  ghost predicate Obeys(w: World, states: seq<State>, steps: seq<Step>, rules: Discipline)
    requires |states| == |steps| + 1
  {
    && (forall i :: 0 <= i < |states| ==> Brief(w, states[i], rules.longest))
    && (rules.prompt ==> forall i :: 0 <= i < |steps| ==> Prompt(states[i], steps[i]))
  }

  const START := State(0, None, None, map[], map[], {}, {}, {}, [], {})

  /** Some execution that obeys the rules leads from the empty start to s. */
  ghost predicate Reachable(w: World, s: State, rules: Discipline) {
    exists states, steps :: Reaches(w, states, steps, s, rules)
  }

  ghost predicate Reaches(w: World, states: seq<State>, steps: seq<Step>, s: State, rules: Discipline) {
    && Execution(w, states, steps) && states[0] == START && states[|steps|] == s
    && Obeys(w, states, steps, rules)
  }

  lemma ReachableStep(w: World, s: State, step: Step, rules: Discipline)
    requires Reachable(w, s, rules) && Enabled(s, step)
    requires Brief(w, Apply(w, s, step), rules.longest) && (rules.prompt ==> Prompt(s, step))
    ensures Reachable(w, Apply(w, s, step), rules)
  {
    var states, steps :| Reaches(w, states, steps, s, rules);
    assert Reaches(w, states + [Apply(w, s, step)], steps + [step], Apply(w, s, step), rules);
  }

  lemma ReachableBrief(w: World, s: State, rules: Discipline)
    requires Reachable(w, s, rules)
    ensures Brief(w, s, rules.longest)
  {
    var states, steps :| Reaches(w, states, steps, s, rules);
    assert Brief(w, states[|steps|], rules.longest);
  }

  // ---------------------------------------------------------------- Ways to go

  /** A run asks for the lock. */
  lemma ReachAsking(w: World, s: State, r: RunId, rules: Discipline)
    requires Reachable(w, s, rules) && r !in s.runs
    ensures Reachable(w, s.(runs := s.runs[r := Calling(Token(r, 0), 1, None, 0)]), rules)
  {
    ReachableBrief(w, s, rules);
    ReachableStep(w, s, Acquire(r, Begin), rules);
    var s1 := s.(runs := s.runs[r := Waiting(0)]);
    ReachableStep(w, s1, Acquire(r, Send), rules);
    var asking := Calling(Token(r, 0), 1, None, 0);
    assert s1.runs[r := asking] == s.runs[r := asking];
  }

  lemma ReachTold(w: World, s: State, r: RunId, rules: Discipline)
    requires Reachable(w, s, rules) && r in s.runs && s.runs[r].Calling? && s.runs[r].reply == Some(true)
    requires s.now - (s.runs[r].deadline - w.ttl) <= rules.longest
    ensures Reachable(w, s.(order := s.order + [r], runs := s.runs[r := Locked(s.runs[r].token, s.runs[r].deadline)]),
                      rules)
  {
    ReachableBrief(w, s, rules);
    ReachableStep(w, s, Acquire(r, Reply), rules);
  }

  lemma ReachExecuted(w: World, s: State, r: RunId, rules: Discipline)
    requires Reachable(w, s, rules) && r in s.runs && s.runs[r] == Calling(Token(r, 0), 1, None, 0)
             && Live(s.key, s.now).None?
    ensures Reachable(w, s.(key := Some(Lease(Token(r, 0), s.now + w.ttl)),
                            runs := s.runs[r := Calling(Token(r, 0), 1, Some(true), s.now + w.ttl)]), rules)
  {
    ReachableBrief(w, s, rules);
    ReachableStep(w, s, Acquire(r, Exec), rules);
  }

  /** A run asks for a free lock and is told that it has it. */
  lemma ReachLocked(w: World, s: State, r: RunId, rules: Discipline)
    requires Reachable(w, s, rules) && r !in s.runs && Live(s.key, s.now).None?
    ensures Reachable(w, s.(key := Some(Lease(Token(r, 0), s.now + w.ttl)), order := s.order + [r],
                            runs := s.runs[r := Locked(Token(r, 0), s.now + w.ttl)]), rules)
  {
    var t, d := Token(r, 0), s.now + w.ttl;
    ReachAsking(w, s, r, rules);
    var s2 := s.(runs := s.runs[r := Calling(t, 1, None, 0)]);
    ReachExecuted(w, s2, r, rules);
    var s3 := s.(key := Some(Lease(t, d)), runs := s.runs[r := Calling(t, 1, Some(true), d)]);
    assert s2.runs[r := s3.runs[r]] == s3.runs;
    ReachTold(w, s3, r, rules);
    assert s3.runs[r := Locked(t, d)] == s.runs[r := Locked(t, d)];
  }

  /** A run that holds the lock notes its token and reads the state. */
  lemma ReachLoaded(w: World, s: State, r: RunId, rules: Discipline)
    requires Reachable(w, s, rules) && r in s.runs && s.runs[r].Locked?
    ensures Reachable(w, s.(tokens := s.tokens[w.clientOf(r) := s.runs[r].token],
                            runs := s.runs[r := Inside(s.runs[r].token, s.runs[r].deadline,
                                                       Saving(Current(w, s), 1))]), rules)
  {
    var pc := s.runs[r];
    ReachableBrief(w, s, rules);
    ReachableStep(w, s, Work(r, NoteToken), rules);
    var s1 := s.(tokens := s.tokens[w.clientOf(r) := pc.token],
                 runs := s.runs[r := Inside(pc.token, pc.deadline, Loading)]);
    ReachableStep(w, s1, Work(r, Load), rules);
    var loaded := Inside(pc.token, pc.deadline, Saving(Current(w, s), 1));
    assert s1.runs[r := loaded] == s.runs[r := loaded];
  }

  /** A run writes and leaves its critical section. */
  lemma ReachSaved(w: World, s: State, r: RunId, rules: Discipline)
    requires Reachable(w, s, rules) && r in s.runs && s.runs[r].Inside? && s.runs[r].work.Saving?
    ensures Reachable(w, s.(stored := Some(w.effect(r, s.runs[r].work.base)), wrote := s.wrote + {r},
                            runs := s.runs[r := s.runs[r].(work := Closing)]), rules)
  {
    ReachableBrief(w, s, rules);
    ReachableStep(w, s, Work(r, Save(true, true)), rules);
  }

  /** A run gives up writing after its attempts; the last of them may still be executed. */
  lemma ReachGivenUp(w: World, s: State, r: RunId, rules: Discipline)
    requires Reachable(w, s, rules) && r in s.runs && s.runs[r].Inside? && s.runs[r].work.Saving?
             && s.runs[r].work.attempt == 1
    ensures Reachable(w, s.(lateSaves := s.lateSaves + {(r, w.effect(r, s.runs[r].work.base))},
                            runs := s.runs[r := s.runs[r].(work := Closing)]), rules)
  {
    var pc := s.runs[r];
    var v := w.effect(r, pc.work.base);
    ReachableBrief(w, s, rules);
    ReachableStep(w, s, Work(r, Save(false, false)), rules);
    var s1 := s.(lateSaves := s.lateSaves + {(r, v)}, runs := s.runs[r := pc.(work := Saving(pc.work.base, 2))]);
    ReachableStep(w, s1, Work(r, Save(false, false)), rules);
    assert s1.runs[r := pc.(work := Closing)] == s.runs[r := pc.(work := Closing)];
    assert s1.lateSaves + {(r, v)} == s1.lateSaves;
  }

  /** A run releases with whatever token is noted for its process. */
  lemma ReachReleased(w: World, s: State, r: RunId, rules: Discipline)
    requires Reachable(w, s, rules) && r in s.runs && s.runs[r].Inside? && s.runs[r].work.Closing?
             && w.clientOf(r) in s.tokens
    ensures Reachable(w, s.(key := CompareAndDelete(s.key, s.tokens[w.clientOf(r)], s.now),
                            tokens := s.tokens - {w.clientOf(r)}, runs := s.runs[r := Finished]), rules)
  {
    ReachableBrief(w, s, rules);
    ReachableStep(w, s, Release(r, Consume), rules);
    var s1 := s.(tokens := s.tokens - {w.clientOf(r)}, runs := s.runs[r := Deleting(s.tokens[w.clientOf(r)], 1)]);
    ReachableStep(w, s1, Release(r, ExecDelete), rules);
    assert s1.runs[r := Finished] == s.runs[r := Finished];
  }

  lemma ReachStart(w: World, rules: Discipline)
    ensures Reachable(w, START, rules)
  {
    assert Reaches(w, [START], [], START, rules);
  }

  /** The runs got the lock in the order `q`, `r` and both wrote, but the update made by `r` is lost. */
  ghost predicate UpdateLost(w: World, s: State, q: RunId, r: RunId) {
    && s.order == [q, r] && s.wrote == {q, r}
    && Current(w, s) == w.effect(q, w.default)
    && Serial(w, w.default, Writers(s.order, s.wrote)) == w.effect(r, w.effect(q, w.default))
  }

  /** Besides, the release of `q` took away the live lease of `r`. */
  ghost predicate IsolationBroken(w: World, s: State, q: RunId, r: RunId) {
    && UpdateLost(w, s, q, r)
    && q in s.runs && s.runs[q].Finished?
    && r in s.runs && s.runs[r].Entered() && s.now < s.runs[r].deadline && s.key.None?
  }

  // ---------------------------------------------------------------- Why sections must end in time

  /** Run `q` reads the state and then sits past its deadline. */
  lemma OverrunBegins(w: World, q: RunId, rules: Discipline) returns (s: State)
    requires 0 < w.ttl <= rules.longest
    ensures Reachable(w, s, rules) && s.now == w.ttl && s.key == Some(Lease(Token(q, 0), w.ttl)) && s.stored.None?
    ensures s.runs == map[q := Inside(Token(q, 0), w.ttl, Saving(w.default, 1))] && s.order == [q] && s.wrote == {}
  {
    var t := Token(q, 0);
    var s0 := START;
    ReachStart(w, rules);
    ReachLocked(w, s0, q, rules);
    var s1 := s0.(key := Some(Lease(t, w.ttl)), order := s0.order + [q], runs := s0.runs[q := Locked(t, w.ttl)]);
    ReachLoaded(w, s1, q, rules);
    var loaded := Inside(t, w.ttl, Saving(w.default, 1));
    var s2 := s1.(tokens := s1.tokens[w.clientOf(q) := t], runs := s1.runs[q := loaded]);
    ReachableStep(w, s2, Tick(w.ttl), rules);
    s := s2.(now := w.ttl);
  }

  /** Run `r` finds the lease run out, takes the lock and reads. */
  lemma OverrunMeetsIntruder(w: World, s: State, q: RunId, r: RunId, rules: Discipline) returns (s': State)
    requires q != r && 0 < w.ttl <= rules.longest
    requires Reachable(w, s, rules) && s.now == w.ttl && s.key == Some(Lease(Token(q, 0), w.ttl)) && s.stored.None?
    requires s.runs == map[q := Inside(Token(q, 0), w.ttl, Saving(w.default, 1))] && s.order == [q] && s.wrote == {}
    ensures Reachable(w, s', rules) && s'.now == w.ttl && s'.stored.None? && s'.order == [q, r] && s'.wrote == {}
    ensures s'.key == Some(Lease(Token(r, 0), 2 * w.ttl)) && s'.tokens == s.tokens[w.clientOf(r) := Token(r, 0)]
    ensures s'.runs == s.runs[r := Inside(Token(r, 0), 2 * w.ttl, Saving(w.default, 1))]
  {
    ReachLocked(w, s, r, rules);
    var s1 := s.(key := Some(Lease(Token(r, 0), 2 * w.ttl)), order := s.order + [r],
                 runs := s.runs[r := Locked(Token(r, 0), 2 * w.ttl)]);
    ReachLoaded(w, s1, r, rules);
    var loaded := Inside(Token(r, 0), 2 * w.ttl, Saving(w.default, 1));
    s' := s1.(tokens := s1.tokens[w.clientOf(r) := Token(r, 0)], runs := s1.runs[r := loaded]);
    assert s1.runs[r := loaded] == s.runs[r := loaded];
  }

  /** Both write, `q` last. */
  lemma OverrunClashes(w: World, s: State, q: RunId, r: RunId, rules: Discipline) returns (s': State)
    requires q != r && 0 < w.ttl <= rules.longest && Reachable(w, s, rules)
    requires s.stored.None? && s.order == [q, r] && s.wrote == {}
    requires q in s.runs && s.runs[q] == Inside(Token(q, 0), w.ttl, Saving(w.default, 1))
    requires r in s.runs && s.runs[r] == Inside(Token(r, 0), 2 * w.ttl, Saving(w.default, 1))
    ensures Reachable(w, s', rules) && UpdateLost(w, s', q, r)
    ensures s'.now == s.now && s'.key == s.key && s'.tokens == s.tokens
    ensures q in s'.runs && s'.runs[q] == Inside(Token(q, 0), w.ttl, Closing)
    ensures r in s'.runs && s'.runs[r] == Inside(Token(r, 0), 2 * w.ttl, Closing)
  {
    ReachSaved(w, s, r, rules);
    var s1 := s.(stored := Some(w.effect(r, w.default)), wrote := s.wrote + {r},
                 runs := s.runs[r := s.runs[r].(work := Closing)]);
    ReachSaved(w, s1, q, rules);
    s' := s1.(stored := Some(w.effect(q, w.default)), wrote := s1.wrote + {q},
              runs := s1.runs[q := s1.runs[q].(work := Closing)]);
    TwoWriters(w, q, r);
    assert s'.wrote == {q, r};
  }

  lemma TwoWriters(w: World, q: RunId, r: RunId)
    requires q != r
    ensures Serial(w, w.default, Writers([q, r], {q, r})) == w.effect(r, w.effect(q, w.default))
  {
    assert [q, r] == [q] + [r] && [q] == [] + [q] && {q} + {r} == {q, r} && {} + {q} == {q};
    WritersOfLast([q], {q}, r);
    WritersOfLast([], {}, q);
    SerialOfLast(w, w.default, [q], r);
    SerialOfLast(w, w.default, [], q);
  }

  /** Whatever the runs compute and whichever processes they belong to, once sections may last as long as the
      lease there is an execution in which the first overruns its lease and overwrites the update of the
      second, whose lease is live all along. */
  lemma OverrunLosesUpdate(w: World, q: RunId, r: RunId, rules: Discipline) returns (s: State)
    requires q != r && 0 < w.ttl <= rules.longest
    ensures Reachable(w, s, rules) && UpdateLost(w, s, q, r)
    ensures s.now == w.ttl && s.key == Some(Lease(Token(r, 0), 2 * w.ttl)) && Live(s.key, s.now).Some?
    ensures q in s.runs && s.runs[q] == Inside(Token(q, 0), w.ttl, Closing)
    ensures r in s.runs && s.runs[r] == Inside(Token(r, 0), 2 * w.ttl, Closing)
    ensures w.clientOf(r) in s.tokens && s.tokens[w.clientOf(r)] == Token(r, 0)
  {
    var s1 := OverrunBegins(w, q, rules);
    var s2 := OverrunMeetsIntruder(w, s1, q, r, rules);
    s := OverrunClashes(w, s2, q, r, rules);
  }

  /** The assumption cannot be dropped. If the two runs belong to one process, the first moreover releases
      with the token that the second one noted, and so takes its live lease away. */
  lemma OverrunBreaksIsolation(w: World, q: RunId, r: RunId, rules: Discipline)
    requires q != r && w.clientOf(q) == w.clientOf(r) && 0 < w.ttl <= rules.longest
    ensures exists s :: Reachable(w, s, rules) && IsolationBroken(w, s, q, r)
  {
    var s1 := OverrunLosesUpdate(w, q, r, rules);
    ReachReleased(w, s1, q, rules);
    var s2 := s1.(key := None, tokens := s1.tokens - {w.clientOf(q)}, runs := s1.runs[q := Finished]);
    assert IsolationBroken(w, s2, q, r);
  }

  // ---------------------------------------------------------------- Why writes must be prompt

  /** One run after another, each within its lease: `q` gives up writing and releases. */
  lemma GivesUp(w: World, q: RunId, rules: Discipline) returns (s: State)
    requires w.ttl > 0
    ensures Reachable(w, s, rules) && s.now == 0 && s.key.None? && s.stored.None? && s.runs == map[q := Finished]
    ensures s.lateSaves == {(q, w.effect(q, w.default))} && s.order == [q] && s.wrote == {}
  {
    var t := Token(q, 0);
    var s0 := START;
    ReachStart(w, rules);
    ReachLocked(w, s0, q, rules);
    var s1 := s0.(key := Some(Lease(t, w.ttl)), order := s0.order + [q], runs := s0.runs[q := Locked(t, w.ttl)]);
    ReachLoaded(w, s1, q, rules);
    var inside := Inside(t, w.ttl, Saving(w.default, 1));
    var s2 := s1.(tokens := s1.tokens[w.clientOf(q) := t], runs := s1.runs[q := inside]);
    ReachGivenUp(w, s2, q, rules);
    var s3 := s2.(lateSaves := s2.lateSaves + {(q, w.effect(q, w.default))},
                  runs := s2.runs[q := inside.(work := Closing)]);
    ReachReleased(w, s3, q, rules);
    s := s3.(key := None, tokens := s3.tokens - {w.clientOf(q)}, runs := s3.runs[q := Finished]);
    assert s.runs == map[q := Finished];
  }

  /** Then `r` writes, and then the write of `q` is executed. */
  lemma WritesAfterwards(w: World, s: State, q: RunId, r: RunId, rules: Discipline) returns (s': State)
    requires w.ttl > 0 && q != r && !rules.prompt
    requires Reachable(w, s, rules) && s.now == 0 && s.key.None? && s.stored.None? && s.runs == map[q := Finished]
    requires s.lateSaves == {(q, w.effect(q, w.default))} && s.order == [q] && s.wrote == {}
    ensures Reachable(w, s', rules) && s'.order == [q, r] && s'.wrote == {q, r}
            && Current(w, s') == w.effect(q, w.default)
  {
    var t := Token(r, 0);
    ReachLocked(w, s, r, rules);
    var s1 := s.(key := Some(Lease(t, w.ttl)), order := s.order + [r], runs := s.runs[r := Locked(t, w.ttl)]);
    ReachLoaded(w, s1, r, rules);
    var inside := Inside(t, w.ttl, Saving(w.default, 1));
    var s2 := s1.(tokens := s1.tokens[w.clientOf(r) := t], runs := s1.runs[r := inside]);
    ReachSaved(w, s2, r, rules);
    var s3 := s2.(stored := Some(w.effect(r, w.default)), wrote := s2.wrote + {r},
                  runs := s2.runs[r := inside.(work := Closing)]);
    ReachableBrief(w, s3, rules);
    ReachableStep(w, s3, LateSave(q, w.effect(q, w.default)), rules);
    s' := s3.(stored := Some(w.effect(q, w.default)), wrote := s3.wrote + {q});
  }

  /** The second assumption cannot be dropped either, however short the critical sections: a write that
      Redis executes after its run has released the lock overwrites the update of the next run. */
  lemma LateWriteBreaksOrder(w: World, q: RunId, r: RunId, rules: Discipline) returns (s: State)
    requires w.ttl > 0 && q != r && !rules.prompt
    ensures Reachable(w, s, rules) && UpdateLost(w, s, q, r)
  {
    var s1 := GivesUp(w, q, rules);
    s := WritesAfterwards(w, s1, q, r, rules);
    TwoWriters(w, q, r);
  }

  // ---------------------------------------------------------------- Other late commands

  /** A SETNX that is executed after its run gave up takes the lock for nobody: it stays taken for a whole lease. */
  lemma LateSetNxBlocks(w: World, q: RunId, rules: Discipline) returns (s: State)
    requires w.ttl > 0
    ensures Reachable(w, s, rules) && s.now == 0 && s.key == Some(Lease(Token(q, 0), w.ttl)) && Live(s.key, s.now).Some?
    ensures s.runs == map[q := Finished] && s.order == [] && s.tokens == map[]
  {
    var s0 := START;
    ReachStart(w, rules);
    ReachAsking(w, s0, q, rules);
    var s1 := s0.(runs := s0.runs[q := Calling(Token(q, 0), 1, None, 0)]);
    ReachableStep(w, s1, Acquire(q, Lost(true)), rules);
    var s2 := s1.(lateSets := s1.lateSets + {Token(q, 0)}, runs := s1.runs[q := Finished]);
    ReachableStep(w, s2, LateSetNx(Token(q, 0)), rules);
    s := s2.(key := Some(Lease(Token(q, 0), w.ttl)));
    assert s.runs == map[q := Finished];
  }

  /** A run may fail before it writes: it leaves its section, and the state and the list of writers as they were. */
  lemma FailureLeavesState(w: World, s: State, q: RunId, rules: Discipline) returns (s': State)
    requires Reachable(w, s, rules) && q in s.runs && s.runs[q].Inside?
    ensures Reachable(w, s', rules) && s'.runs == s.runs[q := s.runs[q].(work := Closing)]
    ensures s'.stored == s.stored && s'.wrote == s.wrote && s'.order == s.order && s'.key == s.key
  {
    ReachableBrief(w, s, rules);
    ReachableStep(w, s, Work(q, Fail), rules);
    s' := s.(runs := s.runs[q := s.runs[q].(work := Closing)]);
  }

  /** A write whose reply is lost has changed the state, and its run writes again. */
  lemma WriteUnanswered(w: World, q: RunId, rules: Discipline) returns (s: State)
    requires w.ttl > 0
    ensures Reachable(w, s, rules) && s.stored == Some(w.effect(q, w.default)) && s.wrote == {q}
    ensures s.runs == map[q := Inside(Token(q, 0), w.ttl, Saving(w.default, 2))]
  {
    var t := Token(q, 0);
    var s0 := START;
    ReachStart(w, rules);
    ReachLocked(w, s0, q, rules);
    var s1 := s0.(key := Some(Lease(t, w.ttl)), order := s0.order + [q], runs := s0.runs[q := Locked(t, w.ttl)]);
    ReachLoaded(w, s1, q, rules);
    var inside := Inside(t, w.ttl, Saving(w.default, 1));
    var s2 := s1.(tokens := s1.tokens[w.clientOf(q) := t], runs := s1.runs[q := inside]);
    ReachableBrief(w, s2, rules);
    ReachableStep(w, s2, Work(q, Save(true, false)), rules);
    s := s2.(stored := Some(w.effect(q, w.default)), wrote := s2.wrote + {q},
             runs := s2.runs[q := inside.(work := Saving(w.default, 2))]);
  }

  /** A release script that is executed after its run gave up still frees the lock of that run. */
  lemma LateDeleteFrees(w: World, q: RunId, rules: Discipline) returns (s: State, s': State)
    requires w.ttl > 0
    ensures Reachable(w, s, rules) && s.runs == map[q := Finished] && s.order == [q] && Live(s.key, s.now).Some?
    ensures Reachable(w, s', rules) && s' == s.(key := None)
  {
    var t := Token(q, 0);
    var s0 := START;
    ReachStart(w, rules);
    ReachLocked(w, s0, q, rules);
    var s1 := s0.(key := Some(Lease(t, w.ttl)), order := s0.order + [q], runs := s0.runs[q := Locked(t, w.ttl)]);
    ReachLoaded(w, s1, q, rules);
    var inside := Inside(t, w.ttl, Saving(w.default, 1));
    var s2 := s1.(tokens := s1.tokens[w.clientOf(q) := t], runs := s1.runs[q := inside]);
    ReachSaved(w, s2, q, rules);
    var s3 := s2.(stored := Some(w.effect(q, w.default)), wrote := s2.wrote + {q},
                  runs := s2.runs[q := inside.(work := Closing)]);
    s := ReleaseGivenUp(w, s3, q, rules);
    ReachableBrief(w, s, rules);
    ReachableStep(w, s, LateDelete(w.clientOf(q), t), rules);
    s' := s.(key := None);
  }

  lemma ReleaseGivenUp(w: World, s: State, q: RunId, rules: Discipline) returns (s': State)
    requires Reachable(w, s, rules) && s.runs.Keys == {q} && s.runs[q].Inside? && s.runs[q].work.Closing?
    requires w.clientOf(q) in s.tokens && s.tokens[w.clientOf(q)] == Token(q, 0)
    ensures Reachable(w, s', rules) && s'.runs == map[q := Finished] && s'.order == s.order
    ensures s'.key == s.key && s'.now == s.now && (w.clientOf(q), Token(q, 0)) in s'.lateDeletes
  {
    var c, t := w.clientOf(q), Token(q, 0);
    ReachableBrief(w, s, rules);
    ReachableStep(w, s, Release(q, Consume), rules);
    var s1 := s.(tokens := s.tokens - {c}, runs := s.runs[q := Deleting(t, 1)]);
    ReachableStep(w, s1, Release(q, DeleteLost(false)), rules);
    var s2 := s1.(lateDeletes := s1.lateDeletes + {(c, t)}, runs := s1.runs[q := Deleting(t, 2)]);
    ReachableStep(w, s2, Release(q, DeleteLost(false)), rules);
    s' := s2.(lateDeletes := s2.lateDeletes + {(c, t)}, runs := s2.runs[q := Finished]);
    assert s'.runs == map[q := Finished];
  }

  // ---------------------------------------------------------------- Exactly these assumptions

  /** The stored state is what the writing runs produce one after the other. */
  ghost predicate Folds(w: World, states: seq<State>, n: nat)
    requires n < |states|
  {
    Current(w, states[n]) == Serial(w, Current(w, states[0]), Writers(states[n].order, states[n].wrote))
  }

  ghost predicate AlwaysFolds(w: World, rules: Discipline) {
    forall states, steps ::
      Execution(w, states, steps) && Obeys(w, states, steps, rules) ==>
        forall n :: 0 <= n < |states| ==> Folds(w, states, n)
  }

  /** It matters to the outcome whether run r sees the update of run q. */
  ghost predicate Matters(w: World, q: RunId, r: RunId) {
    q != r && w.effect(r, w.effect(q, w.default)) != w.effect(q, w.default)
  }

  /** The lock serialises its runs exactly if sections are shorter than the lease and writes are prompt. */
  lemma SerialExactly(w: World, rules: Discipline, q: RunId, r: RunId)
    requires w.ttl > 0 && Matters(w, q, r)
    ensures AlwaysFolds(w, rules) <==> rules.longest < w.ttl && rules.prompt
  {
    if rules.longest < w.ttl && rules.prompt {
      forall states, steps | Execution(w, states, steps) && Obeys(w, states, steps, rules)
        ensures forall n :: 0 <= n < |states| ==> Folds(w, states, n)
      {
        forall n | 0 <= n < |states| ensures Folds(w, states, n) {
          ObeysIsTimely(w, states, steps, rules);
          Serialisable(w, states, steps, n);
        }
      }
    } else {
      var s;
      if rules.longest >= w.ttl {
        s := OverrunLosesUpdate(w, q, r, rules);
      } else {
        s := LateWriteBreaksOrder(w, q, r, rules);
      }
      LostIsNotFolded(w, rules, q, r, s);
    }
  }

  lemma ObeysIsTimely(w: World, states: seq<State>, steps: seq<Step>, rules: Discipline)
    requires Execution(w, states, steps) && Obeys(w, states, steps, rules) && rules.longest < w.ttl && rules.prompt
    ensures forall i :: 0 <= i < |states| ==> Timely(states[i])
    ensures forall i :: 0 <= i < |steps| ==> Prompt(states[i], steps[i])
  {
    forall i | 0 <= i < |states| ensures Timely(states[i]) {
      assert Brief(w, states[i], rules.longest);
    }
  }

  lemma LostIsNotFolded(w: World, rules: Discipline, q: RunId, r: RunId, s: State)
    requires Reachable(w, s, rules) && UpdateLost(w, s, q, r) && Matters(w, q, r)
    ensures !AlwaysFolds(w, rules)
  {
    var states, steps :| Reaches(w, states, steps, s, rules);
    assert !Folds(w, states, |steps|);
  }
}
