/**
  The life of a memory: a turn stores it at level 2, accesses touch it, evaluation raises it to level 3,
  and garbage collection removes it while it is stale at level 2.

  The store is shared by concurrent turns and the collector, so the run theorems are about every
  interleaving of single store calls; the methods below are the callers that make those calls.
*/
module MemoryLifecycle {
  import opened Wrappers
  import opened Text
  import opened StableSorting
  import opened MemoryStore
  import opened MemoryGc
  import Vectors

  // ---------------------------------------------------------------- Promotion

  datatype Candidate = Candidate(
    memoryId: string, intensity: real, currentLevel: nat, accessFrequency: nat, valenceMagnitude: real)

  datatype Thresholds = Thresholds(intensity: real, frequency: nat, valence: real)

  datatype Decision = Decision(memoryId: string, shouldPromote: bool, targetLevel: nat)

  const PROMOTION := Thresholds(0.9, 10, 0.8)
  const PROMOTION_SCAN_LIMIT := 100

  /** Promotion raises a memory by one level and never past level 3. Below level 3 it takes high intensity, or
      both frequent access and high valence. */
  function Evaluate(c: Candidate, t: Thresholds): (d: Decision)
    ensures d.memoryId == c.memoryId && d.targetLevel <= 3
    ensures d.shouldPromote <==> d.targetLevel > c.currentLevel
    ensures d.shouldPromote ==> d.targetLevel == c.currentLevel + 1
    ensures d.shouldPromote ==>
              c.intensity > t.intensity || (c.accessFrequency > t.frequency && c.valenceMagnitude > t.valence)
    ensures !d.shouldPromote ==>
              || c.currentLevel >= 3
              || (c.intensity <= t.intensity && (c.accessFrequency <= t.frequency || c.valenceMagnitude <= t.valence))
  {
    if c.currentLevel >= 3 then
      Decision(c.memoryId, false, 3)
    else
      var highIntensity := c.intensity > t.intensity;
      var cumulative := c.accessFrequency > t.frequency && c.valenceMagnitude > t.valence;
      var shouldPromote := highIntensity || cumulative;
      var target := if shouldPromote then c.currentLevel + 1 else c.currentLevel;
      Decision(c.memoryId, shouldPromote, if target < 3 then target else 3)
  }

  function EvaluatePromotions(cs: seq<Candidate>, t: Thresholds): seq<Decision> {
    seq(|cs|, i requires 0 <= i < |cs| => Evaluate(cs[i], t))
  }

  // ---------------------------------------------------------------- A turn

  function Decimal(n: nat): string {
    if n < 10 then [(n as char) + '0'] else Decimal(n / 10) + [((n % 10) as char) + '0']
  }

  /** The printed form of a possibly negative number. */
  function Printed(n: int): string {
    if n < 0 then "-" + Decimal(-n) else Decimal(n)
  }

  function TurnId(agentId: string, nowMs: int): string {
    agentId + "-turn-" + Printed(nowMs)
  }

  function FirstComponent(emotion: seq<real>): real {
    if |emotion| > 0 then emotion[0] else 0.0
  }

  function TurnDecision(agentId: string, nowMs: int, intensity: real, emotion: seq<real>): Decision {
    Evaluate(Candidate(TurnId(agentId, nowMs), intensity, 1, 1, Vectors.Abs(FirstComponent(emotion))), PROMOTION)
  }

  /** The memory a promoted turn stores. */
  function TurnMemory(agentId: string, nowMs: int, intensity: real, emotion: seq<real>): Memory {
    Memory(TurnId(agentId, nowMs), "", agentId, 2, false, 0, nowMs, 0, intensity, Vectors.Abs(FirstComponent(emotion)),
           emotion)
  }

  function StoredTurn(agentId: string, nowMs: int, intensity: real, emotion: seq<real>): Memory {
    WithDefaults(TurnMemory(agentId, nowMs, intensity, emotion))
  }

  /** A turn is stored exactly when it is intense: at its first access the cumulative rule cannot apply. */
  method PersistPromotedInteractionMemory(store: MockClient, agentId: string, nowMs: int, intensity: real,
                                          emotion: seq<real>)
    requires store.Valid()
    modifies store
    ensures store.Valid()
    ensures store.memories ==
            if intensity > PROMOTION.intensity && !Blank(agentId, GoSpace)
            then Upserted(old(store.memories), StoredTurn(agentId, nowMs, intensity, emotion))
            else old(store.memories)
    ensures !(intensity > 0.9 && !Blank(agentId, GoSpace)) ==> store.memories == old(store.memories)
    ensures intensity > 0.9 && !Blank(agentId, GoSpace) ==>
              var id := agentId + "-turn-" + Printed(nowMs);
              var created := if nowMs == 0 then 1 else nowMs;
              var valence := if emotion == [] then 0.0 else if emotion[0] < 0.0 then -emotion[0] else emotion[0];
              Lookup(ItemsOf(store.memories, agentId), id)
              == Some(Memory(id, id, agentId, 2, false, 0, created, created, intensity, valence, emotion))
    ensures store.memories != old(store.memories)
            && Fresh(store.hash, old(store.memories), StoredTurn(agentId, nowMs, intensity, emotion)) ==>
              Next(store.hash, old(store.memories), Turn(StoredTurn(agentId, nowMs, intensity, emotion)),
                   store.memories)
  {
    var decision := TurnDecision(agentId, nowMs, intensity, emotion);
    if !decision.shouldPromote || decision.targetLevel < 2 {
      return;
    }
    TurnIdNotBlank(agentId, nowMs);
    StoredTurnFound(ItemsOf(store.memories, agentId), agentId, nowMs, intensity, emotion);
    var _ := store.UpsertMemory(Memory(
      TurnId(agentId, nowMs), "", agentId, decision.targetLevel, decision.targetLevel >= 3, 0, nowMs, 0,
      intensity, Vectors.Abs(FirstComponent(emotion)), emotion));
  }

  lemma StoredTurnFound(items: seq<Memory>, agentId: string, nowMs: int, intensity: real, emotion: seq<real>)
    ensures var id := agentId + "-turn-" + Printed(nowMs);
      var created := if nowMs == 0 then 1 else nowMs;
      var valence := if emotion == [] then 0.0 else if emotion[0] < 0.0 then -emotion[0] else emotion[0];
      Lookup(Upsert(items, StoredTurn(agentId, nowMs, intensity, emotion)), id)
      == Some(Memory(id, id, agentId, 2, false, 0, created, created, intensity, valence, emotion))
  {
    var m := StoredTurn(agentId, nowMs, intensity, emotion);
    LookupAfterUpsert(items, m, m.memoryId);
    assert TurnId(agentId, nowMs)[|agentId|] == '-';
  }

  lemma TurnIdNotBlank(agentId: string, nowMs: int)
    ensures !Blank(TurnId(agentId, nowMs), GoSpace)
  {
    assert TurnId(agentId, nowMs)[|agentId|] == '-';
  }

  // ---------------------------------------------------------------- Runs of the shared store

  datatype Step =
    | Turn(memory: Memory)
    | Touching(latest: map<string, Touch>, at: int)
    | Promote(id: string)
    | Collect(params: GcParams)

  /** No memory of the agent has the identifier or the point of this one. */
  ghost predicate Fresh(hash: string -> string, s: Store, m: Memory) {
    forall x :: x in ItemsOf(s, m.agentId) ==> x.memoryId != m.memoryId && PointId(hash, x) != PointId(hash, m)
  }

  ghost predicate IsTurn(hash: string -> string, s: Store, m: Memory, s': Store) {
    && m.level == 2 && !m.isPseudopermanent
    && Fresh(hash, s, m) && s' == Upserted(s, m)
  }

  /** A level change to 3, by any of the answers the iteration order allows, or none. */
  ghost predicate IsPromotion(hash: string -> string, s: Store, id: string, s': Store) {
    s' == s || exists a, i: nat :: FirstAnswer(hash, s, id, a, i) && s' == Leveled(s, a, i, 3)
  }

  ghost predicate IsCollection(hash: string -> string, s: Store, p: GcParams, s': Store) {
    p.level == 2 && (s' == s || exists order, deleted :: IsBatch(hash, s, p, order, deleted, s'))
  }

  ghost predicate Next(hash: string -> string, s: Store, step: Step, s': Store) {
    match step
    case Turn(m) => IsTurn(hash, s, m, s')
    case Touching(latest, at) => s' == TouchedAll(hash, s, latest, at)
    case Promote(id) => IsPromotion(hash, s, id, s')
    case Collect(p) => IsCollection(hash, s, p, s')
  }

  ghost predicate IsRun(hash: string -> string, ss: seq<Store>, steps: seq<Step>) {
    && |ss| == |steps| + 1
    && forall n :: 0 <= n < |steps| ==> Next(hash, ss[n], steps[n], ss[n + 1])
  }

  // ---------------------------------------------------------------- The invariant

  predicate ProperLevel(m: Memory) {
    (m.level == 2 || m.level == 3) && (m.isPseudopermanent <==> m.level == 3)
  }

  ghost predicate Leveling(s: Store) {
    forall a, m :: a in s && m in s[a] ==> ProperLevel(m)
  }

  ghost predicate Inv(hash: string -> string, s: Store) {
    WellFiled(s) && Leveling(s) && AllDistinct(hash, s)
  }

  /** The agent has a memory at this point with this level. */
  ghost predicate Holds(hash: string -> string, s: Store, a: string, p: string, level: nat) {
    exists i :: 0 <= i < |ItemsOf(s, a)| && PointId(hash, ItemsOf(s, a)[i]) == p && ItemsOf(s, a)[i].level == level
  }

  /** Level 3 is kept. */
  ghost predicate KeepsTop(hash: string -> string, s: Store, s': Store) {
    forall a, p :: Holds(hash, s, a, p, 3) ==> Holds(hash, s', a, p, 3)
  }

  /** A fresh memory is appended to its agent's list. */
  lemma FreshIsAppended(hash: string -> string, s: Store, m: Memory)
    requires Fresh(hash, s, m)
    ensures Upserted(s, m) == s[m.agentId := ItemsOf(s, m.agentId) + [m]]
  {
    var items := ItemsOf(s, m.agentId);
    FindIsFirst(items, m.memoryId);
    assert forall j :: 0 <= j < |items| ==> items[j] in items;
  }

  lemma AppendDistinct(hash: string -> string, items: seq<Memory>, m: Memory)
    requires DistinctPoints(hash, items) && forall x :: x in items ==> PointId(hash, x) != PointId(hash, m)
    ensures DistinctPoints(hash, items + [m])
  {
  }

  lemma TurnInv(hash: string -> string, s: Store, m: Memory, s': Store)
    requires Inv(hash, s) && IsTurn(hash, s, m, s')
    ensures Inv(hash, s')
  {
    FreshIsAppended(hash, s, m);
    AppendDistinct(hash, ItemsOf(s, m.agentId), m);
  }

  lemma TurnKeeps(hash: string -> string, s: Store, m: Memory, s': Store)
    requires Inv(hash, s) && IsTurn(hash, s, m, s')
    ensures Inv(hash, s') && KeepsTop(hash, s, s')
  {
    TurnInv(hash, s, m, s');
    FreshIsAppended(hash, s, m);
    forall a, p | Holds(hash, s, a, p, 3) ensures Holds(hash, s', a, p, 3) {
      var i :| 0 <= i < |ItemsOf(s, a)| && PointId(hash, ItemsOf(s, a)[i]) == p && ItemsOf(s, a)[i].level == 3;
      assert ItemsOf(s', a)[i] == ItemsOf(s, a)[i];
    }
  }

  /** Stores whose lists agree item by item on agent, identifiers and proper levels, none lowered. */
  ghost predicate Refreshed(s: Store, s': Store) {
    && s'.Keys == s.Keys
    && forall a :: a in s ==> |s'[a]| == |s[a]| && forall i :: 0 <= i < |s[a]| ==> SameMemory(s[a][i], s'[a][i])
  }

  predicate SameMemory(m: Memory, n: Memory) {
    && n.agentId == m.agentId && n.memoryId == m.memoryId && n.pointId == m.pointId
    && m.level <= n.level && (ProperLevel(m) ==> ProperLevel(n))
  }

  lemma RefreshedItem(s: Store, s': Store, a: string, m: Memory)
    requires Refreshed(s, s') && WellFiled(s) && Leveling(s) && a in s' && m in s'[a]
    ensures m.agentId == a && ProperLevel(m)
  {
    var i :| 0 <= i < |s'[a]| && s'[a][i] == m;
    assert s[a][i] in s[a];
    assert SameMemory(s[a][i], s'[a][i]);
  }

  lemma RefreshedPoints(hash: string -> string, items: seq<Memory>, items': seq<Memory>)
    requires |items'| == |items| && DistinctPoints(hash, items)
    requires forall i :: 0 <= i < |items| ==> SameMemory(items[i], items'[i])
    ensures DistinctPoints(hash, items')
  {
    assert forall i :: 0 <= i < |items| ==> PointId(hash, items'[i]) == PointId(hash, items[i]);
  }

  lemma RefreshedTop(hash: string -> string, s: Store, s': Store, a: string, p: string)
    requires Refreshed(s, s') && Leveling(s) && Holds(hash, s, a, p, 3)
    ensures Holds(hash, s', a, p, 3)
  {
    var i :| 0 <= i < |ItemsOf(s, a)| && PointId(hash, ItemsOf(s, a)[i]) == p && ItemsOf(s, a)[i].level == 3;
    var m, n := s[a][i], s'[a][i];
    assert m in s[a];
    assert SameMemory(m, n);
    assert PointId(hash, n) == p && n.level == 3;
    assert ItemsOf(s', a)[i] == n;
  }

  lemma RefreshKeeps(hash: string -> string, s: Store, s': Store)
    requires Inv(hash, s) && Refreshed(s, s')
    ensures Inv(hash, s') && KeepsTop(hash, s, s')
  {
    forall a, m | a in s' && m in s'[a] ensures m.agentId == a && ProperLevel(m) {
      RefreshedItem(s, s', a, m);
    }
    forall a | a in s' ensures DistinctPoints(hash, s'[a]) {
      RefreshedPoints(hash, s[a], s'[a]);
    }
    forall a, p | Holds(hash, s, a, p, 3) ensures Holds(hash, s', a, p, 3) {
      RefreshedTop(hash, s, s', a, p);
    }
  }

  lemma TouchRefreshes(hash: string -> string, s: Store, latest: map<string, Touch>, at: int)
    ensures Refreshed(s, TouchedAll(hash, s, latest, at))
  {
  }

  lemma PromotionRefreshes(hash: string -> string, s: Store, id: string, s': Store)
    requires Inv(hash, s) && IsPromotion(hash, s, id, s')
    ensures Refreshed(s, s')
  {
    if s' != s {
      var a, i: nat :| FirstAnswer(hash, s, id, a, i) && s' == Leveled(s, a, i, 3);
      assert s[a][i] in s[a];
      assert ProperLevel(s[a][i]);
    }
  }

  lemma {:induction false} KeepDistinct(hash: string -> string, items: seq<Memory>, gone: set<Key>)
    requires DistinctPoints(hash, items)
    ensures DistinctPoints(hash, Keep(hash, items, gone))
  {
    if items != [] {
      var front, last := items[..|items| - 1], items[|items| - 1];
      KeepDistinct(hash, front, gone);
      var kept := Keep(hash, front, gone);
      forall i | 0 <= i < |kept| ensures PointId(hash, kept[i]) != PointId(hash, last) {
        KeepMembers(hash, front, gone, kept[i]);
        var j :| 0 <= j < |front| && front[j] == kept[i];
        assert items[j] == front[j];
      }
    }
  }

  lemma KeepAllInv(hash: string -> string, s: Store, gone: set<Key>)
    requires Inv(hash, s)
    ensures Inv(hash, KeepAll(hash, s, gone))
  {
    KeepAllWellFiled(hash, s, gone);
    forall a, m | a in s && m in Keep(hash, s[a], gone) ensures ProperLevel(m) {
      KeepMembers(hash, s[a], gone, m);
    }
    forall a | a in s ensures DistinctPoints(hash, Keep(hash, s[a], gone)) {
      KeepDistinct(hash, s[a], gone);
    }
  }

  /** No level-3 memory shares its key with a stale level-2 memory. */
  lemma TopNotDeleted(hash: string -> string, s: Store, p: GcParams, order: seq<Memory>, a: string, m: Memory,
                      n: Memory)
    requires Inv(hash, s) && p.level == 2 && OldestFirst(s, p, order) && n in order
    requires a in s && m in s[a] && m.level == 3
    ensures KeyOf(hash, n) != KeyOf(hash, m)
  {
    OldestFirstMembers(s, p, order, n);
    if n.agentId == a {
      assert DistinctPoints(hash, s[a]);
      DifferentPoints(hash, s[a], m, n);
    }
  }

  /** A batch of stale level-2 memories takes no level-3 memory with it. */
  lemma CollectionKeepsTop(hash: string -> string, s: Store, p: GcParams, order: seq<Memory>, deleted: seq<Memory>,
                           s': Store)
    requires Inv(hash, s) && p.level == 2 && IsBatch(hash, s, p, order, deleted, s')
    ensures KeepsTop(hash, s, s')
  {
    forall a, q | Holds(hash, s, a, q, 3) ensures Holds(hash, s', a, q, 3) {
      var i :| 0 <= i < |ItemsOf(s, a)| && PointId(hash, ItemsOf(s, a)[i]) == q && ItemsOf(s, a)[i].level == 3;
      var m := s[a][i];
      forall n | n in deleted ensures KeyOf(hash, n) != KeyOf(hash, m) {
        assert n in order;
        TopNotDeleted(hash, s, p, order, a, m, n);
      }
      KeepMembers(hash, s[a], KeysOf(hash, deleted), m);
      var k :| 0 <= k < |s'[a]| && s'[a][k] == m;
      assert ItemsOf(s', a)[k] == m;
    }
  }

  lemma StepKeeps(hash: string -> string, s: Store, step: Step, s': Store)
    requires Inv(hash, s) && Next(hash, s, step, s')
    ensures Inv(hash, s') && KeepsTop(hash, s, s')
  {
    match step
    case Turn(m) =>
      TurnKeeps(hash, s, m, s');
    case Touching(latest, at) =>
      TouchRefreshes(hash, s, latest, at);
      RefreshKeeps(hash, s, s');
    case Promote(id) =>
      PromotionRefreshes(hash, s, id, s');
      RefreshKeeps(hash, s, s');
    case Collect(p) =>
      if s' != s {
        var order, deleted :| IsBatch(hash, s, p, order, deleted, s');
        CollectionKeepsTop(hash, s, p, order, deleted, s');
        KeepAllInv(hash, s, KeysOf(hash, deleted));
      }
  }

  lemma KeepsTopTwice(hash: string -> string, s: Store, mid: Store, s': Store)
    requires KeepsTop(hash, s, mid) && KeepsTop(hash, mid, s')
    ensures KeepsTop(hash, s, s')
  {
  }

  ghost predicate KeepsTopNext(hash: string -> string, ss: seq<Store>, n: int) {
    0 <= n < |ss| - 1 && KeepsTop(hash, ss[n], ss[n + 1])
  }

  lemma {:induction false} KeepsTopAlong(hash: string -> string, ss: seq<Store>, i: nat, j: nat)
    requires i <= j < |ss| && forall n :: i <= n < j ==> KeepsTopNext(hash, ss, n)
    ensures KeepsTop(hash, ss[i], ss[j])
    decreases j
  {
    if i < j {
      KeepsTopAlong(hash, ss, i, j - 1);
      assert KeepsTopNext(hash, ss, j - 1);
      KeepsTopTwice(hash, ss[i], ss[j - 1], ss[j]);
    }
  }

  lemma StepOfRun(hash: string -> string, ss: seq<Store>, steps: seq<Step>, n: nat)
    requires IsRun(hash, ss, steps) && n < |steps| && Inv(hash, ss[n])
    ensures Inv(hash, ss[n + 1]) && KeepsTopNext(hash, ss, n)
  {
    StepKeeps(hash, ss[n], steps[n], ss[n + 1]);
  }

  lemma {:induction false} RunInv(hash: string -> string, ss: seq<Store>, steps: seq<Step>, n: nat)
    requires IsRun(hash, ss, steps) && Inv(hash, ss[0]) && n < |ss|
    ensures Inv(hash, ss[n])
  {
    if n > 0 {
      RunInv(hash, ss, steps, n - 1);
      StepOfRun(hash, ss, steps, n - 1);
    }
  }

  /** Every store of a run is proper, and level-3 memories stay to its end. */
  lemma RunKeeps(hash: string -> string, ss: seq<Store>, steps: seq<Step>, i: nat, j: nat)
    requires IsRun(hash, ss, steps) && Inv(hash, ss[0]) && i <= j < |ss|
    ensures Inv(hash, ss[i]) && Inv(hash, ss[j]) && KeepsTop(hash, ss[i], ss[j])
  {
    RunInv(hash, ss, steps, i);
    RunInv(hash, ss, steps, j);
    forall n | i <= n < j ensures KeepsTopNext(hash, ss, n) {
      RunInv(hash, ss, steps, n);
      StepOfRun(hash, ss, steps, n);
    }
    KeepsTopAlong(hash, ss, i, j);
  }

  /** The life cycle: along every run each stored memory has level 2 or 3 and is pseudopermanent exactly
      at level 3, no point of an agent is ever seen at a lower level than before, and what has reached
      level 3 is never removed. */
  lemma Lifecycle(hash: string -> string, ss: seq<Store>, steps: seq<Step>, i: nat, j: nat, a: string, m: Memory)
    requires IsRun(hash, ss, steps) && ss[0] == map[] && i <= j < |ss|
    requires m in ItemsOf(ss[i], a)
    ensures ProperLevel(m)
    ensures m.level == 3 ==> Holds(hash, ss[j], a, PointId(hash, m), 3)
    ensures forall n :: n in ItemsOf(ss[j], a) && PointId(hash, n) == PointId(hash, m) ==> n.level >= m.level
  {
    RunKeeps(hash, ss, steps, i, j);
    assert m in ss[i][a];
    if m.level == 3 {
      var k :| 0 <= k < |ItemsOf(ss[i], a)| && ItemsOf(ss[i], a)[k] == m;
      assert Holds(hash, ss[i], a, PointId(hash, m), 3);
      TopIsOnly(hash, ss[j], a, PointId(hash, m));
    } else {
      assert forall n :: n in ItemsOf(ss[j], a) ==> ProperLevel(n);
    }
  }

  lemma TopIsOnly(hash: string -> string, s: Store, a: string, p: string)
    requires Inv(hash, s) && Holds(hash, s, a, p, 3)
    ensures forall n :: n in ItemsOf(s, a) && PointId(hash, n) == p ==> n.level == 3
  {
    var i :| 0 <= i < |ItemsOf(s, a)| && PointId(hash, ItemsOf(s, a)[i]) == p && ItemsOf(s, a)[i].level == 3;
    forall n | n in ItemsOf(s, a) && PointId(hash, n) == p ensures n.level == 3 {
      var j :| 0 <= j < |s[a]| && s[a][j] == n;
      assert DistinctPoints(hash, s[a]);
      assert i == j;
    }
  }

  // ---------------------------------------------------------------- Repeated identifiers

  /** Freshness is needed: a stored turn leaves the level-3 memories of a proper store in place exactly
      when its identifier is not that of one of them. Two turns of an agent in one millisecond have
      the same identifier. */
  lemma RepeatedTurnDropsLevel(hash: string -> string, s: Store, m: Memory)
    requires Inv(hash, s) && m.level == 2
    ensures (forall x :: x in ItemsOf(s, m.agentId) && x.level == 3 ==> x in ItemsOf(Upserted(s, m), m.agentId))
            <==> !(exists x :: Lookup(ItemsOf(s, m.agentId), m.memoryId) == Some(x) && x.level == 3)
  {
    var items := ItemsOf(s, m.agentId);
    var n := Find(items, m.memoryId);
    FindIsFirst(items, m.memoryId);
    if n < |items| && items[n].level == 3 {
      assert items[n] in items && DistinctPoints(hash, items);
      assert items[n] !in items[n := m];
      assert Lookup(items, m.memoryId) == Some(items[n]);
    } else {
      forall x | x in items && x.level == 3 ensures x in Upsert(items, m) {
        var k :| 0 <= k < |items| && items[k] == x;
        assert Upsert(items, m)[k] == x;
      }
    }
  }

  /** In detail: a turn that was stored and raised is back at level 2 after another intense turn of the
      same agent in the same millisecond. */
  lemma SecondTurnInMillisecond(agentId: string, nowMs: int, x: real, e: seq<real>, y: real, f: seq<real>)
    ensures var first := Upserted(map[], StoredTurn(agentId, nowMs, x, e));
            var raised := Leveled(first, agentId, 0, 3);
            raised[agentId][0].level == 3
              && Upserted(raised, StoredTurn(agentId, nowMs, y, f)) == Upserted(map[], StoredTurn(agentId, nowMs, y, f))
  {
    var one, two := StoredTurn(agentId, nowMs, x, e), StoredTurn(agentId, nowMs, y, f);
    var first := Upserted(map[], one);
    assert Upsert([], one) == [one] && Upsert([], two) == [two];
    assert first[agentId] == [one] && Upserted(map[], two) == map[agentId := [two]];
    var raised := Leveled(first, agentId, 0, 3);
    assert raised.Keys == {agentId} && raised[agentId] == [AtNewLevel(one, 3)];
    assert Upsert(raised[agentId], two) == [two];
    assert Upserted(raised, two) == map[agentId := [two]];
  }

  // ---------------------------------------------------------------- Evaluation of level 2

  /** The name under which a memory is sent to be evaluated. */
  function Target(m: Memory): string {
    if m.pointId != "" then m.pointId else m.memoryId
  }

  function CandidateOf(m: Memory): Candidate {
    Candidate(Target(m), m.intensity, m.level, m.accessCount, m.valenceMagnitude)
  }

  predicate Qualifies(m: Memory) {
    m.intensity > PROMOTION.intensity || (m.accessCount > PROMOTION.frequency && m.valenceMagnitude > PROMOTION.valence)
  }

  function Qualifying(ms: seq<Memory>): seq<Memory> {
    if ms == [] then []
    else
      var last := ms[|ms| - 1];
      Qualifying(ms[..|ms| - 1]) + if Qualifies(last) then [last] else []
  }

  /** The items with those in `ms` raised to level 3. */
  function Raised(items: seq<Memory>, ms: seq<Memory>): seq<Memory> {
    seq(|items|, i requires 0 <= i < |items| => if items[i] in ms then AtNewLevel(items[i], 3) else items[i])
  }

  function RaisedStore(s: Store, a: string, ms: seq<Memory>): Store {
    if a in s then s[a := Raised(s[a], ms)] else s
  }

  /** The name of each memory of the agent is not blank, and among all memories only it answers. A memory
      stored under its own identifier as point, as turns are, answers to its name. */
  ghost predicate Addressable(hash: string -> string, s: Store, a: string) {
    forall i :: 0 <= i < |ItemsOf(s, a)| ==> OnlyAnswer(hash, s, Target(ItemsOf(s, a)[i]), a, i)
  }

  ghost predicate OnlyAnswer(hash: string -> string, s: Store, id: string, a: string, i: int) {
    && !Blank(id, GoSpace)
    && a in s && 0 <= i < |s[a]| && Answers(hash, s[a][i], id)
    && forall b, j :: b in s && 0 <= j < |s[b]| && Answers(hash, s[b][j], id) ==> b == a && j == i
  }

  /** Levels may have been set to 3; nothing else changed. */
  ghost predicate OnlyRaised(s: Store, s': Store) {
    && s'.Keys == s.Keys
    && forall a :: a in s ==> ItemsRaised(s[a], s'[a])
  }

  ghost predicate ItemsRaised(items: seq<Memory>, items': seq<Memory>) {
    && |items'| == |items|
    && forall i :: 0 <= i < |items| ==> items'[i] == items[i] || items'[i] == AtNewLevel(items[i], 3)
  }

  lemma NewestMembers(items: seq<Memory>, level: nat, limit: int, m: Memory)
    requires m in Newest(items, level, limit)
    ensures m in items && m.level == level
  {
    SortKeepsMembers(AtLevel(items, level), NEWER, m);
    AtLevelMembers(items, level, m);
  }

  lemma RaiseOneItem(items: seq<Memory>, done: seq<Memory>, i: nat)
    requires i < |items| && forall k :: 0 <= k < |items| && items[k] == items[i] ==> k == i
    ensures Raised(items, done)[i := AtNewLevel(Raised(items, done)[i], 3)] == Raised(items, done + [items[i]])
  {
  }

  /** The first memory to answer to the name of an addressable one is that memory. */
  lemma FirstIsItself(hash: string -> string, s: Store, a: string, done: seq<Memory>, m: Memory, b: string, j: nat)
    requires Addressable(hash, s, a) && m in ItemsOf(s, a)
    requires FirstAnswer(hash, RaisedStore(s, a, done), Target(m), b, j)
    ensures b == a && a in s && j < |s[a]| && s[a][j] == m
    ensures forall k :: 0 <= k < |s[a]| && s[a][k] == m ==> k == j
  {
    var i :| 0 <= i < |s[a]| && s[a][i] == m;
    assert OnlyAnswer(hash, s, Target(m), a, i);
    assert Answers(hash, s[b][j], Target(m));
    forall k | 0 <= k < |s[a]| && s[a][k] == m ensures k == i {
      assert Answers(hash, s[a][k], Target(m));
    }
  }

  /** Raising one more addressable memory. */
  lemma RaiseOneMore(hash: string -> string, s: Store, a: string, done: seq<Memory>, m: Memory, b: string, j: nat)
    requires Addressable(hash, s, a) && m in ItemsOf(s, a)
    requires FirstAnswer(hash, RaisedStore(s, a, done), Target(m), b, j)
    ensures Leveled(RaisedStore(s, a, done), b, j, 3) == RaisedStore(s, a, done + [m])
  {
    FirstIsItself(hash, s, a, done, m, b, j);
    RaiseOneItem(s[a], done, j);
  }

  lemma StillAnswered(hash: string -> string, s: Store, a: string, done: seq<Memory>, m: Memory)
    requires Addressable(hash, s, a) && m in ItemsOf(s, a)
    ensures !Blank(Target(m), GoSpace) && Answered(hash, RaisedStore(s, a, done), Target(m))
  {
    var i :| 0 <= i < |s[a]| && s[a][i] == m;
    assert OnlyAnswer(hash, s, Target(m), a, i);
    var r := RaisedStore(s, a, done);
    assert Answers(hash, r[a][i], Target(m));
  }

  lemma RaiseKeepsRaised(s: Store, s1: Store, a: string, i: nat)
    requires OnlyRaised(s, s1) && a in s1 && i < |s1[a]|
    ensures OnlyRaised(s, Leveled(s1, a, i, 3))
  {
    var s2 := Leveled(s1, a, i, 3);
    forall b | b in s ensures ItemsRaised(s[b], s2[b]) {
      assert ItemsRaised(s[b], s1[b]);
    }
  }

  /** A level change to 3 under a name: of the first memory to answer in the list of some agent that has one, and of
      none if the name is blank or nothing answers. */
  ghost predicate RaisesNamed(hash: string -> string, s: Store, id: string, s': Store) {
    if Blank(id, GoSpace) || !Answered(hash, s, id) then s' == s
    else exists a, i: nat :: FirstAnswer(hash, s, id, a, i) && s' == Leveled(s, a, i, 3)
  }

  /** Such changes under the names of the memories, one after the other. */
  ghost predicate RaisesAll(hash: string -> string, s: Store, ms: seq<Memory>, s': Store) {
    if ms == [] then s' == s
    else
      var front, last := ms[..|ms| - 1], ms[|ms| - 1];
      var name := if last.pointId != "" then last.pointId else last.memoryId;
      exists mid :: RaisesAll(hash, s, front, mid) && RaisesNamed(hash, mid, name, s')
  }

  lemma RaisesOneMore(hash: string -> string, s: Store, ms: seq<Memory>, mid: Store, m: Memory, s': Store)
    requires RaisesAll(hash, s, ms, mid) && RaisesNamed(hash, mid, Target(m), s')
    ensures RaisesAll(hash, s, ms + [m], s')
  {
    assert (ms + [m])[..|ms|] == ms;
  }

  /** The state after the first n decisions. */
  ghost predicate Evaluated(hash: string -> string, s: Store, a: string, ms: seq<Memory>, n: nat, s': Store) {
    && OnlyRaised(s, s') && (n <= |ms| ==> RaisesAll(hash, s, Qualifying(ms[..n]), s'))
    && (Addressable(hash, s, a) && n <= |ms| ==> s' == RaisedStore(s, a, Qualifying(ms[..n])))
  }

  lemma EvaluatedStart(hash: string -> string, s: Store, a: string, ms: seq<Memory>)
    ensures Evaluated(hash, s, a, ms, 0, s)
  {
    if a in s {
      assert Raised(s[a], Qualifying(ms[..0])) == s[a];
    }
  }

  lemma EvaluatedPass(hash: string -> string, s: Store, a: string, ms: seq<Memory>, n: nat, s': Store)
    requires Evaluated(hash, s, a, ms, n, s') && n < |ms| && !Qualifies(ms[n])
    ensures Evaluated(hash, s, a, ms, n + 1, s')
  {
    assert ms[..n + 1][..n] == ms[..n];
    assert Qualifying(ms[..n + 1]) == Qualifying(ms[..n]);
  }

  lemma QualifyingNext(ms: seq<Memory>, n: nat)
    requires n < |ms| && Qualifies(ms[n])
    ensures Qualifying(ms[..n + 1]) == Qualifying(ms[..n]) + [ms[n]]
  {
    assert ms[..n + 1][..n] == ms[..n];
  }

  lemma EvaluatedRaise(hash: string -> string, s: Store, a: string, ms: seq<Memory>, n: nat, s1: Store, b: string,
                       j: nat, s2: Store)
    requires Evaluated(hash, s, a, ms, n, s1) && n < |ms| && Qualifies(ms[n]) && ms[n] in ItemsOf(s, a)
    requires !Blank(Target(ms[n]), GoSpace) && FirstAnswer(hash, s1, Target(ms[n]), b, j) && s2 == Leveled(s1, b, j, 3)
    ensures Evaluated(hash, s, a, ms, n + 1, s2)
  {
    RaiseKeepsRaised(s, s1, b, j);
    QualifyingNext(ms, n);
    assert Answered(hash, s1, Target(ms[n])) && RaisesNamed(hash, s1, Target(ms[n]), s2);
    RaisesOneMore(hash, s, Qualifying(ms[..n]), s1, ms[n], s2);
    if Addressable(hash, s, a) {
      RaiseOneMore(hash, s, a, Qualifying(ms[..n]), ms[n], b, j);
    }
  }

  lemma EvaluatedMiss(hash: string -> string, s: Store, a: string, ms: seq<Memory>, n: nat, s': Store)
    requires Evaluated(hash, s, a, ms, n, s') && n < |ms| && Qualifies(ms[n]) && ms[n] in ItemsOf(s, a)
    requires Blank(Target(ms[n]), GoSpace) || !Answered(hash, s', Target(ms[n]))
    ensures Evaluated(hash, s, a, ms, n + 1, s')
  {
    QualifyingNext(ms, n);
    RaisesOneMore(hash, s, Qualifying(ms[..n]), s', ms[n], s');
    if Addressable(hash, s, a) {
      StillAnswered(hash, s, a, Qualifying(ms[..n]), ms[n]);
    }
  }

  lemma {:induction false} QualifyingMembers(ms: seq<Memory>, m: Memory)
    ensures m in Qualifying(ms) <==>
            m in ms && (m.intensity > 0.9 || (m.accessCount > 10 && m.valenceMagnitude > 0.8))
  {
    if ms != [] {
      QualifyingMembers(ms[..|ms| - 1], m);
      assert ms == ms[..|ms| - 1] + [ms[|ms| - 1]];
    }
  }

  /** Which memories of the agent are at level 3 after evaluation where names address them: those that were, and of
      its newest hundred at level 2 those that are intense, or both often accessed and of high valence. */
  lemma RaisedExactly(s: Store, a: string, i: nat)
    requires a in s && i < |s[a]|
    ensures var s' := RaisedStore(s, a, Qualifying(Newest(s[a], 2, 100)));
      && s'.Keys == s.Keys && |s'[a]| == |s[a]| && (forall b :: b in s && b != a ==> s'[b] == s[b])
      && s'[a][i] == (if s[a][i] in Newest(s[a], 2, 100)
                         && (s[a][i].intensity > 0.9 || (s[a][i].accessCount > 10 && s[a][i].valenceMagnitude > 0.8))
                      then s[a][i].(level := 3, isPseudopermanent := true) else s[a][i])
  {
    QualifyingMembers(Newest(s[a], 2, 100), s[a][i]);
  }

  /** The names of those that qualify among the agent's newest hundred level-2 memories are raised to level 3
      one after the other, each at the memory that answers to it. Where names address their memories, these
      memories are raised and nothing else; in every case only levels change, and only to 3. */
  method EvaluateL2Promotions(store: MockClient, agentId: string)
    requires store.Valid()
    modifies store
    ensures store.Valid()
    ensures OnlyRaised(old(store.memories), store.memories)
    ensures RaisesAll(store.hash, old(store.memories),
                      Qualifying(Newest(ItemsOf(old(store.memories), agentId), 2, 100)),
                      store.memories)
    ensures Addressable(store.hash, old(store.memories), agentId) ==>
              store.memories == RaisedStore(old(store.memories), agentId,
                Qualifying(Newest(ItemsOf(old(store.memories), agentId), 2, 100)))
  {
    ghost var start := store.memories;
    var ms := store.GetMemoriesByLevel(agentId, 2, PROMOTION_SCAN_LIMIT);
    var decisions := EvaluatePromotions(seq(|ms|, i requires 0 <= i < |ms| => CandidateOf(ms[i])), PROMOTION);
    EvaluatedStart(store.hash, start, agentId, ms);
    for n := 0 to |decisions|
      invariant store.Valid() && Evaluated(store.hash, start, agentId, ms, n, store.memories)
    {
      NewestMembers(ItemsOf(start, agentId), 2, PROMOTION_SCAN_LIMIT, ms[n]);
      if !decisions[n].shouldPromote || decisions[n].targetLevel < 3 {
        EvaluatedPass(store.hash, start, agentId, ms, n, store.memories);
      } else {
        ghost var before := store.memories;
        var r, b, j := store.UpdateMemoryLevel(decisions[n].memoryId, decisions[n].targetLevel);
        if r.Success? {
          EvaluatedRaise(store.hash, start, agentId, ms, n, before, b, j, store.memories);
        } else {
          EvaluatedMiss(store.hash, start, agentId, ms, n, before);
        }
      }
    }
    assert ms[..|ms|] == ms;
  }
}
