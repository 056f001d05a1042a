/**
  The garbage collection of level-2 memories: a loop that deletes stale memories in batches until a
  batch comes back short. One pass is proved to be a one-shot filter at its last reading of the clock,
  whatever the batch size up to the store's own limit and whatever order the maps are iterated in;
  above that limit it is proved to stop after its first batch.

  Errors of the store are those of the in-memory implementation; the clock does not run backwards.
*/
module MemoryGc {
  import opened Wrappers
  import opened StableSorting
  import opened MemoryStore

  datatype GcConfig = GcConfig(l2MaxAgeMs: int, l2AccessCountThreshold: nat, batchSize: int)

  function Params(cfg: GcConfig, nowMs: int): GcParams {
    GcParams(2, nowMs - cfg.l2MaxAgeMs, cfg.l2AccessCountThreshold, cfg.batchSize)
  }

  /** The keys of the stale memories. */
  ghost function Doomed(hash: string -> string, store: Store, p: GcParams): set<Key> {
    set a, m | a in store && m in store[a] && Stale(m, p) :: KeyOf(hash, m)
  }

  lemma DoomedOfBatch(hash: string -> string, store: Store, p: GcParams, order: seq<Memory>)
    requires WellFiled(store) && OldestFirst(store, p, order)
    ensures Doomed(hash, store, p) == KeysOf(hash, order)
  {
    forall k | k in Doomed(hash, store, p) ensures k in KeysOf(hash, order) {
      var a, m :| a in store && m in store[a] && Stale(m, p) && k == KeyOf(hash, m);
      OldestFirstMembers(store, p, order, m);
    }
    forall m | m in order ensures KeyOf(hash, m) in Doomed(hash, store, p) {
      OldestFirstMembers(store, p, order, m);
    }
  }

  /** Deleting by key takes exactly the deleted keys out of the stale ones. */
  lemma DoomedAfter(hash: string -> string, store: Store, p: GcParams, gone: set<Key>)
    ensures Doomed(hash, KeepAll(hash, store, gone), p) == Doomed(hash, store, p) - gone
  {
    var after := KeepAll(hash, store, gone);
    forall k | k in Doomed(hash, after, p) ensures k in Doomed(hash, store, p) - gone {
      var a, m :| a in after && m in after[a] && Stale(m, p) && k == KeyOf(hash, m);
      KeepMembers(hash, store[a], gone, m);
    }
    forall k | k in Doomed(hash, store, p) - gone ensures k in Doomed(hash, after, p) {
      var a, m :| a in store && m in store[a] && Stale(m, p) && k == KeyOf(hash, m);
      KeepMembers(hash, store[a], gone, m);
      assert m in after[a];
    }
  }

  lemma FirstKeys(hash: string -> string, order: seq<Memory>, n: nat)
    requires n <= |order|
    ensures KeysOf(hash, order[..n]) <= KeysOf(hash, order)
  {
    assert forall m :: m in order[..n] ==> m in order;
  }

  /** One more batch on top of what is gone already. */
  lemma NextBatch(hash: string -> string, store: Store, p: GcParams, gone: set<Key>,
                  order: seq<Memory>, deleted: seq<Memory>, after: Store)
    requires WellFiled(store) && IsBatch(hash, KeepAll(hash, store, gone), p, order, deleted, after)
    ensures after == KeepAll(hash, store, gone + KeysOf(hash, deleted))
    ensures KeysOf(hash, deleted) <= Doomed(hash, store, p) - gone
    ensures deleted == order ==> gone + KeysOf(hash, deleted) >= Doomed(hash, store, p)
  {
    KeepAllWellFiled(hash, store, gone);
    KeepAllTwice(hash, store, gone, KeysOf(hash, deleted));
    DoomedOfBatch(hash, KeepAll(hash, store, gone), p, order);
    DoomedAfter(hash, store, p, gone);
    FirstKeys(hash, order, |deleted|);
  }

  /** What a finished pass leaves of the store it found, for the parameters of its last batch. With a batch
      size up to the store's limit that is all but the stale keys. Above the limit it is all but the
      first batch of `order`, an oldest-first listing of what was stale. */
  ghost predicate PassResult(hash: string -> string, start: Store, p: GcParams, order: seq<Memory>, after: Store) {
    if p.limit <= MAX_SCROLL_LIMIT then after == KeepAll(hash, start, Doomed(hash, start, p))
    else OldestFirst(start, p, order) && after == KeepAll(hash, start, KeysOf(hash, Take(order, MAX_SCROLL_LIMIT)))
  }

  /** Between two batches: only keys that are stale by now are gone. */
  ghost predicate MidPass(hash: string -> string, start: Store, p: GcParams, gone: set<Key>, store: Store) {
    && store == KeepAll(hash, start, gone)
    && gone <= Doomed(hash, start, p)
    && (p.limit > MAX_SCROLL_LIMIT ==> gone == {})
  }

  /** What a pass that was cut short leaves. */
  ghost predicate PartialResult(hash: string -> string, start: Store, p: GcParams, after: Store) {
    exists gone :: MidPass(hash, start, p, gone, after)
  }

  lemma PartialWitness(hash: string -> string, start: Store, p: GcParams, gone: set<Key>, after: Store)
    requires MidPass(hash, start, p, gone, after)
    ensures PartialResult(hash, start, p, after)
  {
  }

  /** The clock does not run backwards. */
  ghost predicate Advances(now: nat -> int) {
    forall i, j :: i <= j ==> now(i) <= now(j)
  }

  lemma ClockAdvances(now: nat -> int, i: nat)
    requires Advances(now)
    ensures now(i) <= now(i + 1)
  {
  }

  lemma PassStarts(hash: string -> string, start: Store, p: GcParams)
    ensures MidPass(hash, start, p, {}, start)
  {
    KeepAllNone(hash, start);
  }

  /** As time passes, what is stale stays stale. */
  lemma TimePasses(hash: string -> string, start: Store, cfg: GcConfig, t: int, u: int, gone: set<Key>, store: Store)
    requires MidPass(hash, start, Params(cfg, t), gone, store) && t <= u
    ensures MidPass(hash, start, Params(cfg, u), gone, store)
  {
    forall k | k in gone ensures k in Doomed(hash, start, Params(cfg, u)) {
      var a, m :| a in start && m in start[a] && Stale(m, Params(cfg, t)) && k == KeyOf(hash, m);
      assert Stale(m, Params(cfg, u));
    }
  }

  /** An empty or short batch ends the pass. */
  lemma PassEnds(hash: string -> string, start: Store, p: GcParams, gone: set<Key>, store: Store,
                 order: seq<Memory>, deleted: seq<Memory>, after: Store)
    requires WellFiled(start) && MidPass(hash, start, p, gone, store)
    requires IsBatch(hash, store, p, order, deleted, after) && (|deleted| == 0 || |deleted| < p.limit)
    ensures PassResult(hash, start, p, order, after)
  {
    NextBatch(hash, start, p, gone, order, deleted, after);
    if p.limit <= MAX_SCROLL_LIMIT {
      assert deleted == order;
      assert gone + KeysOf(hash, deleted) == Doomed(hash, start, p);
    } else {
      KeepAllNone(hash, start);
    }
  }

  ghost function AllKeys(hash: string -> string, store: Store): set<Key> {
    set a, m | a in store && m in store[a] :: KeyOf(hash, m)
  }

  /** A full batch makes progress. */
  lemma PassContinues(hash: string -> string, start: Store, p: GcParams, gone: set<Key>, store: Store,
                      order: seq<Memory>, deleted: seq<Memory>, after: Store)
    requires WellFiled(start) && MidPass(hash, start, p, gone, store)
    requires IsBatch(hash, store, p, order, deleted, after) && |deleted| != 0 && |deleted| >= p.limit
    ensures MidPass(hash, start, p, gone + KeysOf(hash, deleted), after)
    ensures AllKeys(hash, start) - (gone + KeysOf(hash, deleted)) < AllKeys(hash, start) - gone
  {
    NextBatch(hash, start, p, gone, order, deleted, after);
    assert Doomed(hash, start, p) <= AllKeys(hash, start);
    assert KeyOf(hash, deleted[0]) in KeysOf(hash, deleted);
    assert KeyOf(hash, deleted[0]) in AllKeys(hash, start) - gone;
  }

  datatype PassEnd = Finished | Refused | Cancelled

  /** One batch of a pass: nothing if the store refuses, the end of the pass, or progress. */
  method Batch(store: MockClient, p: GcParams, ghost start: Store, ghost gone: set<Key>)
    returns (end: Option<PassEnd>, ghost order: seq<Memory>, ghost gone': set<Key>)
    requires store.Valid() && WellFiled(start) && MidPass(store.hash, start, p, gone, store.memories) && p.level == 2
    modifies store
    ensures store.Valid()
    ensures end.None? || end == Some(Finished) || end == Some(Refused)
    ensures end == Some(Refused) <==> p.createdBeforeMs == 0
    ensures end == Some(Finished) ==> PassResult(store.hash, start, p, order, store.memories)
    ensures end != Some(Finished) ==> MidPass(store.hash, start, p, gone', store.memories)
    ensures end.None? ==> AllKeys(store.hash, start) - gone' < AllKeys(store.hash, start) - gone
  {
    ghost var before := store.memories;
    var r, batchOrder := store.DeleteStaleMemories(p);
    order, gone' := batchOrder, gone;
    if r.Failure? {
      return Some(Refused), order, gone';
    }
    if |r.value| == 0 || |r.value| < p.limit {
      PassEnds(store.hash, start, p, gone, before, order, r.value, store.memories);
      return Some(Finished), order, gone';
    }
    PassContinues(store.hash, start, p, gone, before, order, r.value, store.memories);
    return None, order, gone + KeysOf(store.hash, r.value);
  }

  /** The context had not been cancelled before batch n. */
  ghost predicate NotBefore(cancelled: nat -> bool, n: nat) {
    forall i :: 0 <= i < n ==> !cancelled(i)
  }

  lemma NotBeforeNext(cancelled: nat -> bool, n: nat)
    requires NotBefore(cancelled, n) && !cancelled(n)
    ensures NotBefore(cancelled, n + 1)
  {
  }

  /** The loop of a pass over its batches. */
  method CollectBatches(store: MockClient, cfg: GcConfig, now: nat -> int, cancelled: nat -> bool)
    returns (end: PassEnd, ghost last: nat, ghost order: seq<Memory>)
    requires store.Valid() && Advances(now)
    modifies store
    ensures store.Valid()
    ensures end.Finished? ==> PassResult(store.hash, old(store.memories), Params(cfg, now(last)), order, store.memories)
    ensures !end.Finished? ==> PartialResult(store.hash, old(store.memories), Params(cfg, now(last)), store.memories)
    ensures !end.Cancelled? ==> (end.Refused? <==> now(last) == cfg.l2MaxAgeMs)
    ensures (end.Cancelled? <==> cancelled(last)) && NotBefore(cancelled, last)
  {
    ghost var start, gone: set<Key> := store.memories, {};
    var i: nat := 0;
    order, last := [], 0;
    PassStarts(store.hash, start, Params(cfg, now(0)));
    while true
      invariant store.Valid() && MidPass(store.hash, start, Params(cfg, now(i)), gone, store.memories)
      invariant NotBefore(cancelled, i)
      decreases AllKeys(store.hash, start) - gone
    {
      last := i;
      PartialWitness(store.hash, start, Params(cfg, now(i)), gone, store.memories);
      if cancelled(i) {
        end := Cancelled;
        return;
      }
      var stop, batchOrder, more := Batch(store, Params(cfg, now(i)), start, gone);
      order := batchOrder;
      if stop.Some? {
        if stop != Some(Finished) {
          PartialWitness(store.hash, start, Params(cfg, now(i)), more, store.memories);
        }
        end := stop.value;
        return;
      }
      gone := more;
      NotBeforeNext(cancelled, i);
      ClockAdvances(now, i);
      TimePasses(store.hash, start, cfg, now(i), now(i + 1), gone, store.memories);
      i := i + 1;
    }
  }

  // ---------------------------------------------------------------- The pass in its own terms

  /** A level-2 memory that is old enough at time t and was not accessed often enough, if that is asked for. */
  predicate Removable(cfg: GcConfig, t: int, m: Memory) {
    && m.level == 2 && m.createdAtMs <= t - cfg.l2MaxAgeMs
    && (cfg.l2AccessCountThreshold == 0 || m.accessCount < cfg.l2AccessCountThreshold)
  }

  /** Some removable memory of the agent has the point of this one. */
  ghost predicate SharesPoint(hash: string -> string, items: seq<Memory>, cfg: GcConfig, t: int, m: Memory) {
    exists n :: n in items && Removable(cfg, t, n) && PointId(hash, n) == PointId(hash, m)
  }

  /** Nothing came, and whatever went shared agent and point with a removable memory. */
  ghost predicate OnlyRemovableGone(hash: string -> string, start: Store, cfg: GcConfig, t: int, after: Store) {
    && (forall a, m :: m in ItemsOf(after, a) ==> m in ItemsOf(start, a))
    && forall a, m :: m in ItemsOf(start, a) && m !in ItemsOf(after, a) ==>
         SharesPoint(hash, ItemsOf(start, a), cfg, t, m)
  }

  ghost predicate NothingRemovable(cfg: GcConfig, t: int, after: Store) {
    forall a, m :: m in ItemsOf(after, a) ==> !Removable(cfg, t, m)
  }

  lemma StaleIsRemovable(cfg: GcConfig, t: int, m: Memory)
    ensures Stale(m, Params(cfg, t)) <==> Removable(cfg, t, m)
  {
  }

  lemma GoneShares(hash: string -> string, start: Store, cfg: GcConfig, t: int, a: string, m: Memory)
    requires WellFiled(start) && m in ItemsOf(start, a) && KeyOf(hash, m) in Doomed(hash, start, Params(cfg, t))
    ensures SharesPoint(hash, ItemsOf(start, a), cfg, t, m)
  {
    var b, n :| b in start && n in start[b] && Stale(n, Params(cfg, t)) && KeyOf(hash, m) == KeyOf(hash, n);
    StaleIsRemovable(cfg, t, n);
    assert a == m.agentId == n.agentId == b;
  }

  lemma KeptItems(hash: string -> string, start: Store, gone: set<Key>, a: string, m: Memory)
    ensures m in ItemsOf(KeepAll(hash, start, gone), a) <==> m in ItemsOf(start, a) && KeyOf(hash, m) !in gone
  {
    if a in start {
      KeepMembers(hash, start[a], gone, m);
    }
  }

  lemma GoneWasRemovable(hash: string -> string, start: Store, cfg: GcConfig, t: int, gone: set<Key>)
    requires WellFiled(start) && gone <= Doomed(hash, start, Params(cfg, t))
    ensures OnlyRemovableGone(hash, start, cfg, t, KeepAll(hash, start, gone))
  {
    var after := KeepAll(hash, start, gone);
    forall a, m | m in ItemsOf(after, a) ensures m in ItemsOf(start, a) {
      KeptItems(hash, start, gone, a, m);
    }
    forall a, m | m in ItemsOf(start, a) && m !in ItemsOf(after, a)
      ensures SharesPoint(hash, ItemsOf(start, a), cfg, t, m)
    {
      KeptItems(hash, start, gone, a, m);
      GoneShares(hash, start, cfg, t, a, m);
    }
  }

  lemma AllRemovableGone(hash: string -> string, start: Store, cfg: GcConfig, t: int)
    ensures NothingRemovable(cfg, t, KeepAll(hash, start, Doomed(hash, start, Params(cfg, t))))
  {
    var doomed := Doomed(hash, start, Params(cfg, t));
    forall a, m | a in start && m in Keep(hash, start[a], doomed) ensures !Removable(cfg, t, m) {
      KeepMembers(hash, start[a], doomed, m);
      StaleIsRemovable(cfg, t, m);
    }
  }

  lemma FinishedPassRemoves(hash: string -> string, start: Store, cfg: GcConfig, t: int, order: seq<Memory>,
                            after: Store)
    requires WellFiled(start) && PassResult(hash, start, Params(cfg, t), order, after)
    ensures OnlyRemovableGone(hash, start, cfg, t, after)
    ensures cfg.batchSize <= 1000 ==> NothingRemovable(cfg, t, after)
  {
    var p := Params(cfg, t);
    if p.limit <= MAX_SCROLL_LIMIT {
      GoneWasRemovable(hash, start, cfg, t, Doomed(hash, start, p));
      AllRemovableGone(hash, start, cfg, t);
    } else {
      DoomedOfBatch(hash, start, p, order);
      assert forall m :: m in Take(order, MAX_SCROLL_LIMIT) ==> m in order;
      GoneWasRemovable(hash, start, cfg, t, KeysOf(hash, Take(order, MAX_SCROLL_LIMIT)));
    }
  }

  lemma PartialPassRemoves(hash: string -> string, start: Store, cfg: GcConfig, t: int, after: Store)
    requires WellFiled(start) && PartialResult(hash, start, Params(cfg, t), after)
    ensures OnlyRemovableGone(hash, start, cfg, t, after)
  {
    var gone :| MidPass(hash, start, Params(cfg, t), gone, after);
    GoneWasRemovable(hash, start, cfg, t, gone);
  }

  /** One pass. `now(i)` and `cancelled(i)` are what the clock and the context say before batch i; `last` is
      the batch at which the pass ended. A finished pass is a one-shot filter at its last reading of the
      clock; a pass that is cancelled or refused has removed nothing but stale memories.

      Told by the fields of the memories and the configuration: whatever went shared agent and point with a
      level-2 memory that was old and idle at the last reading of the clock; and once a pass with a batch
      size up to a thousand has finished, no such memory is left. */
  method RunMemoryGCOnce(store: MockClient, cfg: GcConfig, now: nat -> int, cancelled: nat -> bool)
    returns (end: PassEnd, ghost last: nat, ghost order: seq<Memory>)
    requires store.Valid() && Advances(now)
    modifies store
    ensures store.Valid()
    ensures end.Finished? ==> PassResult(store.hash, old(store.memories), Params(cfg, now(last)), order, store.memories)
    ensures !end.Finished? ==> PartialResult(store.hash, old(store.memories), Params(cfg, now(last)), store.memories)
    ensures !end.Cancelled? ==> (end.Refused? <==> now(last) == cfg.l2MaxAgeMs)
    ensures (end.Cancelled? <==> cancelled(last)) && NotBefore(cancelled, last)
    ensures OnlyRemovableGone(store.hash, old(store.memories), cfg, now(last), store.memories)
    ensures end.Finished? && cfg.batchSize <= 1000 ==> NothingRemovable(cfg, now(last), store.memories)
  {
    ghost var start := store.memories;
    end, last, order := CollectBatches(store, cfg, now, cancelled);
    if end.Finished? {
      FinishedPassRemoves(store.hash, start, cfg, now(last), order, store.memories);
    } else {
      PartialPassRemoves(store.hash, start, cfg, now(last), store.memories);
    }
  }

  // ---------------------------------------------------------------- The pass as a filter

  /** The items that are not stale, in order. */
  function Kept(items: seq<Memory>, p: GcParams): seq<Memory> {
    if items == [] then []
    else
      var last := items[|items| - 1];
      Kept(items[..|items| - 1], p) + if Stale(last, p) then [] else [last]
  }

  function KeptAll(store: Store, p: GcParams): Store {
    map a | a in store :: Kept(store[a], p)
  }

  /** No memory that is worth keeping shares agent and point with a stale one. */
  ghost predicate NoSharedPoints(hash: string -> string, store: Store, p: GcParams) {
    forall a, m, n :: a in store && m in store[a] && n in store[a] && Stale(m, p) && !Stale(n, p) ==>
      PointId(hash, m) != PointId(hash, n)
  }

  lemma {:induction false} KeepIsKept(hash: string -> string, items: seq<Memory>, p: GcParams, gone: set<Key>)
    requires forall m :: m in items ==> (KeyOf(hash, m) in gone <==> Stale(m, p))
    ensures Keep(hash, items, gone) == Kept(items, p)
  {
    if items != [] {
      KeepIsKept(hash, items[..|items| - 1], p, gone);
      assert items[|items| - 1] in items;
    }
  }

  lemma {:induction false} KeptMembers(items: seq<Memory>, p: GcParams, m: Memory)
    ensures m in Kept(items, p) <==> m in items && !Stale(m, p)
  {
    if items != [] {
      KeptMembers(items[..|items| - 1], p, m);
      assert items == items[..|items| - 1] + [items[|items| - 1]];
    }
  }

  /** Deleting by key is the one-shot filter exactly when nothing worth keeping shares a key with
      something stale. */
  lemma GcIsFilter(hash: string -> string, store: Store, p: GcParams)
    requires WellFiled(store)
    ensures KeepAll(hash, store, Doomed(hash, store, p)) == KeptAll(store, p) <==> NoSharedPoints(hash, store, p)
  {
    var doomed := Doomed(hash, store, p);
    if NoSharedPoints(hash, store, p) {
      forall a | a in store ensures Keep(hash, store[a], doomed) == Kept(store[a], p) {
        forall m | m in store[a] ensures KeyOf(hash, m) in doomed <==> Stale(m, p) {
          DoomedInStore(hash, store, p, a, m);
        }
        KeepIsKept(hash, store[a], p, doomed);
      }
    } else {
      var a, m, n :| a in store && m in store[a] && n in store[a] && Stale(m, p) && !Stale(n, p)
        && PointId(hash, m) == PointId(hash, n);
      KeptMembers(store[a], p, n);
      KeepMembers(hash, store[a], doomed, n);
      assert KeyOf(hash, m) in doomed;
      assert KeptAll(store, p)[a] != KeepAll(hash, store, doomed)[a];
    }
  }

  lemma DoomedInStore(hash: string -> string, store: Store, p: GcParams, a: string, n: Memory)
    requires WellFiled(store) && NoSharedPoints(hash, store, p) && a in store && n in store[a]
    ensures KeyOf(hash, n) in Doomed(hash, store, p) <==> Stale(n, p)
  {
    if KeyOf(hash, n) in Doomed(hash, store, p) {
      var b, m :| b in store && m in store[b] && Stale(m, p) && KeyOf(hash, n) == KeyOf(hash, m);
      assert a == n.agentId == m.agentId == b;
    }
  }

  /** The usual case: within an agent, no two memories share a point. */
  ghost predicate DistinctPoints(hash: string -> string, items: seq<Memory>) {
    forall i, j :: 0 <= i < j < |items| ==> PointId(hash, items[i]) != PointId(hash, items[j])
  }

  ghost predicate AllDistinct(hash: string -> string, store: Store) {
    forall a :: a in store ==> DistinctPoints(hash, store[a])
  }

  lemma DifferentPoints(hash: string -> string, items: seq<Memory>, m: Memory, n: Memory)
    requires DistinctPoints(hash, items) && m in items && n in items && m != n
    ensures PointId(hash, m) != PointId(hash, n)
  {
    var i :| 0 <= i < |items| && items[i] == m;
    var j :| 0 <= j < |items| && items[j] == n;
    assert i < j || j < i;
  }

  lemma DistinctMeansUnshared(hash: string -> string, store: Store, p: GcParams)
    requires AllDistinct(hash, store)
    ensures NoSharedPoints(hash, store, p)
  {
    forall a, m, n | a in store && m in store[a] && n in store[a] && Stale(m, p) && !Stale(n, p)
      ensures PointId(hash, m) != PointId(hash, n)
    {
      assert DistinctPoints(hash, store[a]);
      DifferentPoints(hash, store[a], m, n);
    }
  }

  // ---------------------------------------------------------------- Batches above the store's limit

  lemma {:induction false} OnceIfDistinct(hash: string -> string, items: seq<Memory>, m: Memory)
    requires DistinctPoints(hash, items)
    ensures multiset(items)[m] <= 1
  {
    if items != [] {
      var front, last := items[..|items| - 1], items[|items| - 1];
      assert items == front + [last];
      OnceIfDistinct(hash, front, m);
      if m == last {
        assert forall i :: 0 <= i < |front| ==> front[i] != m;
        assert m !in multiset(front);
      }
    }
  }

  /** With distinct points, no two entries of the listing share a key. */
  lemma DistinctOrder(hash: string -> string, store: Store, p: GcParams, order: seq<Memory>, i: nat, j: nat)
    requires WellFiled(store) && AllDistinct(hash, store) && OldestFirst(store, p, order) && i < j < |order|
    ensures KeyOf(hash, order[i]) != KeyOf(hash, order[j])
  {
    var x, y := order[i], order[j];
    OldestFirstMembers(store, p, order, x);
    OldestFirstMembers(store, p, order, y);
    var a := x.agentId;
    assert DistinctPoints(hash, store[a]);
    if x == y {
      TwiceIfRepeated(order, i, j);
      OnceIfDistinct(hash, store[a], x);
    } else if y.agentId == a {
      DifferentPoints(hash, store[a], x, y);
    }
  }

  /** Stopping after the first batch, as a pass with a batch size above the limit does, is complete exactly
      when at most the limit's worth of memories was stale. */
  lemma BigBatchStopsEarly(hash: string -> string, store: Store, p: GcParams, order: seq<Memory>)
    requires WellFiled(store) && AllDistinct(hash, store) && OldestFirst(store, p, order)
    ensures KeepAll(hash, store, KeysOf(hash, Take(order, MAX_SCROLL_LIMIT)))
            == KeepAll(hash, store, Doomed(hash, store, p))
            <==> |order| <= MAX_SCROLL_LIMIT
  {
    DoomedOfBatch(hash, store, p, order);
    if |order| > MAX_SCROLL_LIMIT {
      var m := order[MAX_SCROLL_LIMIT];
      var first := KeysOf(hash, Take(order, MAX_SCROLL_LIMIT));
      forall x | x in order[..MAX_SCROLL_LIMIT] ensures KeyOf(hash, x) != KeyOf(hash, m) {
        var i :| 0 <= i < MAX_SCROLL_LIMIT && order[..MAX_SCROLL_LIMIT][i] == x;
        DistinctOrder(hash, store, p, order, i, MAX_SCROLL_LIMIT);
      }
      LeftBehind(hash, store, p, order, m, first);
    }
  }

  lemma LeftBehind(hash: string -> string, store: Store, p: GcParams, order: seq<Memory>, m: Memory, first: set<Key>)
    requires WellFiled(store) && OldestFirst(store, p, order) && m in order && KeyOf(hash, m) !in first
    ensures KeepAll(hash, store, first) != KeepAll(hash, store, Doomed(hash, store, p))
  {
    OldestFirstMembers(store, p, order, m);
    var a, doomed := m.agentId, Doomed(hash, store, p);
    assert KeyOf(hash, m) in doomed;
    KeepMembers(hash, store[a], first, m);
    KeepMembers(hash, store[a], doomed, m);
    assert KeepAll(hash, store, first)[a] != KeepAll(hash, store, doomed)[a];
  }

  /** The whole pass, for distinct points: a finished pass leaves each list filtered to what is not stale,
      in order, exactly when the batch size is within the store's limit or no more than that many
      memories were stale. */
  lemma PassIsFilter(hash: string -> string, start: Store, p: GcParams, order: seq<Memory>, after: Store)
    requires WellFiled(start) && AllDistinct(hash, start)
    requires PassResult(hash, start, p, order, after)
    ensures after == KeptAll(start, p) <==> p.limit <= MAX_SCROLL_LIMIT || |order| <= MAX_SCROLL_LIMIT
  {
    DistinctMeansUnshared(hash, start, p);
    GcIsFilter(hash, start, p);
    if p.limit > MAX_SCROLL_LIMIT {
      BigBatchStopsEarly(hash, start, p, order);
    }
  }
}
