/**
  The in-memory vector store: per agent an ordered list of stored memories, changed in place by
  upserts, access touches, level changes and the deletion of stale batches.

  Each method is proved against a function of the old contents, or against a relation where the
  iteration order of Go's maps leaves a choice. The SHA-1 derivation of point identifiers is the
  parameter `hash`; all that is used of it is that it prints a UUID.
*/
module MemoryStore {
  import opened Wrappers
  import opened Text
  import opened StableSorting
  import opened Selections
  import TopN
  import Vectors

  const DEFAULT_SCROLL_LIMIT := 100
  const MAX_SCROLL_LIMIT := 1000

  datatype Memory = Memory(
    memoryId: string,
    pointId: string,
    agentId: string,
    level: nat,
    isPseudopermanent: bool,
    accessCount: nat,
    createdAtMs: int,
    lastAccessedAtMs: int,
    intensity: real,
    valenceMagnitude: real,
    emotion: seq<real>)

  type Store = map<string, seq<Memory>>

  datatype Touch = Touch(pointId: string, accessCount: nat)

  datatype GcParams = GcParams(level: nat, createdBeforeMs: int, accessCountBelow: nat, limit: int)

  // ---------------------------------------------------------------- Identifiers

  predicate IsUnsignedInteger(value: string) {
    value != "" && forall i :: 0 <= i < |value| ==> '0' <= value[i] <= '9'
  }

  predicate IsHexDigit(c: char) {
    '0' <= c <= '9' || 'a' <= c <= 'f' || 'A' <= c <= 'F'
  }

  predicate IsUuid(value: string) {
    && |value| == 36
    && forall i :: 0 <= i < 36 ==> if i in {8, 13, 18, 23} then value[i] == '-' else IsHexDigit(value[i])
  }

  /** The printed hash has the shape of a UUID, whatever is hashed. */
  ghost predicate PrintsUuids(hash: string -> string) {
    forall value :: IsUuid(hash(value))
  }

  function NormalizePointId(hash: string -> string, value: string): string {
    var trimmed := Trim(value, GoSpace);
    if trimmed == "" then ""
    else if IsUnsignedInteger(trimmed) || IsUuid(trimmed) then trimmed
    else hash(trimmed)
  }

  function PointId(hash: string -> string, m: Memory): string {
    var id := NormalizePointId(hash, m.pointId);
    if id != "" then id else NormalizePointId(hash, m.memoryId)
  }

  lemma NormalizedHasNoBar(hash: string -> string, value: string)
    requires PrintsUuids(hash)
    ensures '|' !in NormalizePointId(hash, value)
  {
    var id := NormalizePointId(hash, value);
    assert id == "" || IsUnsignedInteger(id) || IsUuid(id);
  }

  /** Normalising twice changes nothing: a point identifier read back from a hit finds its memory. */
  lemma NormalizeIdempotent(hash: string -> string, value: string)
    requires PrintsUuids(hash)
    ensures NormalizePointId(hash, NormalizePointId(hash, value)) == NormalizePointId(hash, value)
  {
    var id := NormalizePointId(hash, value);
    if IsUnsignedInteger(id) {
      assert '0' <= id[0] <= '9' && '0' <= id[|id| - 1] <= '9';
    } else if IsUuid(id) {
      assert IsHexDigit(id[0]) && IsHexDigit(id[35]);
    }
    assert Trimmed(id, GoSpace);
    TrimOfTrimmed(id, GoSpace);
  }

  /** What a point identifier becomes: blank stays blank, a number or a UUID loses the white space around it,
      anything else is hashed without it. */
  lemma NormalizedExactly(hash: string -> string, value: string)
    ensures Blank(value, GoSpace) ==> NormalizePointId(hash, value) == ""
    ensures !Blank(value, GoSpace) ==>
              var t := Trim(value, GoSpace);
              if (forall i :: 0 <= i < |t| ==> '0' <= t[i] <= '9') || IsUuid(t) then NormalizePointId(hash, value) == t
              else NormalizePointId(hash, value) == hash(t)
  {
    TrimBlank(value, GoSpace);
  }

  /** The point of a memory is its own, or failing that, that of its name. */
  lemma PointExactly(hash: string -> string, m: Memory)
    requires PrintsUuids(hash)
    ensures PointId(hash, m) == NormalizePointId(hash, if Blank(m.pointId, GoSpace) then m.memoryId else m.pointId)
  {
    TrimBlank(m.pointId, GoSpace);
    assert IsUuid(hash(Trim(m.pointId, GoSpace)));
  }

  function SelectionKey(agentId: string, pointId: string): string {
    agentId + "|" + pointId
  }

  /** The text key names one agent and one point, although agent identifiers may contain the bar. */
  lemma SelectionKeyInjective(a: string, p: string, b: string, q: string)
    requires '|' !in p && '|' !in q
    ensures SelectionKey(a, p) == SelectionKey(b, q) ==> a == b && p == q
  {
    var s, t := SelectionKey(a, p), SelectionKey(b, q);
    assert s[|a|] == '|' && forall n :: |a| < n < |s| ==> s[n] == p[n - |a| - 1];
    assert t[|b|] == '|' && forall n :: |b| < n < |t| ==> t[n] == q[n - |b| - 1];
    if s == t {
      assert |a| == |b|;
      assert a == s[..|a|] && b == t[..|b|];
      assert p == s[|a| + 1..] && q == t[|b| + 1..];
    }
  }

  // ---------------------------------------------------------------- Contents

  function ItemsOf(store: Store, agentId: string): seq<Memory> {
    if agentId in store then store[agentId] else []
  }

  /** Every memory is listed under the agent it names. */
  ghost predicate WellFiled(store: Store) {
    forall a, m :: a in store && m in store[a] ==> m.agentId == a
  }

  type Key = (string, string)

  function KeyOf(hash: string -> string, m: Memory): Key {
    (m.agentId, PointId(hash, m))
  }

  function KeysOf(hash: string -> string, ms: seq<Memory>): set<Key> {
    set m | m in ms :: KeyOf(hash, m)
  }

  /** The items whose key is not in `gone`, in order. */
  function Keep(hash: string -> string, items: seq<Memory>, gone: set<Key>): seq<Memory> {
    if items == [] then []
    else
      var last := items[|items| - 1];
      Keep(hash, items[..|items| - 1], gone) + if KeyOf(hash, last) in gone then [] else [last]
  }

  function KeepAll(hash: string -> string, store: Store, gone: set<Key>): Store {
    map a | a in store :: Keep(hash, store[a], gone)
  }

  lemma {:induction false} KeepMembers(hash: string -> string, items: seq<Memory>, gone: set<Key>, m: Memory)
    ensures m in Keep(hash, items, gone) <==> m in items && KeyOf(hash, m) !in gone
  {
    if items != [] {
      KeepMembers(hash, items[..|items| - 1], gone, m);
      assert items == items[..|items| - 1] + [items[|items| - 1]];
    }
  }

  lemma KeepAppend(hash: string -> string, items: seq<Memory>, m: Memory, gone: set<Key>)
    ensures Keep(hash, items + [m], gone) == Keep(hash, items, gone) + if KeyOf(hash, m) in gone then [] else [m]
  {
    assert (items + [m])[..|items|] == items;
  }

  lemma {:induction false} KeepTwice(hash: string -> string, items: seq<Memory>, g: set<Key>, h: set<Key>)
    ensures Keep(hash, Keep(hash, items, g), h) == Keep(hash, items, g + h)
  {
    if items != [] {
      var front, last := items[..|items| - 1], items[|items| - 1];
      KeepTwice(hash, front, g, h);
      KeepAppend(hash, Keep(hash, front, g), last, h);
      assert Keep(hash, front, g) + [] == Keep(hash, front, g);
      assert Keep(hash, items, g) == Keep(hash, front, g) + if KeyOf(hash, last) in g then [] else [last];
    }
  }

  /** What is kept is kept in order. */
  lemma {:induction false} KeepSelects(hash: string -> string, items: seq<Memory>, gone: set<Key>)
    ensures Selected(items, Keep(hash, items, gone), (m: Memory) => KeyOf(hash, m) !in gone)
  {
    if items == [] {
      SelectedNone((m: Memory) => KeyOf(hash, m) !in gone);
    } else {
      var front, last := items[..|items| - 1], items[|items| - 1];
      KeepSelects(hash, front, gone);
      SelectedNext(front, Keep(hash, front, gone), (m: Memory) => KeyOf(hash, m) !in gone, last);
      assert items == front + [last];
    }
  }

  /** Deleting in two batches deletes the union. */
  lemma KeepAllTwice(hash: string -> string, store: Store, g: set<Key>, h: set<Key>)
    ensures KeepAll(hash, KeepAll(hash, store, g), h) == KeepAll(hash, store, g + h)
  {
    forall a | a in store ensures Keep(hash, Keep(hash, store[a], g), h) == Keep(hash, store[a], g + h) {
      KeepTwice(hash, store[a], g, h);
    }
  }

  lemma {:induction false} KeepNone(hash: string -> string, items: seq<Memory>)
    ensures Keep(hash, items, {}) == items
  {
    if items != [] {
      var front, last := items[..|items| - 1], items[|items| - 1];
      KeepNone(hash, front);
      assert Keep(hash, items, {}) == Keep(hash, front, {}) + [last];
    }
  }

  lemma KeepAllNone(hash: string -> string, store: Store)
    ensures KeepAll(hash, store, {}) == store
  {
    forall a | a in store ensures Keep(hash, store[a], {}) == store[a] {
      KeepNone(hash, store[a]);
    }
  }

  lemma KeepAllWellFiled(hash: string -> string, store: Store, gone: set<Key>)
    requires WellFiled(store)
    ensures WellFiled(KeepAll(hash, store, gone))
  {
    forall a, m | a in store && m in Keep(hash, store[a], gone) ensures m.agentId == a {
      KeepMembers(hash, store[a], gone, m);
    }
  }

  // ---------------------------------------------------------------- Upsert

  function WithDefaults(m: Memory): Memory {
    var created := if m.createdAtMs == 0 then 1 else m.createdAtMs;
    m.(level := if m.level == 0 then 1 else m.level,
       createdAtMs := created,
       pointId := if m.pointId == "" then m.memoryId else m.pointId,
       valenceMagnitude :=
         if m.valenceMagnitude == 0.0 && |m.emotion| > 0 then Vectors.Abs(m.emotion[0]) else m.valenceMagnitude,
       lastAccessedAtMs := if m.lastAccessedAtMs == 0 then created else m.lastAccessedAtMs)
  }

  /** Defaults fill what is missing and nothing else: level 1, time 1, the name as point, the size of the first
      component as valence, and the time of creation as that of the last access. Filling twice is filling
      once. */
  lemma DefaultsFill(m: Memory)
    ensures var d := WithDefaults(m);
      && WithDefaults(d) == d
      && d.memoryId == m.memoryId && d.agentId == m.agentId && d.isPseudopermanent == m.isPseudopermanent
      && d.accessCount == m.accessCount && d.intensity == m.intensity && d.emotion == m.emotion
      && (if m.level == 0 then d.level == 1 else d.level == m.level)
      && (if m.createdAtMs == 0 then d.createdAtMs == 1 else d.createdAtMs == m.createdAtMs)
      && (if m.pointId == "" then d.pointId == m.memoryId else d.pointId == m.pointId)
      && (if m.lastAccessedAtMs == 0 then d.lastAccessedAtMs == d.createdAtMs
          else d.lastAccessedAtMs == m.lastAccessedAtMs)
      && (if m.valenceMagnitude == 0.0 && m.emotion != []
          then d.valenceMagnitude >= 0.0 && (d.valenceMagnitude == m.emotion[0] || d.valenceMagnitude == -m.emotion[0])
          else d.valenceMagnitude == m.valenceMagnitude)
  {
  }

  /** The position of the first item with this identifier, or the length. */
  function Find(items: seq<Memory>, id: string): nat {
    if items == [] || items[0].memoryId == id then 0 else 1 + Find(items[1..], id)
  }

  lemma {:induction false} FindIsFirst(items: seq<Memory>, id: string)
    ensures Find(items, id) <= |items|
    ensures Find(items, id) < |items| ==> items[Find(items, id)].memoryId == id
    ensures forall j :: 0 <= j < Find(items, id) ==> items[j].memoryId != id
  {
    if items != [] && items[0].memoryId != id {
      FindIsFirst(items[1..], id);
      forall j | 0 <= j < Find(items, id) ensures items[j].memoryId != id {
        if j > 0 { assert items[j] == items[1..][j - 1]; }
      }
    }
  }

  lemma FindUnique(items: seq<Memory>, id: string, n: nat)
    requires n <= |items| && (n < |items| ==> items[n].memoryId == id)
    requires forall j :: 0 <= j < n ==> items[j].memoryId != id
    ensures n == Find(items, id)
  {
    FindIsFirst(items, id);
  }

  function Upsert(items: seq<Memory>, m: Memory): seq<Memory> {
    var n := Find(items, m.memoryId);
    if n < |items| then items[n := m] else items + [m]
  }

  function Upserted(store: Store, m: Memory): Store {
    store[m.agentId := Upsert(ItemsOf(store, m.agentId), m)]
  }

  function Lookup(items: seq<Memory>, id: string): Option<Memory>
  {
    FindIsFirst(items, id);
    if Find(items, id) < |items| then Some(items[Find(items, id)]) else None
  }

  /** An upsert answers for its own identifier and leaves every other identifier alone. */
  lemma LookupAfterUpsert(items: seq<Memory>, m: Memory, id: string)
    ensures Lookup(Upsert(items, m), id) == if id == m.memoryId then Some(m) else Lookup(items, id)
  {
    var n := Find(items, m.memoryId);
    FindIsFirst(items, m.memoryId);
    FindIsFirst(items, id);
    var after := Upsert(items, m);
    if id == m.memoryId {
      FindUnique(after, id, n);
    } else if Find(items, id) < |items| {
      FindUnique(after, id, Find(items, id));
    } else {
      FindUnique(after, id, |after|);
    }
  }

  // ---------------------------------------------------------------- Touch

  /** The last touch of every point that is not blank. */
  function Latest(touches: seq<Touch>): map<string, Touch> {
    if touches == [] then map[]
    else
      var last := touches[|touches| - 1];
      var rest := Latest(touches[..|touches| - 1]);
      if Trim(last.pointId, GoSpace) == "" then rest else rest[last.pointId := last]
  }

  /** A point is in the map exactly if it was touched under a name that is not blank, and what is kept is
      its last touch. */
  lemma {:induction false} LatestIsLast(touches: seq<Touch>, i: nat)
    requires i < |touches| && !Blank(touches[i].pointId, GoSpace)
    requires forall j :: i < j < |touches| ==> touches[j].pointId != touches[i].pointId
    ensures touches[i].pointId in Latest(touches) && Latest(touches)[touches[i].pointId] == touches[i]
  {
    var n := |touches| - 1;
    TrimBlank(touches[i].pointId, GoSpace);
    if i < n {
      LatestIsLast(touches[..n], i);
    }
  }

  lemma {:induction false} LatestIsTouched(touches: seq<Touch>, p: string)
    requires p in Latest(touches)
    ensures Latest(touches)[p] in touches && Latest(touches)[p].pointId == p && !Blank(p, GoSpace)
  {
    var n := |touches| - 1;
    TrimBlank(touches[n].pointId, GoSpace);
    if touches[n].pointId != p || Trim(p, GoSpace) == "" {
      LatestIsTouched(touches[..n], p);
    }
  }

  predicate FirstOfPoint(hash: string -> string, items: seq<Memory>, i: nat)
    requires i < |items|
  {
    forall j :: 0 <= j < i ==> PointId(hash, items[j]) != PointId(hash, items[i])
  }

  function TouchedItem(hash: string -> string, items: seq<Memory>, latest: map<string, Touch>, at: int, i: nat): Memory
    requires i < |items|
  {
    var p := PointId(hash, items[i]);
    if p in latest && FirstOfPoint(hash, items, i)
    then items[i].(accessCount := latest[p].accessCount, lastAccessedAtMs := at)
    else items[i]
  }

  /** The items after the touches in `latest`: in each list only the first item of a point is touched. */
  function TouchedItems(hash: string -> string, items: seq<Memory>, latest: map<string, Touch>, at: int): seq<Memory> {
    seq(|items|, i requires 0 <= i < |items| => TouchedItem(hash, items, latest, at, i))
  }

  function TouchedAll(hash: string -> string, store: Store, latest: map<string, Touch>, at: int): Store {
    map a | a in store :: TouchedItems(hash, store[a], latest, at)
  }

  /** Touching one more point. The order of the points does not matter. */
  lemma TouchOneMore(hash: string -> string, items: seq<Memory>, done: map<string, Touch>, t: Touch, at: int)
    requires t.pointId !in done
    ensures TouchedItems(hash, TouchedItems(hash, items, done, at), map[t.pointId := t], at)
         == TouchedItems(hash, items, done[t.pointId := t], at)
  {
    var mid := TouchedItems(hash, items, done, at);
    forall i | 0 <= i < |items|
      ensures TouchedItems(hash, mid, map[t.pointId := t], at)[i]
           == TouchedItems(hash, items, done[t.pointId := t], at)[i]
    {
      assert forall j :: 0 <= j < |items| ==> PointId(hash, mid[j]) == PointId(hash, items[j]);
      assert FirstOfPoint(hash, mid, i) <==> FirstOfPoint(hash, items, i);
    }
  }

  lemma TouchNone(hash: string -> string, items: seq<Memory>, at: int)
    ensures TouchedItems(hash, items, map[], at) == items
  {
  }

  lemma TouchMember(hash: string -> string, items: seq<Memory>, latest: map<string, Touch>, at: int, m: Memory)
    requires m in TouchedItems(hash, items, latest, at)
    ensures exists i ::
              0 <= i < |items| && m == items[i].(accessCount := m.accessCount, lastAccessedAtMs := m.lastAccessedAtMs)
  {
    var i :| 0 <= i < |items| && m == TouchedItems(hash, items, latest, at)[i];
    assert m == items[i].(accessCount := m.accessCount, lastAccessedAtMs := m.lastAccessedAtMs);
  }

  /** What was sent arrives: in each list the first memory of a point that was touched gets the count of the last
      touch of that point, and the time. */
  lemma TouchArrives(hash: string -> string, store: Store, touches: seq<Touch>, at: int, k: nat, a: string, i: nat)
    requires k < |touches| && !Blank(touches[k].pointId, GoSpace)
    requires forall j :: k < j < |touches| ==> touches[j].pointId != touches[k].pointId
    requires a in store && i < |store[a]| && PointId(hash, store[a][i]) == touches[k].pointId
    requires forall j :: 0 <= j < i ==> PointId(hash, store[a][j]) != touches[k].pointId
    ensures TouchedAll(hash, store, Latest(touches), at)[a][i]
            == store[a][i].(accessCount := touches[k].accessCount, lastAccessedAtMs := at)
  {
    LatestIsLast(touches, k);
  }

  /** Nothing else changes: not the other memories, not their number, not the agents. */
  lemma TouchLeaves(hash: string -> string, store: Store, touches: seq<Touch>, at: int, a: string, i: nat)
    requires a in store && i < |store[a]|
    requires (forall j :: 0 <= j < |touches| ==> touches[j].pointId != PointId(hash, store[a][i]))
             || exists j :: 0 <= j < i && PointId(hash, store[a][j]) == PointId(hash, store[a][i])
    ensures TouchedAll(hash, store, Latest(touches), at).Keys == store.Keys
    ensures |TouchedAll(hash, store, Latest(touches), at)[a]| == |store[a]|
    ensures TouchedAll(hash, store, Latest(touches), at)[a][i] == store[a][i]
  {
    var p := PointId(hash, store[a][i]);
    if p in Latest(touches) {
      LatestIsTouched(touches, p);
      var j :| 0 <= j < |touches| && touches[j] == Latest(touches)[p];
    }
  }

  // ---------------------------------------------------------------- Levels

  function AtLevel(items: seq<Memory>, level: nat): seq<Memory> {
    if items == [] then []
    else
      var last := items[|items| - 1];
      AtLevel(items[..|items| - 1], level) + if last.level == level then [last] else []
  }

  const NEWER: (Memory, Memory) -> bool := (x: Memory, y: Memory) => x.createdAtMs > y.createdAtMs

  const OLDER: (Memory, Memory) -> bool := (x: Memory, y: Memory) => x.createdAtMs < y.createdAtMs

  function Take<T>(s: seq<T>, limit: int): seq<T> {
    if 0 < limit < |s| then s[..limit] else s
  }

  /** The newest memories of one level, newest first, ties in list order. */
  function Newest(items: seq<Memory>, level: nat, limit: int): seq<Memory> {
    Take(Sort(AtLevel(items, level), NEWER), limit)
  }

  lemma {:induction false} AtLevelMembers(items: seq<Memory>, level: nat, m: Memory)
    ensures m in AtLevel(items, level) <==> m in items && m.level == level
  {
    if items != [] {
      AtLevelMembers(items[..|items| - 1], level, m);
      assert items == items[..|items| - 1] + [items[|items| - 1]];
    }
  }

  lemma {:induction false} AtLevelSelects(items: seq<Memory>, level: nat)
    ensures Selected(items, AtLevel(items, level), (m: Memory) => m.level == level)
  {
    if items == [] {
      SelectedNone((m: Memory) => m.level == level);
    } else {
      var front, last := items[..|items| - 1], items[|items| - 1];
      AtLevelSelects(front, level);
      SelectedNext(front, AtLevel(front, level), (m: Memory) => m.level == level, last);
      assert items == front + [last];
    }
  }

  /** They are the newest: nothing of the level that was left out is newer than anything returned. */
  lemma NewestAreNewest(items: seq<Memory>, level: nat, limit: int)
    ensures TopN.IsTop(Newest(items, level, limit), multiset(AtLevel(items, level)),
                       if limit > 0 then limit else |AtLevel(items, level)|, NEWER)
  {
    var found := AtLevel(items, level);
    var n: nat := if limit > 0 then limit else |found|;
    SortOrdered(found, NEWER);
    SortPermutes(found, NEWER);
    TopN.CutIsTop(Sort(found, NEWER), multiset(found), n, NEWER);
    assert Newest(items, level, limit) == Sort(found, NEWER)[..TopN.Min(n, |found|)];
  }

  /** In the terms of the memories: of the level, newest first, as many as the limit allows, and nothing of the level
      that is left out is newer than anything returned. At one time they keep the order of the list. */
  lemma NewestExactly(items: seq<Memory>, level: nat, limit: int)
    ensures var r := Newest(items, level, limit); var found := AtLevel(items, level);
      && |r| == (if 0 < limit < |found| then limit else |found|) && multiset(r) <= multiset(found)
      && (forall i, j :: 0 <= i < j < |r| ==> r[i].createdAtMs >= r[j].createdAtMs)
      && (forall m, x :: m in items && m.level == level && m !in r && x in r ==> x.createdAtMs >= m.createdAtMs)
      && r == Sort(found, NEWER)[..|r|]
    ensures forall y :: Ties(Sort(AtLevel(items, level), NEWER), y, NEWER) == Ties(AtLevel(items, level), y, NEWER)
  {
    var r, found := Newest(items, level, limit), AtLevel(items, level);
    NewestAreNewest(items, level, limit);
    SortPermutes(found, NEWER);
    forall i, j | 0 <= i < j < |r| ensures r[i].createdAtMs >= r[j].createdAtMs {
      assert !NEWER(r[j], r[i]);
    }
    forall m, x | m in items && m.level == level && m !in r && x in r ensures x.createdAtMs >= m.createdAtMs {
      AtLevelMembers(items, level, m);
      assert m in multiset(found) && m !in multiset(r);
      assert m in multiset(found) - multiset(r) && !NEWER(m, x);
    }
    forall y ensures Ties(Sort(found, NEWER), y, NEWER) == Ties(found, y, NEWER) {
      SortStable(found, y, NEWER);
    }
  }

  predicate Answers(hash: string -> string, m: Memory, id: string) {
    m.memoryId == id || PointId(hash, m) == id
  }

  function AtNewLevel(m: Memory, level: nat): Memory {
    m.(level := level, isPseudopermanent := level >= 3)
  }

  /** Item i of agent a is the first in its list to answer to id. */
  ghost predicate FirstAnswer(hash: string -> string, store: Store, id: string, a: string, i: nat) {
    && a in store && i < |store[a]| && Answers(hash, store[a][i], id)
    && forall j :: 0 <= j < i ==> !Answers(hash, store[a][j], id)
  }

  ghost predicate Answered(hash: string -> string, store: Store, id: string) {
    exists a, i :: a in store && 0 <= i < |store[a]| && Answers(hash, store[a][i], id)
  }

  function Leveled(store: Store, a: string, i: nat, level: nat): Store
    requires a in store && i < |store[a]|
  {
    store[a := store[a][i := AtNewLevel(store[a][i], level)]]
  }

  // ---------------------------------------------------------------- Stale memories

  function ClampLimit(limit: int, fallback: int, max: int): int {
    if limit <= 0 then fallback else if limit > max then max else limit
  }

  predicate Stale(m: Memory, p: GcParams) {
    && m.level == p.level
    && m.createdAtMs <= p.createdBeforeMs
    && (p.accessCountBelow > 0 ==> m.accessCount < p.accessCountBelow)
  }

  function StaleItems(items: seq<Memory>, p: GcParams): seq<Memory> {
    if items == [] then []
    else
      var last := items[|items| - 1];
      StaleItems(items[..|items| - 1], p) + if Stale(last, p) then [last] else []
  }

  lemma {:induction false} StaleItemsCount(items: seq<Memory>, p: GcParams, m: Memory)
    ensures multiset(StaleItems(items, p))[m] == if Stale(m, p) then multiset(items)[m] else 0
  {
    if items != [] {
      StaleItemsCount(items[..|items| - 1], p, m);
      assert items == items[..|items| - 1] + [items[|items| - 1]];
    }
  }

  /** The stale memories of one more agent. */
  lemma StaleOneMore(store: Store, p: GcParams, agents: set<string>, a: string, candidates: seq<Memory>)
    requires WellFiled(store) && a in agents && agents <= store.Keys
    requires forall m :: multiset(candidates)[m] == if m.agentId in agents then 0 else StaleCount(store, p, m)
    ensures forall m :: multiset(candidates + StaleItems(store[a], p))[m]
                        == if m.agentId in agents - {a} then 0 else StaleCount(store, p, m)
  {
    forall m ensures multiset(candidates + StaleItems(store[a], p))[m]
                     == if m.agentId in agents - {a} then 0 else StaleCount(store, p, m) {
      StaleItemsCount(store[a], p, m);
      assert m.agentId != a ==> m !in multiset(store[a]);
    }
  }

  /** How often m is a stale memory of the store. */
  function StaleCount(store: Store, p: GcParams, m: Memory): nat {
    if Stale(m, p) then multiset(ItemsOf(store, m.agentId))[m] else 0
  }

  /** `order` lists the stale memories of the store, each as often as it is stored, oldest first. */
  ghost predicate OldestFirst(store: Store, p: GcParams, order: seq<Memory>) {
    && Ordered(order, OLDER)
    && forall m :: multiset(order)[m] == StaleCount(store, p, m)
  }

  lemma OldestFirstMembers(store: Store, p: GcParams, order: seq<Memory>, m: Memory)
    requires OldestFirst(store, p, order)
    ensures m in order <==> m in ItemsOf(store, m.agentId) && Stale(m, p)
  {
    assert m in order <==> multiset(order)[m] > 0;
    assert m in ItemsOf(store, m.agentId) <==> multiset(ItemsOf(store, m.agentId))[m] > 0;
  }

  class MockClient {
    var memories: Store
    const hash: string -> string

    ghost predicate Valid()
      reads this
    {
      WellFiled(memories) && PrintsUuids(hash)
    }

    constructor (hash: string -> string)
      requires PrintsUuids(hash)
      ensures Valid() && memories == map[] && this.hash == hash
    {
      memories := map[];
      this.hash := hash;
    }

    /** The search for the identifier. */
    method FindMemory(items: seq<Memory>, id: string) returns (i: nat)
      ensures i == Find(items, id) && i <= |items|
    {
      i := 0;
      while i < |items| && items[i].memoryId != id
        invariant 0 <= i <= |items|
        invariant forall j :: 0 <= j < i ==> items[j].memoryId != id
      {
        i := i + 1;
      }
      FindUnique(items, id, i);
    }

    method UpsertMemory(memory: Memory) returns (r: Result<(), string>)
      requires Valid()
      modifies this
      ensures Valid()
      ensures r.Failure? <==> Blank(memory.memoryId, GoSpace) || Blank(memory.agentId, GoSpace)
      ensures memories == if r.Success? then Upserted(old(memories), WithDefaults(memory)) else old(memories)
    {
      TrimBlank(memory.memoryId, GoSpace);
      TrimBlank(memory.agentId, GoSpace);
      if Trim(memory.memoryId, GoSpace) == "" {
        return Failure("memory_id is required");
      }
      if Trim(memory.agentId, GoSpace) == "" {
        return Failure("agent_id is required");
      }
      var m := WithDefaults(memory);
      var items := ItemsOf(memories, m.agentId);
      var i := FindMemory(items, m.memoryId);
      UpsertWellFiled(memories, m);
      if i < |items| {
        items := items[i := m];
      } else {
        items := items + [m];
      }
      memories := memories[m.agentId := items];
      return Success(());
    }

    method LatestTouches(touches: seq<Touch>) returns (latest: map<string, Touch>)
      ensures latest == Latest(touches)
    {
      latest := map[];
      for i := 0 to |touches|
        invariant latest == Latest(touches[..i])
      {
        assert touches[..i + 1][..i] == touches[..i];
        if Trim(touches[i].pointId, GoSpace) != "" {
          latest := latest[touches[i].pointId := touches[i]];
        }
      }
      assert touches[..|touches|] == touches;
    }

    /** The search for the touched item in one agent's list. */
    method TouchList(items: seq<Memory>, t: Touch, at: int) returns (r: seq<Memory>)
      ensures r == TouchedItems(hash, items, map[t.pointId := t], at)
    {
      r := items;
      var i := 0;
      while i < |items| && PointId(hash, items[i]) != t.pointId
        invariant 0 <= i <= |items|
        invariant forall j :: 0 <= j < i ==> PointId(hash, items[j]) != t.pointId
      {
        i := i + 1;
      }
      if i < |items| {
        r := items[i := items[i].(accessCount := t.accessCount, lastAccessedAtMs := at)];
        assert FirstOfPoint(hash, items, i);
      }
      forall k | 0 <= k < |items| ensures r[k] == TouchedItems(hash, items, map[t.pointId := t], at)[k] {
        if k > i && PointId(hash, items[k]) == t.pointId {
          assert !FirstOfPoint(hash, items, k);
        }
      }
    }

    method TouchEverywhere(t: Touch, at: int)
      requires Valid()
      modifies this
      ensures memories == TouchedAll(hash, old(memories), map[t.pointId := t], at)
    {
      var agents := memories.Keys;
      while agents != {}
        invariant agents <= memories.Keys == old(memories).Keys
        invariant forall a :: a in agents ==> memories[a] == old(memories)[a]
        invariant forall a :: a in memories.Keys - agents ==>
                    memories[a] == TouchedItems(hash, old(memories)[a], map[t.pointId := t], at)
        decreases agents
      {
        var a :| a in agents;
        var items := TouchList(memories[a], t, at);
        memories := memories[a := items];
        agents := agents - {a};
      }
    }

    /** Touches are applied point by point; whatever the order of the points, the result is the same. */
    method TouchMemories(touches: seq<Touch>, accessedAtMs: int)
      requires Valid()
      modifies this
      ensures Valid()
      ensures memories ==
                TouchedAll(hash, old(memories), Latest(touches), if accessedAtMs == 0 then 1 else accessedAtMs)
    {
      var at := if accessedAtMs == 0 then 1 else accessedAtMs;
      var latest := LatestTouches(touches);
      LatestKeys(touches);
      var points := latest.Keys;
      ghost var done: map<string, Touch> := map[];
      TouchedAllNone(hash, memories, at);
      while points != {}
        invariant points <= latest.Keys && done == map p | p in latest.Keys - points :: latest[p]
        invariant Valid() && memories == TouchedAll(hash, old(memories), done, at)
        decreases points
      {
        var p :| p in points;
        TouchedAllOneMore(hash, old(memories), done, latest[p], at);
        TouchedAllWellFiled(hash, memories, map[p := latest[p]], at);
        TouchEverywhere(latest[p], at);
        points := points - {p};
        done := done[p := latest[p]];
      }
      assert done == latest;
    }

    method GetMemoriesByLevel(agentId: string, level: nat, limit: int) returns (r: seq<Memory>)
      ensures r == Newest(ItemsOf(memories, agentId), level, limit)
    {
      var items := ItemsOf(memories, agentId);
      var found := [];
      for i := 0 to |items|
        invariant found == AtLevel(items[..i], level)
      {
        assert items[..i + 1][..i] == items[..i];
        if items[i].level == level {
          found := found + [items[i]];
        }
      }
      assert items[..|items|] == items;
      r := Take(Sort(found, NEWER), limit);
    }

    /** The search of one agent's list. */
    method FindAnswer(items: seq<Memory>, id: string) returns (i: nat)
      ensures i <= |items| && (i < |items| ==> Answers(hash, items[i], id))
      ensures forall j :: 0 <= j < i ==> !Answers(hash, items[j], id)
    {
      i := 0;
      while i < |items| && items[i].memoryId != id && PointId(hash, items[i]) != id
        invariant i <= |items|
        invariant forall j :: 0 <= j < i ==> !Answers(hash, items[j], id)
      {
        i := i + 1;
      }
    }

    /** `a` and `i` name the memory that was changed: the first to answer in the list of some agent. */
    method UpdateMemoryLevel(memoryId: string, level: nat)
      returns (r: Result<(), string>, ghost a: string, ghost i: nat)
      requires Valid()
      modifies this
      ensures Valid()
      ensures r.Success? <==> !Blank(memoryId, GoSpace) && level != 0 && Answered(hash, old(memories), memoryId)
      ensures r.Success? ==>
                FirstAnswer(hash, old(memories), memoryId, a, i) && memories == Leveled(old(memories), a, i, level)
      ensures r.Success? ==>
                && a in old(memories) && i < |old(memories)[a]|
                && (old(memories)[a][i].memoryId == memoryId || PointId(hash, old(memories)[a][i]) == memoryId)
                && memories == old(memories)[a := old(memories)[a][i :=
                                 old(memories)[a][i].(level := level, isPseudopermanent := level >= 3)]]
      ensures r.Failure? ==> memories == old(memories)
      ensures !Blank(memoryId, GoSpace) && level != 0
              && (exists b, j :: b in old(memories) && 0 <= j < |old(memories)[b]|
                    && (old(memories)[b][j].memoryId == memoryId || PointId(hash, old(memories)[b][j]) == memoryId))
              ==> r.Success?
    {
      a, i := "", 0;
      TrimBlank(memoryId, GoSpace);
      if Trim(memoryId, GoSpace) == "" {
        r := Failure("memory_id is required");
        return;
      }
      if level == 0 {
        r := Failure("memory level is required");
        return;
      }
      var agents := memories.Keys;
      while agents != {}
        invariant agents <= memories.Keys && memories == old(memories) && Valid()
        invariant forall b, j :: b in memories.Keys - agents && 0 <= j < |memories[b]| ==>
                    !Answers(hash, memories[b][j], memoryId)
        decreases agents
      {
        var b :| b in agents;
        var items := memories[b];
        var k := FindAnswer(items, memoryId);
        if k < |items| {
          a, i := b, k;
          LeveledWellFiled(memories, b, k, level);
          memories := memories[b := items[k := AtNewLevel(items[k], level)]];
          r := Success(());
          return;
        }
        agents := agents - {b};
      }
      r := Failure("memory not found");
    }

    method StaleOf(items: seq<Memory>, p: GcParams) returns (r: seq<Memory>)
      ensures r == StaleItems(items, p)
    {
      r := [];
      for i := 0 to |items|
        invariant r == StaleItems(items[..i], p)
      {
        assert items[..i + 1][..i] == items[..i];
        if Stale(items[i], p) {
          r := r + [items[i]];
        }
      }
      assert items[..|items|] == items;
    }

    /** The stale memories of all agents, agent by agent in any order. */
    method StaleCandidates(p: GcParams) returns (candidates: seq<Memory>)
      requires Valid()
      ensures forall m :: multiset(candidates)[m] == StaleCount(memories, p, m)
    {
      candidates := [];
      var agents := memories.Keys;
      while agents != {}
        invariant agents <= memories.Keys
        invariant forall m :: multiset(candidates)[m] == if m.agentId in agents then 0 else StaleCount(memories, p, m)
        decreases agents
      {
        var a :| a in agents;
        var found := StaleOf(memories[a], p);
        StaleOneMore(memories, p, agents, a, candidates);
        candidates := candidates + found;
        agents := agents - {a};
      }
    }

    /** The items of one agent whose selection key was not selected. */
    method KeepUnselected(a: string, items: seq<Memory>, selected: set<string>, ghost gone: set<Key>)
      returns (kept: seq<Memory>)
      requires PrintsUuids(hash) && forall m :: m in items ==> m.agentId == a
      requires Selects(hash, selected, gone)
      ensures kept == Keep(hash, items, gone)
    {
      kept := [];
      for i := 0 to |items|
        invariant kept == Keep(hash, items[..i], gone)
      {
        assert items[..i + 1][..i] == items[..i];
        PointIdHasNoBar(hash, items[i]);
        if SelectionKey(a, PointId(hash, items[i])) !in selected {
          kept := kept + [items[i]];
        }
      }
      assert items[..|items|] == items;
    }

    method RemoveSelected(selected: set<string>, ghost gone: set<Key>)
      requires Valid() && Selects(hash, selected, gone)
      modifies this
      ensures memories == KeepAll(hash, old(memories), gone)
    {
      var agents := memories.Keys;
      while agents != {}
        invariant agents <= memories.Keys == old(memories).Keys
        invariant forall a :: a in agents ==> memories[a] == old(memories)[a]
        invariant forall a :: a in memories.Keys - agents ==> memories[a] == Keep(hash, old(memories)[a], gone)
        decreases agents
      {
        var a :| a in agents;
        var kept := KeepUnselected(a, memories[a], selected, gone);
        memories := memories[a := kept];
        agents := agents - {a};
      }
    }

    /** The text keys of the chosen candidates. */
    method Select(chosen: seq<Memory>) returns (selected: set<string>)
      requires PrintsUuids(hash)
      ensures Selects(hash, selected, KeysOf(hash, chosen))
    {
      selected := {};
      SelectsNothing(hash);
      for i := 0 to |chosen|
        invariant Selects(hash, selected, KeysOf(hash, chosen[..i]))
      {
        SelectsOneMore(hash, selected, chosen, i);
        selected := selected + {SelectionKey(chosen[i].agentId, PointId(hash, chosen[i]))};
      }
      assert chosen[..|chosen|] == chosen;
    }

    /** Deletes the oldest stale memories up to the limit. `order` is the oldest-first listing that the
        batch is cut from; among equally old memories it depends on the order of map iteration. */
    method DeleteStaleMemories(p: GcParams) returns (r: Result<seq<Memory>, string>, ghost order: seq<Memory>)
      requires Valid()
      modifies this
      ensures Valid()
      ensures r.Failure? <==> p.level == 0 || p.createdBeforeMs == 0
      ensures r.Failure? ==> memories == old(memories)
      ensures r.Success? ==> IsBatch(hash, old(memories), p, order, r.value, memories)
    {
      order := [];
      if p.level == 0 {
        r := Failure("memory level is required");
        return;
      }
      if p.createdBeforeMs == 0 {
        r := Failure("created_before_ms is required");
        return;
      }
      var candidates := StaleCandidates(p);
      SortPermutes(candidates, OLDER);
      SortOrdered(candidates, OLDER);
      candidates := Sort(candidates, OLDER);
      order := candidates;
      var deleted := Take(candidates, ClampLimit(p.limit, DEFAULT_SCROLL_LIMIT, MAX_SCROLL_LIMIT));
      var selected := Select(deleted);
      KeepAllWellFiled(hash, memories, KeysOf(hash, deleted));
      RemoveSelected(selected, KeysOf(hash, deleted));
      r := Success(deleted);
    }
  }

  /** One deletion: the batch is the limit's worth of oldest stale memories, and what goes is every
      memory that shares its agent and point with one of them. */
  ghost predicate IsBatch(hash: string -> string, store: Store, p: GcParams, order: seq<Memory>, deleted: seq<Memory>,
                          after: Store) {
    && OldestFirst(store, p, order)
    && deleted == Take(order, ClampLimit(p.limit, DEFAULT_SCROLL_LIMIT, MAX_SCROLL_LIMIT))
    && after == KeepAll(hash, store, KeysOf(hash, deleted))
  }

  /** What a batch reports and removes, in the terms of the memories. `order` lists what is of the level, created by
      the cutoff and, if there is a threshold, accessed less often, each as often as it is stored, oldest
      first. The front of it is reported, up to the limit: a hundred if none is given, a thousand at
      most. A memory stays exactly if nothing reported has its agent and point. */
  lemma BatchExactly(hash: string -> string, store: Store, p: GcParams, order: seq<Memory>, deleted: seq<Memory>,
                     after: Store, m: Memory)
    requires WellFiled(store) && IsBatch(hash, store, p, order, deleted, after)
    ensures var n := if p.limit <= 0 then 100 else if p.limit > 1000 then 1000 else p.limit;
      deleted == if |order| <= n then order else order[..n]
    ensures forall i, j :: 0 <= i < j < |order| ==> order[i].createdAtMs <= order[j].createdAtMs
    ensures m in order ==> m.level == p.level && m.createdAtMs <= p.createdBeforeMs
    ensures m in order && p.accessCountBelow > 0 ==> m.accessCount < p.accessCountBelow
    ensures m.level == p.level && m.createdAtMs <= p.createdBeforeMs
            && (p.accessCountBelow == 0 || m.accessCount < p.accessCountBelow) ==>
              multiset(order)[m] == multiset(ItemsOf(store, m.agentId))[m]
    ensures m in ItemsOf(after, m.agentId) <==>
            m in ItemsOf(store, m.agentId)
            && forall n :: n in deleted && n.agentId == m.agentId ==> PointId(hash, n) != PointId(hash, m)
  {
    OldestFirstMembers(store, p, order, m);
    if m.agentId in store {
      KeepMembers(hash, store[m.agentId], KeysOf(hash, deleted), m);
    }
  }

  // ---------------------------------------------------------------- Lemmas of the methods

  lemma LatestKeys(touches: seq<Touch>)
    ensures forall p :: p in Latest(touches) ==> Latest(touches)[p].pointId == p
  {
  }

  lemma TouchedAllNone(hash: string -> string, store: Store, at: int)
    ensures TouchedAll(hash, store, map[], at) == store
  {
    forall a | a in store ensures TouchedItems(hash, store[a], map[], at) == store[a] {
      TouchNone(hash, store[a], at);
    }
  }

  lemma TouchedAllOneMore(hash: string -> string, store: Store, done: map<string, Touch>, t: Touch, at: int)
    requires t.pointId !in done
    ensures TouchedAll(hash, TouchedAll(hash, store, done, at), map[t.pointId := t], at)
         == TouchedAll(hash, store, done[t.pointId := t], at)
  {
    forall a | a in store
      ensures TouchedItems(hash, TouchedItems(hash, store[a], done, at), map[t.pointId := t], at)
           == TouchedItems(hash, store[a], done[t.pointId := t], at)
    {
      TouchOneMore(hash, store[a], done, t, at);
    }
  }

  lemma TouchedAllWellFiled(hash: string -> string, store: Store, latest: map<string, Touch>, at: int)
    requires WellFiled(store)
    ensures WellFiled(TouchedAll(hash, store, latest, at))
  {
    forall a, m | a in store && m in TouchedItems(hash, store[a], latest, at) ensures m.agentId == a {
      TouchMember(hash, store[a], latest, at, m);
    }
  }

  lemma UpsertWellFiled(store: Store, m: Memory)
    requires WellFiled(store)
    ensures WellFiled(Upserted(store, m))
  {
    var items := ItemsOf(store, m.agentId);
    FindIsFirst(items, m.memoryId);
    forall x | x in Upsert(items, m) ensures x.agentId == m.agentId {
      assert x == m || x in items;
    }
  }

  lemma LeveledWellFiled(store: Store, a: string, i: nat, level: nat)
    requires WellFiled(store) && a in store && i < |store[a]|
    ensures WellFiled(Leveled(store, a, i, level))
  {
    assert store[a][i] in store[a];
  }

  lemma PointIdHasNoBar(hash: string -> string, m: Memory)
    requires PrintsUuids(hash)
    ensures '|' !in PointId(hash, m)
  {
    NormalizedHasNoBar(hash, m.pointId);
    NormalizedHasNoBar(hash, m.memoryId);
  }

  /** The text keys stand for exactly these keys, for points that hold no bar. */
  ghost predicate Selects(hash: string -> string, selected: set<string>, gone: set<Key>) {
    forall a, p :: '|' !in p ==> (SelectionKey(a, p) in selected <==> (a, p) in gone)
  }

  lemma SelectsNothing(hash: string -> string)
    ensures Selects(hash, {}, KeysOf(hash, []))
  {
  }

  lemma KeysOneMore(hash: string -> string, ms: seq<Memory>, i: nat)
    requires i < |ms|
    ensures KeysOf(hash, ms[..i + 1]) == KeysOf(hash, ms[..i]) + {KeyOf(hash, ms[i])}
  {
    assert ms[..i + 1] == ms[..i] + [ms[i]];
  }

  lemma SelectsOneMore(hash: string -> string, selected: set<string>, ms: seq<Memory>, i: nat)
    requires PrintsUuids(hash) && i < |ms| && Selects(hash, selected, KeysOf(hash, ms[..i]))
    ensures Selects(hash, selected + {SelectionKey(ms[i].agentId, PointId(hash, ms[i]))}, KeysOf(hash, ms[..i + 1]))
  {
    var m := ms[i];
    PointIdHasNoBar(hash, m);
    KeysOneMore(hash, ms, i);
    forall a, p | '|' !in p
      ensures SelectionKey(a, p) in selected + {SelectionKey(m.agentId, PointId(hash, m))} <==>
                (a, p) in KeysOf(hash, ms[..i + 1])
    {
      SelectionKeyInjective(a, p, m.agentId, PointId(hash, m));
    }
  }
}
