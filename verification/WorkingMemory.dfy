/**
  The working memory of an agent: a window of its newest entries, kept by the in-memory cache as a
  sorted list cut after every push, and by Redis as a sorted set trimmed by script.

  Both are proved to hold the newest entries of everything pushed since the window last expired, and,
  when no two entries share a timestamp, the same entries in the same order.
*/
module WorkingMemory {
  import opened StableSorting
  import opened TopN

  datatype Entry = Entry(memoryId: string, createdAtMs: int, content: string)

  /** The cache's order: newer first, then the larger identifier. */
  const RECENT: (Entry, Entry) -> bool :=
    (x: Entry, y: Entry) =>
      x.createdAtMs > y.createdAtMs || (x.createdAtMs == y.createdAtMs && LexLess(y.memoryId, x.memoryId))

  /** The order of a sorted set read from the top: larger score first, then the larger member text. */
  function ByMember(payload: Entry -> string): (Entry, Entry) -> bool {
    (x: Entry, y: Entry) =>
      x.createdAtMs > y.createdAtMs || (x.createdAtMs == y.createdAtMs && LexLess(payload(y), payload(x)))
  }

  const LATER: (Entry, Entry) -> bool := (x: Entry, y: Entry) => x.createdAtMs > y.createdAtMs

  lemma MemberOrder(payload: Entry -> string)
    ensures StrictWeakOrder(ByMember(payload))
  {
    var less := ByMember(payload);
    forall x, y | less(x, y) ensures !less(y, x) {
      LexAsymmetric(payload(x), payload(y));
    }
    forall x, y, z | !less(y, x) && !less(z, y) ensures !less(z, x) {
      if x.createdAtMs == y.createdAtMs == z.createdAtMs {
        LexNotBefore(payload(z), payload(y), payload(x));
      }
    }
  }

  lemma RecentOrder()
    ensures StrictWeakOrder(RECENT)
  {
    var id := (e: Entry) => e.memoryId;
    MemberOrder(id);
    assert forall x, y :: RECENT(x, y) <==> ByMember(id)(x, y);
  }

  // ---------------------------------------------------------------- The cache

  function Stamped(entry: Entry, nowMs: int): Entry {
    if entry.createdAtMs == 0 then entry.(createdAtMs := nowMs) else entry
  }

  method Prune(entries: seq<Entry>, limit: int) returns (r: seq<Entry>)
    ensures IsTop(r, multiset(entries), if limit <= 0 then 0 else limit, RECENT)
  {
    if limit <= 0 || |entries| == 0 {
      return [];
    }
    RecentOrder();
    var sorted := SortAny(entries, RECENT);
    CutIsTop(sorted, multiset(entries), limit, RECENT);
    r := if |sorted| > limit then sorted[..limit] else sorted;
    assert r == sorted[..Min(limit, |sorted|)];
  }

  /** Every window holds the newest entries of its history. */
  ghost predicate Windows(windows: map<string, seq<Entry>>, pushed: map<string, multiset<Entry>>, n: nat) {
    windows.Keys == pushed.Keys && forall a :: a in windows ==> IsTop(windows[a], pushed[a], n, RECENT)
  }

  function WindowOf(windows: map<string, seq<Entry>>, a: string): seq<Entry> {
    if a in windows then windows[a] else []
  }

  function HistoryOf(pushed: map<string, multiset<Entry>>, a: string): multiset<Entry> {
    if a in pushed then pushed[a] else multiset{}
  }

  /** A pruned push keeps the window of its agent, and touches no other. */
  lemma PushKeepsWindows(windows: map<string, seq<Entry>>, pushed: map<string, multiset<Entry>>, n: nat, a: string,
                         e: Entry, r: seq<Entry>)
    requires Windows(windows, pushed, n) && IsTop(r, multiset(WindowOf(windows, a) + [e]), n, RECENT)
    ensures Windows(windows[a := r], Extended(pushed, a, e), n)
  {
    WindowTop(windows, pushed, n, a);
    PushKeepsTop(WindowOf(windows, a), HistoryOf(pushed, a), n, e, r);
  }

  lemma WindowTop(windows: map<string, seq<Entry>>, pushed: map<string, multiset<Entry>>, n: nat, a: string)
    requires Windows(windows, pushed, n)
    ensures IsTop(WindowOf(windows, a), HistoryOf(pushed, a), n, RECENT)
  {
  }

  lemma PushKeepsTop(w: seq<Entry>, all: multiset<Entry>, n: nat, e: Entry, r: seq<Entry>)
    requires IsTop(w, all, n, RECENT) && IsTop(r, multiset(w + [e]), n, RECENT)
    ensures IsTop(r, all + multiset{e}, n, RECENT)
  {
    assert multiset(w + [e]) == multiset(w) + multiset{e};
    RecentOrder();
    TopPush(w, e, all, r, n, RECENT);
  }

  /** The map without a's entry, if that is to be dropped. */
  function Without<V>(m: map<string, V>, a: string, drop: bool): map<string, V> {
    if drop then m - {a} else m
  }

  /** Whatever becomes of a's entry, the others stay. */
  lemma OthersStay<V>(m: map<string, V>, a: string, drop: bool, v: V)
    ensures m[a := v] - {a} == m - {a} && Without(m, a, drop) - {a} == m - {a}
  {
  }

  /** The histories after one more push. */
  function Extended(pushed: map<string, multiset<Entry>>, a: string, e: Entry): map<string, multiset<Entry>> {
    pushed[a := HistoryOf(pushed, a) + multiset{e}]
  }

  class MockClient {
    var workingMemory: map<string, seq<Entry>>
    var expiry: map<string, int>
    const ttl: int
    const maxEntries: nat

    /** Everything pushed since the agent's window last expired. */
    ghost var pushed: map<string, multiset<Entry>>

    ghost predicate Valid()
      reads this
    {
      maxEntries > 0 && Windows(workingMemory, pushed, maxEntries)
    }

    constructor (ttl: int, maxEntries: nat)
      requires maxEntries > 0
      ensures Valid() && pushed == map[] && this.ttl == ttl && this.maxEntries == maxEntries
    {
      workingMemory, expiry, pushed := map[], map[], map[];
      this.ttl, this.maxEntries := ttl, maxEntries;
    }

    predicate Expired(agentId: string, now: int)
      reads this
    {
      agentId in expiry && now >= expiry[agentId]
    }

    method ClearExpired(agentId: string, now: int)
      requires Valid()
      modifies this
      ensures Valid()
      ensures workingMemory == Without(old(workingMemory), agentId, old(Expired(agentId, now)))
      ensures pushed == Without(old(pushed), agentId, old(Expired(agentId, now)))
      ensures expiry == Without(old(expiry), agentId, old(Expired(agentId, now)))
    {
      if Expired(agentId, now) {
        workingMemory := workingMemory - {agentId};
        expiry := expiry - {agentId};
        pushed := pushed - {agentId};
      }
    }

    /** The three readings of the clock: for expiry, for an entry without a time, for the new expiry. */
    method PushWorkingMemory(agentId: string, entry: Entry, checkedAt: int, stampedAtMs: int, renewedAt: int)
      requires Valid()
      modifies this
      ensures Valid()
      ensures pushed == Extended(Without(old(pushed), agentId, old(Expired(agentId, checkedAt))), agentId,
                                 Stamped(entry, stampedAtMs))
      ensures workingMemory - {agentId} == old(workingMemory) - {agentId}
      ensures expiry == Without(old(expiry), agentId, old(Expired(agentId, checkedAt)))[agentId := renewedAt + ttl]
      ensures agentId in pushed && pushed[agentId] ==
                (if agentId !in old(pushed) || (agentId in old(expiry) && checkedAt >= old(expiry)[agentId])
                 then multiset{} else old(pushed)[agentId])
                + multiset{if entry.createdAtMs == 0 then entry.(createdAtMs := stampedAtMs) else entry}
    {
      OthersStay(workingMemory, agentId, Expired(agentId, checkedAt), []);
      ClearExpired(agentId, checkedAt);
      Append(agentId, Stamped(entry, stampedAtMs), renewedAt);
    }

    method Append(agentId: string, e: Entry, renewedAt: int)
      requires Valid()
      modifies this
      ensures Valid()
      ensures pushed == Extended(old(pushed), agentId, e)
      ensures workingMemory - {agentId} == old(workingMemory) - {agentId}
      ensures expiry == old(expiry)[agentId := renewedAt + ttl]
    {
      var r := Prune(WindowOf(workingMemory, agentId) + [e], maxEntries);
      PushKeepsWindows(workingMemory, pushed, maxEntries, agentId, e, r);
      OthersStay(workingMemory, agentId, false, r);
      expiry := expiry[agentId := renewedAt + ttl];
      workingMemory := workingMemory[agentId := r];
      pushed := Extended(pushed, agentId, e);
    }

    /** The window, latest first; nothing once it has expired. */
    method GetWorkingMemory(agentId: string, now: int) returns (out: seq<Entry>)
      requires Valid()
      modifies this
      ensures Valid()
      ensures workingMemory == Without(old(workingMemory), agentId, old(Expired(agentId, now)))
      ensures pushed == Without(old(pushed), agentId, old(Expired(agentId, now)))
      ensures multiset(out) == multiset(WindowOf(workingMemory, agentId)) && Ordered(out, LATER)
      ensures agentId in old(expiry) && now >= old(expiry)[agentId] ==> out == []
      ensures agentId in old(workingMemory) && (agentId in old(expiry) ==> now < old(expiry)[agentId]) ==>
                multiset(out) == multiset(old(workingMemory)[agentId])
      ensures forall i, j :: 0 <= i < j < |out| ==> out[i].createdAtMs >= out[j].createdAtMs
    {
      ClearExpired(agentId, now);
      assert StrictWeakOrder(LATER);
      out := SortAny(WindowOf(workingMemory, agentId), LATER);
    }
  }

  // ---------------------------------------------------------------- What the window holds

  /** Different entries differ in time or identifier. */
  ghost predicate DistinctKeys(all: multiset<Entry>) {
    forall x, y :: x in all && y in all && x.createdAtMs == y.createdAtMs && x.memoryId == y.memoryId ==> x == y
  }

  lemma DistinctKeysTotal(all: multiset<Entry>)
    requires DistinctKeys(all)
    ensures Total(all, RECENT)
  {
    forall x, y | x in all && y in all && x != y ensures RECENT(x, y) || RECENT(y, x) {
      LexTotal(x.memoryId, y.memoryId);
    }
  }

  /** A window lists its entries newest first, at one time the larger identifier first, and what it has left out
      is older, or of the same time with an identifier that is not larger. */
  lemma WindowInOrder(w: seq<Entry>, all: multiset<Entry>, n: nat)
    requires IsTop(w, all, n, RECENT)
    ensures forall i, j :: 0 <= i < j < |w| ==>
              w[i].createdAtMs > w[j].createdAtMs
              || (w[i].createdAtMs == w[j].createdAtMs && !LexLess(w[i].memoryId, w[j].memoryId))
    ensures forall x, y :: x in all - multiset(w) && y in w ==>
              x.createdAtMs < y.createdAtMs
              || (x.createdAtMs == y.createdAtMs && !LexLess(y.memoryId, x.memoryId))
  {
    forall i, j | 0 <= i < j < |w| ensures !RECENT(w[j], w[i]) {
    }
    forall x, y | x in all - multiset(w) && y in w ensures !RECENT(x, y) {
    }
  }

  /** The same for the members of the sorted set, with the text of the member in place of the identifier. */
  lemma MembersInOrder(z: seq<Entry>, all: multiset<Entry>, n: nat, payload: Entry -> string)
    requires IsTop(z, all, n, ByMember(payload))
    ensures forall i, j :: 0 <= i < j < |z| ==>
              z[i].createdAtMs > z[j].createdAtMs
              || (z[i].createdAtMs == z[j].createdAtMs && !LexLess(payload(z[i]), payload(z[j])))
    ensures forall x, y :: x in all - multiset(z) && y in z ==>
              x.createdAtMs < y.createdAtMs
              || (x.createdAtMs == y.createdAtMs && !LexLess(payload(y), payload(x)))
  {
    var less := ByMember(payload);
    forall i, j | 0 <= i < j < |z| ensures !less(z[j], z[i]) {
    }
    forall x, y | x in all - multiset(z) && y in z ensures !less(x, y) {
    }
  }

  function Cut<T>(s: seq<T>, n: nat): seq<T> {
    if |s| > n then s[..n] else s
  }

  /** Incremental pruning forgets nothing it should keep: with distinct keys the window is the front of
      the whole history sorted once, whichever sort is used. */
  lemma WindowIsNewest(w: seq<Entry>, history: seq<Entry>, n: nat)
    requires DistinctKeys(multiset(history)) && IsTop(w, multiset(history), n, RECENT)
    ensures w == Cut(Sort(history, RECENT), n)
  {
    RecentOrder();
    SortOrdered(history, RECENT);
    SortPermutes(history, RECENT);
    CutIsTop(Sort(history, RECENT), multiset(history), n, RECENT);
    DistinctKeysTotal(multiset(history));
    assert Cut(Sort(history, RECENT), n) == Sort(history, RECENT)[..Min(n, |history|)];
    TopUnique(w, Cut(Sort(history, RECENT), n), multiset(history), n, RECENT);
  }

  // ---------------------------------------------------------------- The sorted set

  /** One key of the server, its members listed from the highest rank down. `payload` is the JSON text of
      an entry, which is the member; the entry's time is its score. */
  class SortedSet {
    var members: seq<Entry>
    var expiresAt: int
    const payload: Entry -> string
    const maxEntries: nat
    const ttl: int

    /** Every entry added since the key last expired. */
    ghost var added: set<Entry>

    ghost predicate Valid()
      reads this
    {
      Injective(payload) && IsTop(members, multiset(added), maxEntries, ByMember(payload))
    }

    /** What a reader finds, latest first: nothing once the key has expired. */
    function Live(now: int): seq<Entry>
      reads this
    {
      if now < expiresAt then members else []
    }

    ghost function Since(now: int): set<Entry>
      reads this
    {
      if now < expiresAt then added else {}
    }

    constructor (payload: Entry -> string, maxEntries: nat, ttl: int)
      requires Injective(payload)
      ensures Valid() && added == {} && members == []
      ensures this.payload == payload && this.maxEntries == maxEntries && this.ttl == ttl
    {
      members, expiresAt, added := [], 0, {};
      this.payload, this.maxEntries, this.ttl := payload, maxEntries, ttl;
    }

    /** The push script: add the member, count, remove the lowest ranks beyond the maximum, set the expiry and
        return the count. Running it again after a lost reply changes nothing but the expiry. */
    method PushScript(e: Entry, now: int) returns (count: nat)
      requires Valid()
      modifies this
      ensures Valid() && added == old(Since(now)) + {e} && expiresAt == now + ttl
      ensures e in old(Since(now)) ==> members == old(Live(now))
      ensures count == |old(Live(now))| + if e in old(Live(now)) then 0 else 1
      ensures now >= old(expiresAt) ==> added == {e} && count == 1
      ensures now < old(expiresAt) ==>
                added == old(added) + {e} && count == |old(members)| + if e in old(members) then 0 else 1
    {
      LiveIsTop(now);
      var live := Live(now);
      var less := ByMember(payload);
      var z := if e in live then live else Insert(e, live, less);
      count := |z|;
      InsertLength(e, live, less);
      ScriptKeepsTop(live, e, Since(now), maxEntries, payload);
      members, added := if count > maxEntries then z[..maxEntries] else z, Since(now) + {e};
      expiresAt := now + ttl;
    }

    /** The whole set, highest rank first; nothing once the key has expired. */
    method GetWorkingMemory(now: int) returns (r: seq<Entry>)
      requires Valid()
      ensures r == if now < expiresAt then members else []
      ensures forall i, j :: 0 <= i < j < |r| ==> r[i].createdAtMs >= r[j].createdAtMs
    {
      MembersInOrder(members, multiset(added), maxEntries, payload);
      r := Live(now);
    }

    lemma LiveIsTop(now: int)
      requires Valid()
      ensures IsTop(Live(now), multiset(Since(now)), maxEntries, ByMember(payload))
    {
    }
  }

  ghost predicate Injective(payload: Entry -> string) {
    forall x, y :: payload(x) == payload(y) ==> x == y
  }

  lemma MemberTotal(payload: Entry -> string, all: multiset<Entry>)
    requires Injective(payload)
    ensures Total(all, ByMember(payload))
  {
    forall x, y | x in all && y in all && x != y ensures ByMember(payload)(x, y) || ByMember(payload)(y, x) {
      LexTotal(payload(x), payload(y));
    }
  }

  function AfterScript(z: seq<Entry>, e: Entry, n: nat, less: (Entry, Entry) -> bool): seq<Entry> {
    var grown := if e in z then z else Insert(e, z, less);
    if |grown| > n then grown[..n] else grown
  }

  lemma GrownTop(z: seq<Entry>, e: Entry, n: nat, payload: Entry -> string)
    requires e !in z && Ordered(z, ByMember(payload))
    ensures IsTop(AfterScript(z, e, n, ByMember(payload)), multiset(z) + multiset{e}, n, ByMember(payload))
  {
    var less := ByMember(payload);
    MemberOrder(payload);
    InsertOrdered(e, z, less);
    InsertPermutes(e, z, less);
    var grown := Insert(e, z, less);
    CutIsTop(grown, multiset(z) + multiset{e}, n, less);
    assert AfterScript(z, e, n, less) == grown[..Min(n, |grown|)];
  }

  /** What the script must do with e. */
  ghost predicate ScriptOk(z: seq<Entry>, e: Entry, added: set<Entry>, n: nat, payload: Entry -> string,
                           r: seq<Entry>) {
    IsTop(r, multiset(added + {e}), n, ByMember(payload)) && (e in added ==> r == z)
  }

  lemma ScriptKeepsTop(z: seq<Entry>, e: Entry, added: set<Entry>, n: nat, payload: Entry -> string)
    requires Injective(payload) && IsTop(z, multiset(added), n, ByMember(payload))
    ensures ScriptOk(z, e, added, n, payload, AfterScript(z, e, n, ByMember(payload)))
  {
    if e in z {
      PresentMember(z, e, added, n, payload);
    } else {
      GrownTop(z, e, n, payload);
      if e in added {
        EvictedMember(z, e, added, n, payload, AfterScript(z, e, n, ByMember(payload)));
      } else {
        NewMember(z, e, added, n, payload, AfterScript(z, e, n, ByMember(payload)));
      }
    }
  }

  lemma PresentMember(z: seq<Entry>, e: Entry, added: set<Entry>, n: nat, payload: Entry -> string)
    requires IsTop(z, multiset(added), n, ByMember(payload)) && e in z
    ensures ScriptOk(z, e, added, n, payload, AfterScript(z, e, n, ByMember(payload)))
  {
    assert e in multiset(z);
    assert added + {e} == added;
  }

  lemma EvictedMember(z: seq<Entry>, e: Entry, added: set<Entry>, n: nat, payload: Entry -> string, r: seq<Entry>)
    requires Injective(payload) && IsTop(z, multiset(added), n, ByMember(payload)) && e in added && e !in z
    requires IsTop(r, multiset(z) + multiset{e}, n, ByMember(payload))
    ensures ScriptOk(z, e, added, n, payload, r)
  {
    assert added + {e} == added;
    EvictedAgain(z, e, added, n, payload, r);
  }

  lemma NewMember(z: seq<Entry>, e: Entry, added: set<Entry>, n: nat, payload: Entry -> string, r: seq<Entry>)
    requires IsTop(z, multiset(added), n, ByMember(payload)) && e !in added
    requires IsTop(r, multiset(z) + multiset{e}, n, ByMember(payload))
    ensures ScriptOk(z, e, added, n, payload, r)
  {
    MemberOrder(payload);
    assert multiset(added + {e}) == multiset(added) + multiset{e};
    TopPush(z, e, multiset(added), r, n, ByMember(payload));
  }

  /** An entry that was evicted before is evicted again. */
  lemma EvictedAgain(z: seq<Entry>, e: Entry, added: set<Entry>, n: nat, payload: Entry -> string, r: seq<Entry>)
    requires Injective(payload) && IsTop(z, multiset(added), n, ByMember(payload)) && e in added && e !in z
    requires IsTop(r, multiset(z) + multiset{e}, n, ByMember(payload))
    ensures r == z
  {
    var less := ByMember(payload);
    var all := multiset(z) + multiset{e};
    assert e !in multiset(z);
    assert e in multiset(added) - multiset(z);
    assert |multiset(added) - multiset(z)| == |multiset(added)| - |z|;
    assert |z| == n;
    assert all - multiset(z) == multiset{e};
    assert IsTop(z, all, n, less);
    MemberTotal(payload, all);
    TopUnique(r, z, all, n, less);
  }

  // ---------------------------------------------------------------- The two windows agree

  ghost predicate DistinctTimes(all: set<Entry>) {
    forall x, y :: x in all && y in all && x.createdAtMs == y.createdAtMs ==> x == y
  }

  lemma OrdersAgree(payload: Entry -> string, all: set<Entry>, x: Entry, y: Entry)
    requires DistinctTimes(all) && x in all && y in all
    ensures RECENT(x, y) <==> ByMember(payload)(x, y)
  {
    LexAsymmetric(x.memoryId, x.memoryId);
    LexAsymmetric(payload(x), payload(x));
  }

  /** With distinct timestamps the cache and the sorted set hold the same entries in the same order. */
  lemma WindowsAgree(w: seq<Entry>, z: seq<Entry>, all: set<Entry>, n: nat, payload: Entry -> string)
    requires Injective(payload) && DistinctTimes(all)
    requires IsTop(w, multiset(all), n, RECENT) && IsTop(z, multiset(all), n, ByMember(payload))
    ensures w == z
  {
    var less := ByMember(payload);
    forall i, j | 0 <= i < j < |w| ensures !less(w[j], w[i]) {
      assert w[i] in multiset(w) && w[j] in multiset(w);
      OrdersAgree(payload, all, w[j], w[i]);
    }
    forall x, y | x in multiset(all) - multiset(w) && y in w ensures !less(x, y) {
      assert y in multiset(w);
      OrdersAgree(payload, all, x, y);
    }
    MemberTotal(payload, multiset(all));
    TopUnique(w, z, multiset(all), n, less);
  }
}
