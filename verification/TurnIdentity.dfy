/**
  The identifiers of stored turns. A turn's identifier is its agent, a separator and its millisecond, so every
  stored memory answers to its own name and to no other, and evaluation raises exactly the memories that
  qualify. What has reached level 3 stays there exactly if no later turn has its identifier; and as long as no
  agent has two intense turns in one millisecond every turn is fresh, and the life cycle holds for the runs
  of the program itself.
*/
module TurnIdentity {
  import opened Wrappers
  import opened Text
  import opened MemoryStore
  import opened MemoryGc
  import opened MemoryLifecycle

  // ---------------------------------------------------------------- Printed numbers

  predicate IsDigit(c: char) {
    '0' <= c <= '9'
  }

  predicate Digits(s: string) {
    forall i :: 0 <= i < |s| ==> IsDigit(s[i])
  }

  /** The number that a text of digits stands for. */
  function Value(s: string): nat
    requires Digits(s)
  {
    if s == [] then 0 else 10 * Value(s[..|s| - 1]) + (s[|s| - 1] - '0') as nat
  }

  lemma {:induction false} DecimalReads(n: nat)
    ensures Decimal(n) != [] && Digits(Decimal(n)) && Value(Decimal(n)) == n
  {
    var s := Decimal(n);
    if n < 10 {
      assert s[..0] == [];
    } else {
      DecimalReads(n / 10);
      assert s[..|s| - 1] == Decimal(n / 10);
    }
  }

  lemma PrintedShape(n: int)
    ensures Printed(n) != [] && IsDigit(Printed(n)[|Printed(n)| - 1]) && (Printed(n)[0] == '-' <==> n < 0)
    ensures forall i :: 0 <= i < |Printed(n)| ==> Printed(n)[i] == '-' || IsDigit(Printed(n)[i])
  {
    DecimalReads(if n < 0 then -n else n);
  }

  lemma PrintedInjective(x: int, y: int)
    requires Printed(x) == Printed(y)
    ensures x == y
  {
    PrintedShape(x);
    PrintedShape(y);
    DecimalReads(if x < 0 then -x else x);
    DecimalReads(if y < 0 then -y else y);
    if x < 0 {
      assert Printed(x)[1..] == Decimal(-x) && Printed(y)[1..] == Decimal(-y);
    }
  }

  // ---------------------------------------------------------------- Turn identifiers

  /** Where the agent ends: the last letter n of the identifier is that of the separator. */
  lemma TurnIdShape(a: string, x: int)
    ensures var s := TurnId(a, x);
      && |s| > |a| + 6 && s[..|a|] == a && s[|a|] == '-' && s[|a| + 1] == 't' && s[|a| + 4] == 'n'
      && s[|a| + 6..] == Printed(x) && IsDigit(s[|s| - 1])
      && forall i :: |a| + 4 < i < |s| ==> s[i] != 'n'
  {
    PrintedShape(x);
    var s := TurnId(a, x);
    var sep := "-turn-";
    assert forall i :: 0 <= i < 6 ==> s[|a| + i] == sep[i];
    assert forall i :: |a| + 6 <= i < |s| ==> s[i] == Printed(x)[i - |a| - 6];
  }

  /** The identifier names one agent and one millisecond, whatever agents are called. */
  lemma TurnIdInjective(a: string, x: int, b: string, y: int)
    requires TurnId(a, x) == TurnId(b, y)
    ensures a == b && x == y
  {
    TurnIdShape(a, x);
    TurnIdShape(b, y);
    assert |a| == |b|;
    PrintedInjective(x, y);
  }

  /** A turn's point is the hash of its trimmed identifier: it reads neither as a number nor as a UUID. */
  lemma TurnPoint(hash: string -> string, a: string, x: int)
    ensures NormalizePointId(hash, TurnId(a, x)) == hash(Trim(TurnId(a, x), GoSpace))
  {
    var s := TurnId(a, x);
    TurnIdShape(a, x);
    var i, j := TrimCuts(s, GoSpace);
    LetterIsKept(s, GoSpace, i, j, |a| + 1);
    assert s[i..j][|a| + 1 - i] == 't';
  }

  /** What is not white space survives trimming. */
  lemma LetterIsKept(s: string, space: char -> bool, i: nat, j: nat, k: nat)
    requires i <= j <= |s| && Blank(s[..i], space) && Blank(s[j..], space) && k < |s| && !space(s[k])
    ensures i <= k < j
  {
    assert forall m :: 0 <= m < i ==> s[..i][m] == s[m];
    assert forall m :: j <= m < |s| ==> s[j..][m - j] == s[m];
  }

  /** Trimming takes at most white space in front of the agent away. */
  lemma TrimmedTurn(a: string, x: int) returns (i: nat)
    ensures i <= |a| < |TurnId(a, x)| && Trim(TurnId(a, x), GoSpace) == TurnId(a, x)[i..]
  {
    var s := TurnId(a, x);
    TurnIdShape(a, x);
    var j;
    i, j := TrimCuts(s, GoSpace);
    LetterIsKept(s, GoSpace, i, j, |s| - 1);
    LetterIsKept(s, GoSpace, i, j, |a|);
  }

  /** The identifiers of one agent stay apart when trimmed. */
  lemma TrimmedIdInjective(a: string, x: int, y: int)
    requires Trim(TurnId(a, x), GoSpace) == Trim(TurnId(a, y), GoSpace)
    ensures x == y
  {
    var i := TrimmedTurn(a, x);
    var k := TrimmedTurn(a, y);
    TurnIdShape(a, x);
    TurnIdShape(a, y);
    SameStart(TurnId(a, x), TurnId(a, y), i, k, |a| + 4);
    SamePrefix(a, TurnId(a, x), TurnId(a, y), i);
    TurnIdInjective(a, x, a, y);
  }

  lemma SamePrefix(a: string, s: string, t: string, i: nat)
    requires i <= |a| <= |s| && |a| <= |t| && s[..|a|] == a == t[..|a|] && s[i..] == t[i..]
    ensures s == t
  {
    assert s == a[..i] + s[i..] && t == a[..i] + t[i..];
  }

  /** Two texts with their last letter n at one place and with a common rest begin that rest at one place. */
  lemma SameStart(s: string, t: string, i: nat, k: nat, n: nat)
    requires i <= n < |s| && k <= n < |t| && s[i..] == t[k..] && s[n] == 'n' && t[n] == 'n'
    requires forall m :: n < m < |s| ==> s[m] != 'n'
    requires forall m :: n < m < |t| ==> t[m] != 'n'
    ensures i == k
  {
    assert 'n' == s[n] == s[i..][n - i] == t[k..][n - i] == t[k + (n - i)];
    assert 'n' == t[n] == t[k..][n - k] == s[i..][n - k] == s[i + (n - k)];
  }

  // ---------------------------------------------------------------- Runs of the program

  /** A turn that is spoken, or any other call on the store. */
  datatype Event =
    | Said(agentId: string, nowMs: int, intensity: real, emotion: seq<real>)
    | Other(step: Step)
  {
    /** The turns that are stored. */
    predicate Kept() {
      Said? && intensity > PROMOTION.intensity && !Blank(agentId, GoSpace)
    }

    function Memory(): Memory
      requires Said?
    {
      StoredTurn(agentId, nowMs, intensity, emotion)
    }
  }

  /** What the store becomes: a kept turn is upserted whether or not its identifier is new. */
  ghost predicate Happens(hash: string -> string, s: Store, e: Event, s': Store) {
    if e.Said?
    then s' == if e.Kept() then Upserted(s, e.Memory()) else s
    else !e.step.Turn? && Next(hash, s, e.step, s')
  }

  ghost predicate History(hash: string -> string, ss: seq<Store>, events: seq<Event>) {
    && |ss| == |events| + 1 && ss[0] == map[]
    && forall n :: 0 <= n < |events| ==> Happens(hash, ss[n], events[n], ss[n + 1])
  }

  /** No agent has two kept turns in one millisecond. */
  predicate NoneTwice(events: seq<Event>) {
    forall i, j :: 0 <= i < j < |events| && events[i].Kept() && events[j].Kept()
      && events[i].agentId == events[j].agentId
      ==> events[i].nowMs != events[j].nowMs
  }

  /** What is hashed for the turns of the history. */
  function Hashed(events: seq<Event>): set<string> {
    set e | e in events && e.Kept() :: Trim(TurnId(e.agentId, e.nowMs), GoSpace)
  }

  ghost predicate CollisionFree(hash: string -> string, texts: set<string>) {
    forall x, y :: x in texts && y in texts && hash(x) == hash(y) ==> x == y
  }

  /** The step of the life cycle that an event is; a turn that is not kept changes nothing. */
  function StepOf(e: Event): Step {
    if e.Kept() then Turn(e.Memory()) else if e.Said? then Promote("") else e.step
  }

  function StepsOf(events: seq<Event>): seq<Step> {
    seq(|events|, i requires 0 <= i < |events| => StepOf(events[i]))
  }

  // ---------------------------------------------------------------- Where memories come from

  /** One of the first n events stored the memory. */
  ghost predicate Comes(events: seq<Event>, n: nat, m: Memory) {
    exists k :: 0 <= k < n <= |events| && events[k].Kept() && ComesFrom(events[k], m)
  }

  predicate ComesFrom(e: Event, m: Memory)
    requires e.Said?
  {
    m.agentId == e.agentId && m.memoryId == TurnId(e.agentId, e.nowMs) && m.pointId == m.memoryId
  }

  ghost predicate AllCome(events: seq<Event>, n: nat, s: Store) {
    forall a, m :: a in s && m in s[a] ==> Comes(events, n, m)
  }

  /** The event that stored a memory of the store. */
  lemma Origin(events: seq<Event>, n: nat, s: Store, a: string, m: Memory) returns (e: Event)
    requires AllCome(events, n, s) && a in s && m in s[a]
    ensures n <= |events| && e in events[..n] && e.Kept() && ComesFrom(e, m)
  {
    assert Comes(events, n, m);
    var k :| 0 <= k < n <= |events| && events[k].Kept() && ComesFrom(events[k], m);
    e := events[k];
    assert events[..n][k] == e;
  }

  lemma PointOfTurn(hash: string -> string, e: Event, m: Memory)
    requires e.Said? && ComesFrom(e, m) && PrintsUuids(hash)
    ensures PointId(hash, m) == hash(Trim(TurnId(e.agentId, e.nowMs), GoSpace))
  {
    TurnPoint(hash, e.agentId, e.nowMs);
    assert IsUuid(hash(Trim(TurnId(e.agentId, e.nowMs), GoSpace)));
  }

  lemma KeptTurn(e: Event)
    requires e.Kept()
    ensures ComesFrom(e, e.Memory()) && e.Memory().level == 2 && !e.Memory().isPseudopermanent
  {
    TurnIdShape(e.agentId, e.nowMs);
  }

  ghost predicate Absent(s: Store, e: Event)
    requires e.Said?
  {
    forall x :: x in ItemsOf(s, e.agentId) ==> x.memoryId != TurnId(e.agentId, e.nowMs)
  }

  /** A turn is fresh if its identifier is not in use. */
  lemma AbsentIsFresh(hash: string -> string, events: seq<Event>, n: nat, s: Store)
    requires n < |events| && events[n].Kept() && Absent(s, events[n])
    requires PrintsUuids(hash) && CollisionFree(hash, Hashed(events))
    requires WellFiled(s) && AllCome(events, n, s)
    ensures Fresh(hash, s, events[n].Memory())
  {
    var e := events[n];
    var m := e.Memory();
    KeptTurn(e);
    forall x | x in ItemsOf(s, m.agentId) ensures x.memoryId != m.memoryId && PointId(hash, x) != PointId(hash, m) {
      var f := Origin(events, n, s, m.agentId, x);
      assert e in events && f in events;
      TurnsApart(hash, events, e, m, f, x);
    }
  }

  /** It is not if its agent has no other turn in its millisecond. */
  lemma NoneTwiceIsAbsent(events: seq<Event>, n: nat, s: Store)
    requires n < |events| && events[n].Kept() && NoneTwice(events) && WellFiled(s) && AllCome(events, n, s)
    ensures Absent(s, events[n])
  {
    var e := events[n];
    forall x | x in ItemsOf(s, e.agentId) ensures x.memoryId != TurnId(e.agentId, e.nowMs) {
      var f := Origin(events, n, s, e.agentId, x);
      assert f.nowMs != e.nowMs;
      if x.memoryId == TurnId(e.agentId, e.nowMs) {
        TurnIdInjective(f.agentId, f.nowMs, e.agentId, e.nowMs);
      }
    }
  }

  /** Turns of one agent at different times have different identifiers and points. */
  lemma TurnsApart(hash: string -> string, events: seq<Event>, e: Event, m: Memory, f: Event, x: Memory)
    requires e in events && f in events && e.Kept() && f.Kept() && ComesFrom(e, m) && ComesFrom(f, x)
    requires PrintsUuids(hash) && CollisionFree(hash, Hashed(events))
    requires e.agentId == f.agentId && e.nowMs != f.nowMs
    ensures x.memoryId != m.memoryId && PointId(hash, x) != PointId(hash, m)
  {
    if x.memoryId == m.memoryId { TurnIdInjective(f.agentId, f.nowMs, e.agentId, e.nowMs); }
    PointOfTurn(hash, e, m);
    PointOfTurn(hash, f, x);
    assert Trim(TurnId(f.agentId, f.nowMs), GoSpace) in Hashed(events);
    assert Trim(TurnId(e.agentId, e.nowMs), GoSpace) in Hashed(events);
    if PointId(hash, x) == PointId(hash, m) { TrimmedIdInjective(e.agentId, e.nowMs, f.nowMs); }
  }

  lemma ComesLater(events: seq<Event>, n: nat, m: Memory)
    requires Comes(events, n, m) && n < |events|
    ensures Comes(events, n + 1, m)
  {
    var k :| 0 <= k < n && events[k].Kept() && ComesFrom(events[k], m);
  }

  lemma TurnComes(hash: string -> string, events: seq<Event>, n: nat, s: Store)
    requires n < |events| && events[n].Kept() && AllCome(events, n, s) && Fresh(hash, s, events[n].Memory())
    ensures AllCome(events, n + 1, Upserted(s, events[n].Memory()))
  {
    var m := events[n].Memory();
    KeptTurn(events[n]);
    FreshIsAppended(hash, s, m);
    var s' := Upserted(s, m);
    forall a, x | a in s' && x in s'[a] ensures Comes(events, n + 1, x) {
      if x != m || x in ItemsOf(s, a) {
        assert x in s[a];
        ComesLater(events, n, x);
      }
    }
  }

  lemma RefreshedCome(events: seq<Event>, n: nat, s: Store, s': Store)
    requires n < |events| && AllCome(events, n, s) && Refreshed(s, s')
    ensures AllCome(events, n + 1, s')
  {
    forall a, x | a in s' && x in s'[a] ensures Comes(events, n + 1, x) {
      var i :| 0 <= i < |s'[a]| && s'[a][i] == x;
      assert s[a][i] in s[a] && SameMemory(s[a][i], s'[a][i]);
      var e := Origin(events, n, s, a, s[a][i]);
      var k :| 0 <= k < n && events[k] == e;
      assert ComesFrom(events[k], x);
    }
  }

  lemma KeptCome(hash: string -> string, events: seq<Event>, n: nat, s: Store, gone: set<Key>)
    requires n < |events| && AllCome(events, n, s)
    ensures AllCome(events, n + 1, KeepAll(hash, s, gone))
  {
    forall a, x | a in s && x in Keep(hash, s[a], gone) ensures Comes(events, n + 1, x) {
      KeepMembers(hash, s[a], gone, x);
      ComesLater(events, n, x);
    }
  }

  lemma OtherComes(hash: string -> string, events: seq<Event>, n: nat, s: Store, step: Step, s': Store)
    requires n < |events| && AllCome(events, n, s) && Inv(hash, s) && !step.Turn? && Next(hash, s, step, s')
    ensures AllCome(events, n + 1, s')
  {
    match step
    case Touching(latest, at) =>
      TouchRefreshes(hash, s, latest, at);
      RefreshedCome(events, n, s, s');
    case Promote(id) =>
      PromotionRefreshes(hash, s, id, s');
      RefreshedCome(events, n, s, s');
    case Collect(p) =>
      if s' == s {
        forall a, x | a in s && x in s[a] ensures Comes(events, n + 1, x) { ComesLater(events, n, x); }
      } else {
        var order, deleted :| IsBatch(hash, s, p, order, deleted, s');
        KeptCome(hash, events, n, s, KeysOf(hash, deleted));
      }
  }

  /** A turn whose identifier is in use takes the place of the memory that has it. */
  lemma TurnReplaces(hash: string -> string, events: seq<Event>, n: nat, s: Store) returns (i: nat)
    requires n < |events| && events[n].Kept() && !Absent(s, events[n])
    requires WellFiled(s) && AllCome(events, n, s) && PrintsUuids(hash)
    ensures var e := events[n]; var items := ItemsOf(s, e.agentId);
      && i < |items| && Lookup(items, TurnId(e.agentId, e.nowMs)) == Some(items[i])
      && e.agentId in s && Upserted(s, e.Memory()) == Replaced(s, e.agentId, i, e.Memory())
      && PointId(hash, items[i]) == PointId(hash, e.Memory())
  {
    var e := events[n];
    var items := ItemsOf(s, e.agentId);
    KeptTurn(e);
    FindIsFirst(items, TurnId(e.agentId, e.nowMs));
    i := Find(items, TurnId(e.agentId, e.nowMs));
    var f := Origin(events, n, s, e.agentId, items[i]);
    assert items[i].pointId == e.Memory().pointId;
  }

  lemma ReplacedPoints(hash: string -> string, items: seq<Memory>, i: nat, m: Memory)
    requires DistinctPoints(hash, items) && i < |items| && PointId(hash, items[i]) == PointId(hash, m)
    ensures DistinctPoints(hash, items[i := m])
  {
    assert forall j :: 0 <= j < |items| ==> PointId(hash, items[i := m][j]) == PointId(hash, items[j]);
  }

  lemma ReplacedItem(items: seq<Memory>, i: nat, m: Memory, x: Memory)
    requires i < |items| && x in items[i := m]
    ensures x == m || x in items
  {
    var j :| 0 <= j < |items| && items[i := m][j] == x;
    assert j != i ==> x == items[j];
  }

  /** Replacing one memory of the store by another at the same point. */
  function Replaced(s: Store, a: string, i: nat, m: Memory): Store
    requires a in s && i < |s[a]|
  {
    s[a := s[a][i := m]]
  }

  lemma ReplacedInv(hash: string -> string, s: Store, a: string, i: nat, m: Memory)
    requires Inv(hash, s) && a in s && i < |s[a]| && m.agentId == a && ProperLevel(m)
    requires PointId(hash, s[a][i]) == PointId(hash, m)
    ensures Inv(hash, Replaced(s, a, i, m))
  {
    ReplacedPoints(hash, s[a], i, m);
    forall x | x in s[a][i := m] ensures x.agentId == a && ProperLevel(x) {
      ReplacedItem(s[a], i, m, x);
    }
  }

  lemma ReplacedComes(events: seq<Event>, n: nat, s: Store, i: nat)
    requires n < |events| && events[n].Kept() && AllCome(events, n, s)
    requires events[n].agentId in s && i < |s[events[n].agentId]|
    ensures AllCome(events, n + 1, Replaced(s, events[n].agentId, i, events[n].Memory()))
  {
    var e, m := events[n], events[n].Memory();
    KeptTurn(e);
    assert Comes(events, n + 1, m);
    forall a, x | a in s && x in Replaced(s, e.agentId, i, m)[a] ensures Comes(events, n + 1, x) {
      if a == e.agentId {
        ReplacedItem(s[a], i, m, x);
      }
      if x in s[a] {
        ComesLater(events, n, x);
      }
    }
  }

  /** Level 3 is kept exactly if what is replaced by a memory of level 2 is not there. */
  lemma ReplacedTop(hash: string -> string, s: Store, a: string, i: nat, m: Memory)
    requires Inv(hash, s) && a in s && i < |s[a]| && m.level == 2 && PointId(hash, s[a][i]) == PointId(hash, m)
    ensures KeepsTop(hash, s, Replaced(s, a, i, m)) <==> s[a][i].level != 3
  {
    var s', q := Replaced(s, a, i, m), PointId(hash, m);
    if s[a][i].level == 3 {
      assert ItemsOf(s, a)[i] == s[a][i] && Holds(hash, s, a, q, 3);
      ReplacedPoints(hash, s[a], i, m);
      assert s'[a][i] == m;
      assert !Holds(hash, s', a, q, 3);
    } else {
      forall b, p | Holds(hash, s, b, p, 3) ensures Holds(hash, s', b, p, 3) {
        var j :| 0 <= j < |ItemsOf(s, b)| && PointId(hash, ItemsOf(s, b)[j]) == p && ItemsOf(s, b)[j].level == 3;
        assert ItemsOf(s', b)[j] == ItemsOf(s, b)[j];
      }
    }
  }

  /** Every event, a repeated identifier included, keeps levels proper and points distinct. */
  lemma EventKeeps(hash: string -> string, events: seq<Event>, n: nat, s: Store, s': Store)
    requires n < |events| && Happens(hash, s, events[n], s')
    requires PrintsUuids(hash) && CollisionFree(hash, Hashed(events))
    requires Inv(hash, s) && AllCome(events, n, s)
    ensures Inv(hash, s') && AllCome(events, n + 1, s')
  {
    var e := events[n];
    if e.Kept() && Absent(s, e) {
      KeptTurn(e);
      AbsentIsFresh(hash, events, n, s);
      TurnInv(hash, s, e.Memory(), s');
      TurnComes(hash, events, n, s);
    } else if e.Kept() {
      KeptTurn(e);
      var i := TurnReplaces(hash, events, n, s);
      ReplacedInv(hash, s, e.agentId, i, e.Memory());
      ReplacedComes(events, n, s, i);
    } else {
      OtherComes(hash, events, n, s, StepOf(e), s');
      StepKeeps(hash, s, StepOf(e), s');
    }
  }

  /** What every store of a history satisfies. */
  ghost predicate Good(hash: string -> string, events: seq<Event>, n: nat, s: Store) {
    Inv(hash, s) && AllCome(events, n, s)
  }

  lemma GoodNext(hash: string -> string, ss: seq<Store>, events: seq<Event>, n: nat)
    requires History(hash, ss, events) && n < |events| && PrintsUuids(hash) && CollisionFree(hash, Hashed(events))
    requires Good(hash, events, n, ss[n])
    ensures Good(hash, events, n + 1, ss[n + 1])
  {
    EventKeeps(hash, events, n, ss[n], ss[n + 1]);
  }

  lemma {:induction false} HistoryHolds(hash: string -> string, ss: seq<Store>, events: seq<Event>, n: nat)
    requires History(hash, ss, events) && n < |ss| && PrintsUuids(hash) && CollisionFree(hash, Hashed(events))
    ensures Good(hash, events, n, ss[n])
  {
    if n > 0 {
      HistoryHolds(hash, ss, events, n - 1);
      GoodNext(hash, ss, events, n - 1);
    }
  }

  // ---------------------------------------------------------------- Level 3

  /** The turn has the identifier of a memory that is at level 3 when it is stored. */
  predicate HitsTop(s: Store, e: Event) {
    e.Kept() && var hit := Lookup(ItemsOf(s, e.agentId), TurnId(e.agentId, e.nowMs)); hit.Some? && hit.value.level == 3
  }

  lemma HitIsPresent(s: Store, e: Event)
    requires HitsTop(s, e)
    ensures !Absent(s, e)
  {
    var items := ItemsOf(s, e.agentId);
    FindIsFirst(items, TurnId(e.agentId, e.nowMs));
    assert items[Find(items, TurnId(e.agentId, e.nowMs))] in items;
  }

  /** One event keeps level 3 exactly if it does not hit a memory there. */
  lemma EventKeepsTop(hash: string -> string, events: seq<Event>, n: nat, s: Store, s': Store)
    requires n < |events| && Happens(hash, s, events[n], s')
    requires PrintsUuids(hash) && CollisionFree(hash, Hashed(events))
    requires Inv(hash, s) && AllCome(events, n, s)
    ensures KeepsTop(hash, s, s') <==> !HitsTop(s, events[n])
  {
    var e := events[n];
    if HitsTop(s, e) { HitIsPresent(s, e); }
    if e.Kept() && Absent(s, e) {
      KeptTurn(e);
      AbsentIsFresh(hash, events, n, s);
      TurnKeeps(hash, s, e.Memory(), s');
    } else if e.Kept() {
      KeptTurn(e);
      var i := TurnReplaces(hash, events, n, s);
      ReplacedTop(hash, s, e.agentId, i, e.Memory());
    } else {
      StepKeeps(hash, s, StepOf(e), s');
    }
  }

  lemma HistoryKeepsTop(hash: string -> string, ss: seq<Store>, events: seq<Event>, n: nat)
    requires History(hash, ss, events) && n < |events| && PrintsUuids(hash) && CollisionFree(hash, Hashed(events))
    ensures KeepsTopNext(hash, ss, n) <==> !HitsTop(ss[n], events[n])
  {
    HistoryHolds(hash, ss, events, n);
    EventKeepsTop(hash, events, n, ss[n], ss[n + 1]);
  }

  // ---------------------------------------------------------------- Theorems

  ghost predicate TopStays(hash: string -> string, ss: seq<Store>) {
    forall i, j :: 0 <= i <= j < |ss| ==> KeepsTop(hash, ss[i], ss[j])
  }

  /** In every history levels are 2 or 3, pseudopermanent exactly at 3, and what has reached level 3 stays
      there exactly if no turn is stored under the identifier of a memory at level 3. */
  lemma TopStaysExactly(hash: string -> string, ss: seq<Store>, events: seq<Event>)
    requires History(hash, ss, events) && PrintsUuids(hash) && CollisionFree(hash, Hashed(events))
    ensures forall n :: 0 <= n < |ss| ==> Leveling(ss[n])
    ensures TopStays(hash, ss) <==> forall n :: 0 <= n < |events| ==> !HitsTop(ss[n], events[n])
  {
    forall n | 0 <= n < |ss| ensures Leveling(ss[n]) { HistoryHolds(hash, ss, events, n); }
    if TopStays(hash, ss) {
      forall n | 0 <= n < |events| ensures !HitsTop(ss[n], events[n]) {
        assert KeepsTop(hash, ss[n], ss[n + 1]);
        HistoryKeepsTop(hash, ss, events, n);
      }
    }
    if forall n :: 0 <= n < |events| ==> !HitsTop(ss[n], events[n]) {
      forall n | 0 <= n < |events| ensures KeepsTopNext(hash, ss, n) { HistoryKeepsTop(hash, ss, events, n); }
      forall i, j | 0 <= i <= j < |ss| ensures KeepsTop(hash, ss[i], ss[j]) {
        KeepsTopAlong(hash, ss, i, j);
      }
    }
  }

  /** Without two kept turns of an agent in one millisecond, each event is one step of the life cycle. */
  lemma EventIsStep(hash: string -> string, ss: seq<Store>, events: seq<Event>, n: nat)
    requires History(hash, ss, events) && n < |events|
    requires NoneTwice(events) && PrintsUuids(hash) && CollisionFree(hash, Hashed(events))
    ensures Next(hash, ss[n], StepOf(events[n]), ss[n + 1])
  {
    HistoryHolds(hash, ss, events, n);
    assert Happens(hash, ss[n], events[n], ss[n + 1]);
    if events[n].Kept() {
      NoneTwiceIsAbsent(events, n, ss[n]);
      AbsentIsFresh(hash, events, n, ss[n]);
      KeptTurn(events[n]);
    }
  }

  /** So every history of the program is then a run of the life cycle: levels are never lowered, and level 3 is
      never removed. */
  lemma TurnLifecycle(hash: string -> string, ss: seq<Store>, events: seq<Event>, i: nat, j: nat, a: string, m: Memory)
    requires History(hash, ss, events) && i <= j < |ss| && m in ItemsOf(ss[i], a)
    requires NoneTwice(events) && PrintsUuids(hash) && CollisionFree(hash, Hashed(events))
    ensures IsRun(hash, ss, StepsOf(events)) && ProperLevel(m)
    ensures m.level == 3 ==> Holds(hash, ss[j], a, PointId(hash, m), 3)
    ensures forall n :: n in ItemsOf(ss[j], a) && PointId(hash, n) == PointId(hash, m) ==> n.level >= m.level
  {
    forall n | 0 <= n < |events| ensures Next(hash, ss[n], StepsOf(events)[n], ss[n + 1]) {
      EventIsStep(hash, ss, events, n);
    }
    Lifecycle(hash, ss, StepsOf(events), i, j, a, m);
  }

  /** A name given to a turn is not the point of any turn. */
  lemma NameIsNoPoint(hash: string -> string, e: Event, m: Memory, a: string, x: int)
    requires e.Said? && ComesFrom(e, m) && PrintsUuids(hash)
    ensures PointId(hash, m) != TurnId(a, x)
  {
    PointOfTurn(hash, e, m);
    TurnIdShape(a, x);
    assert IsUuid(hash(Trim(TurnId(e.agentId, e.nowMs), GoSpace)));
  }

  /** In every history the memories of each agent are addressed by their names, so that the evaluation of
      level 2 raises exactly the memories that qualify. */
  lemma TurnsAddressable(hash: string -> string, ss: seq<Store>, events: seq<Event>, n: nat, a: string)
    requires History(hash, ss, events) && n < |ss| && PrintsUuids(hash) && CollisionFree(hash, Hashed(events))
    ensures Addressable(hash, ss[n], a)
  {
    HistoryHolds(hash, ss, events, n);
    var s := ss[n];
    forall i | 0 <= i < |ItemsOf(s, a)| ensures OnlyAnswer(hash, s, Target(ItemsOf(s, a)[i]), a, i) {
      OnlyOneAnswers(hash, s, events, n, a, i);
    }
  }

  lemma OnlyOneAnswers(hash: string -> string, s: Store, events: seq<Event>, n: nat, a: string, i: nat)
    requires Inv(hash, s) && AllCome(events, n, s) && PrintsUuids(hash) && a in s && i < |s[a]|
    ensures OnlyAnswer(hash, s, Target(s[a][i]), a, i)
  {
    var m := s[a][i];
    var e := Origin(events, n, s, a, m);
    assert Target(m) == TurnId(e.agentId, e.nowMs);
    TurnIdNotBlank(e.agentId, e.nowMs);
    forall b, j | b in s && 0 <= j < |s[b]| && Answers(hash, s[b][j], Target(m)) ensures b == a && j == i {
      AnswerIsItself(hash, s, events, n, e, a, i, b, j);
    }
  }

  lemma AnswerIsItself(
      hash: string -> string, s: Store, events: seq<Event>, n: nat, e: Event, a: string, i: nat, b: string, j: nat)
    requires Inv(hash, s) && AllCome(events, n, s) && PrintsUuids(hash) && e.Said?
    requires a in s && i < |s[a]| && ComesFrom(e, s[a][i])
    requires b in s && j < |s[b]| && Answers(hash, s[b][j], TurnId(e.agentId, e.nowMs))
    ensures b == a && j == i
  {
    var m, x := s[a][i], s[b][j];
    assert m in s[a] && x in s[b];
    var f := Origin(events, n, s, b, x);
    NameIsNoPoint(hash, f, x, e.agentId, e.nowMs);
    TurnIdInjective(e.agentId, e.nowMs, f.agentId, f.nowMs);
    PointOfTurn(hash, e, m);
    PointOfTurn(hash, f, x);
    assert DistinctPoints(hash, s[a]);
  }
}
