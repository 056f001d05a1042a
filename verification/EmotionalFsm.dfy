/**
  The emotional state machine: a rule table in which later rules override earlier ones, a breadth-first
  search that validates it, and transitions held back by forbidden triples and minimum dwell times.

  Rules carry states and stimuli already parsed from their names. Times are 64-bit milliseconds.
*/
module EmotionalFsm {
  import opened Wrappers

  datatype State = Neutral | Joyful | Curious | Empathetic | Calm | Worried | Frustrated | Anxious

  const ALL: seq<State> := [Neutral, Joyful, Curious, Empathetic, Calm, Worried, Frustrated, Anxious]

  const ALL_STATES: set<State> := {Neutral, Joyful, Curious, Empathetic, Calm, Worried, Frustrated, Anxious}

  datatype Stimulus =
    | Praise | MildCriticism | SevereCriticism | Succeeded | Failed | Urgency | Ambiguity | Novelty
    | Resolution | UserFrustration | Boredom | Empathy | Custom(name: string)

  datatype Rule = Rule(from: State, stimulus: Stimulus, to: State)

  type Table = map<(State, Stimulus), State>

  // ---------------------------------------------------------------- The table

  /** The target of the last rule for this state and stimulus. */
  function LastMatch(rules: seq<Rule>, from: State, x: Stimulus): Option<State> {
    if rules == [] then None
    else
      var last := rules[|rules| - 1];
      if last.from == from && last.stimulus == x then Some(last.to) else LastMatch(rules[..|rules| - 1], from, x)
  }

  function Get(t: Table, from: State, x: Stimulus): Option<State> {
    if (from, x) in t then Some(t[(from, x)]) else None
  }

  predicate Matches(rule: Rule, from: State, x: Stimulus) {
    rule.from == from && rule.stimulus == x
  }

  /** Rule i is the last one for this state and stimulus. */
  ghost predicate LastRule(rules: seq<Rule>, from: State, x: Stimulus, i: int) {
    0 <= i < |rules| && Matches(rules[i], from, x) && forall j :: i < j < |rules| ==> !Matches(rules[j], from, x)
  }

  lemma {:induction false} LastMatchExactly(rules: seq<Rule>, from: State, x: Stimulus)
    ensures forall i :: LastRule(rules, from, x, i) ==> LastMatch(rules, from, x) == Some(rules[i].to)
    ensures LastMatch(rules, from, x).Some? ==> exists i :: LastRule(rules, from, x, i)
  {
    if rules != [] {
      var front, last := rules[..|rules| - 1], rules[|rules| - 1];
      LastMatchExactly(front, from, x);
      assert rules == front + [last];
      if Matches(last, from, x) {
        LastRuleIsNew(front, last, from, x);
      } else {
        forall i | LastRule(rules, from, x, i) ensures LastRule(front, from, x, i) && rules[i] == front[i] {
          LastRuleIsOld(front, last, from, x, i);
        }
        if i :| LastRule(front, from, x, i) {
          LastRuleStays(front, last, from, x, i);
        }
      }
    }
  }

  lemma LastRuleIsNew(front: seq<Rule>, last: Rule, from: State, x: Stimulus)
    requires Matches(last, from, x)
    ensures forall i :: LastRule(front + [last], from, x, i) ==> i == |front|
    ensures LastRule(front + [last], from, x, |front|)
  {
    assert (front + [last])[|front|] == last;
  }

  lemma LastRuleIsOld(front: seq<Rule>, last: Rule, from: State, x: Stimulus, i: int)
    requires !Matches(last, from, x) && LastRule(front + [last], from, x, i)
    ensures LastRule(front, from, x, i) && (front + [last])[i] == front[i]
  {
    var rules := front + [last];
    assert rules[|front|] == last && i != |front|;
    forall j | i < j < |front| ensures !Matches(front[j], from, x) {
      assert rules[j] == front[j];
    }
  }

  lemma LastRuleStays(front: seq<Rule>, last: Rule, from: State, x: Stimulus, i: int)
    requires !Matches(last, from, x) && LastRule(front, from, x, i)
    ensures LastRule(front + [last], from, x, i)
  {
    var rules := front + [last];
    forall j | i < j < |rules| ensures !Matches(rules[j], from, x) {
      if j < |front| { assert rules[j] == front[j]; }
    }
  }

  ghost predicate Tabulates(t: Table, rules: seq<Rule>) {
    forall from, x :: Get(t, from, x) == LastMatch(rules, from, x)
  }

  lemma TableUnique(t: Table, u: Table, rules: seq<Rule>)
    requires Tabulates(t, rules) && Tabulates(u, rules)
    ensures t == u
  {
    forall key ensures key in t <==> key in u {
      assert Get(t, key.0, key.1) == Get(u, key.0, key.1);
    }
    forall key | key in t ensures t[key] == u[key] {
      assert Get(t, key.0, key.1) == Get(u, key.0, key.1);
    }
  }

  method FromConfig(rules: seq<Rule>) returns (t: Table)
    ensures Tabulates(t, rules)
  {
    t := map[];
    for i := 0 to |rules|
      invariant Tabulates(t, rules[..i])
    {
      assert rules[..i + 1][..i] == rules[..i];
      t := t[(rules[i].from, rules[i].stimulus) := rules[i].to];
    }
    assert rules[..|rules|] == rules;
  }

  // ---------------------------------------------------------------- Reachability

  ghost predicate Edge(t: Table, a: State, b: State) {
    exists x :: (a, x) in t && t[(a, x)] == b
  }

  ghost predicate Path(t: Table, p: seq<State>) {
    |p| > 0 && forall i :: 0 <= i < |p| - 1 ==> Edge(t, p[i], p[i + 1])
  }

  ghost predicate Joins(t: Table, p: seq<State>, a: State, b: State) {
    Path(t, p) && p[0] == a && p[|p| - 1] == b
  }

  /** Some finite path of rules leads from a to b. */
  ghost predicate Reachable(t: Table, a: State, b: State) {
    exists p :: Joins(t, p, a, b)
  }

  lemma ReachesItself(t: Table, a: State)
    ensures Reachable(t, a, a)
  {
    assert Joins(t, [a], a, a);
  }

  lemma ReachesNext(t: Table, a: State, b: State, c: State)
    requires Reachable(t, a, b) && Edge(t, b, c)
    ensures Reachable(t, a, c)
  {
    var p :| Joins(t, p, a, b);
    var q := p + [c];
    forall i | 0 <= i < |q| - 1 ensures Edge(t, q[i], q[i + 1]) {
      if i < |p| - 1 { assert Edge(t, p[i], p[i + 1]); }
    }
    assert Joins(t, q, a, c);
  }

  /** All rules out of a lead into the set. */
  ghost predicate ClosedAt(t: Table, a: State, s: set<State>) {
    forall x :: (a, x) in t ==> t[(a, x)] in s
  }

  lemma {:induction false} ClosedHoldsPaths(t: Table, s: set<State>, p: seq<State>, n: nat)
    requires Path(t, p) && p[0] in s && (forall a :: a in s ==> ClosedAt(t, a, s)) && n < |p|
    ensures p[n] in s
  {
    if n > 0 {
      ClosedHoldsPaths(t, s, p, n - 1);
      assert Edge(t, p[n - 1], p[n - 1 + 1]);
    }
  }

  lemma ClosedHoldsReachable(t: Table, s: set<State>, a: State, b: State)
    requires a in s && (forall c :: c in s ==> ClosedAt(t, c, s)) && Reachable(t, a, b)
    ensures b in s
  {
    var p :| Joins(t, p, a, b);
    ClosedHoldsPaths(t, s, p, |p| - 1);
  }

  lemma StatesAreAll(s: set<State>)
    ensures s <= ALL_STATES
  {
    forall x | x in s ensures x in ALL_STATES {
      var i := Listed(x);
      assert ALL[i] in ALL_STATES;
    }
  }

  /** What the search knows: everything visited is reachable, and only queued states may still have
      unvisited successors. */
  ghost predicate Searching(t: Table, start: State, visited: set<State>, queue: seq<State>) {
    && start in visited
    && (forall s :: s in visited ==> Reachable(t, start, s))
    && (forall s :: s in queue ==> s in visited)
    && (forall s :: s in visited && s !in queue ==> ClosedAt(t, s, visited))
  }

  /** The same while the rules of `current` are scanned, those in `left` still to come. */
  ghost predicate Scanning(t: Table, start: State, current: State, left: set<(State, Stimulus)>, visited: set<State>,
                           queue: seq<State>) {
    && start in visited && current in visited && left <= t.Keys
    && (forall s :: s in visited ==> Reachable(t, start, s))
    && (forall s :: s in queue ==> s in visited)
    && (forall s :: s in visited && s !in queue && s != current ==> ClosedAt(t, s, visited))
    && (forall x :: (current, x) in t && (current, x) !in left ==> t[(current, x)] in visited)
  }

  lemma ScanVisits(t: Table, start: State, current: State, left: set<(State, Stimulus)>, visited: set<State>,
                   queue: seq<State>, x: Stimulus)
    requires Scanning(t, start, current, left, visited, queue) && (current, x) in left && t[(current, x)] !in visited
    ensures Scanning(t, start, current, left - {(current, x)}, visited + {t[(current, x)]}, queue + [t[(current, x)]])
  {
    var to := t[(current, x)];
    assert Edge(t, current, to);
    ReachesNext(t, start, current, to);
  }

  /** One pass over all rules, in any order, for the state taken from the queue. */
  method Scan(t: Table, ghost start: State, current: State, visited0: set<State>, queue0: seq<State>)
    returns (visited: set<State>, queue: seq<State>)
    requires Scanning(t, start, current, t.Keys, visited0, queue0)
    ensures Searching(t, start, visited, queue) && visited0 <= visited
    ensures visited == visited0 ==> queue == queue0
  {
    visited, queue := visited0, queue0;
    var left := t.Keys;
    while left != {}
      invariant Scanning(t, start, current, left, visited, queue) && visited0 <= visited
      invariant visited == visited0 ==> queue == queue0
      decreases left
    {
      var key :| key in left;
      if key.0 == current && t[key] !in visited {
        ScanVisits(t, start, current, left, visited, queue, key.1);
        visited, queue := visited + {t[key]}, queue + [t[key]];
      }
      left := left - {key};
    }
    assert ClosedAt(t, current, visited);
  }

  /** Breadth-first search finds exactly the states a finite path of rules leads to. */
  method ReachableStatesFrom(t: Table, start: State) returns (visited: set<State>)
    ensures forall s :: s in visited <==> Reachable(t, start, s)
  {
    ReachesItself(t, start);
    visited := {start};
    var queue := [start];
    while queue != []
      invariant Searching(t, start, visited, queue)
      decreases ALL_STATES - visited, |queue|
    {
      var current := queue[0];
      ghost var before := visited;
      assert queue == [current] + queue[1..];
      visited, queue := Scan(t, start, current, visited, queue[1..]);
      StatesAreAll(visited);
      assert ALL_STATES - visited <= ALL_STATES - before;
      assert visited != before ==> exists s :: s in visited && s !in before;
    }
    forall s | Reachable(t, start, s) ensures s in visited {
      ClosedHoldsReachable(t, visited, start, s);
    }
  }

  // ---------------------------------------------------------------- Validation

  datatype TableError = Sink(state: State) | Unreachable(state: State)

  ghost predicate HasExit(t: Table, s: State) {
    exists x :: (s, x) in t
  }

  /** The defects of the first n states, sinks or unreachable ones, in declaration order. */
  ghost function Sinks(t: Table, n: nat): seq<TableError>
    requires n <= |ALL|
  {
    if n == 0 then [] else Sinks(t, n - 1) + if HasExit(t, ALL[n - 1]) then [] else [Sink(ALL[n - 1])]
  }

  ghost function Unreachables(t: Table, n: nat): seq<TableError>
    requires n <= |ALL|
  {
    if n == 0 then []
    else Unreachables(t, n - 1) + if Reachable(t, Neutral, ALL[n - 1]) then [] else [Unreachable(ALL[n - 1])]
  }

  ghost predicate Sound(t: Table) {
    forall s :: HasExit(t, s) && Reachable(t, Neutral, s)
  }

  lemma {:induction false} SinksEmpty(t: Table, n: nat)
    requires n <= |ALL|
    ensures Sinks(t, n) == [] <==> forall i :: 0 <= i < n ==> HasExit(t, ALL[i])
  {
    if n > 0 { SinksEmpty(t, n - 1); }
  }

  lemma {:induction false} UnreachablesEmpty(t: Table, n: nat)
    requires n <= |ALL|
    ensures Unreachables(t, n) == [] <==> forall i :: 0 <= i < n ==> Reachable(t, Neutral, ALL[i])
  {
    if n > 0 { UnreachablesEmpty(t, n - 1); }
  }

  lemma Listed(s: State) returns (i: nat)
    ensures i < |ALL| && ALL[i] == s
  {
    i := match s
      case Neutral => 0 case Joyful => 1 case Curious => 2 case Empathetic => 3
      case Calm => 4 case Worried => 5 case Frustrated => 6 case Anxious => 7;
  }

  lemma SoundIffNoErrors(t: Table)
    ensures Sound(t) <==> Sinks(t, |ALL|) + Unreachables(t, |ALL|) == []
  {
    SinksEmpty(t, |ALL|);
    UnreachablesEmpty(t, |ALL|);
    if Sinks(t, |ALL|) == [] && Unreachables(t, |ALL|) == [] {
      forall s ensures HasExit(t, s) && Reachable(t, Neutral, s) {
        var i := Listed(s);
      }
    } else {
      assert Sinks(t, |ALL|) + Unreachables(t, |ALL|) != [];
    }
  }

  /** The report names a state as a sink exactly if no rule leaves it, and as unreachable exactly if no path leads
      to it from Neutral; sinks come first, and each kind in the order of declaration. */
  lemma DefectsExactly(t: Table, s: State)
    ensures Sink(s) in Sinks(t, |ALL|) <==> !HasExit(t, s)
    ensures Unreachable(s) in Unreachables(t, |ALL|) <==> !Reachable(t, Neutral, s)
    ensures forall e :: e in Sinks(t, |ALL|) ==> e.Sink?
    ensures forall e :: e in Unreachables(t, |ALL|) ==> e.Unreachable?
  {
    var i := Listed(s);
    ListedOnce();
    SinksListed(t, |ALL|);
    UnreachablesListed(t, |ALL|);
  }

  lemma ListedOnce()
    ensures forall i, j :: 0 <= i < j < |ALL| ==> ALL[i] != ALL[j]
  {
  }

  lemma {:induction false} SinksListed(t: Table, n: nat)
    requires n <= |ALL|
    ensures forall e :: e in Sinks(t, n) <==> exists i :: 0 <= i < n && e == Sink(ALL[i]) && !HasExit(t, ALL[i])
  {
    if n > 0 {
      SinksListed(t, n - 1);
      assert !HasExit(t, ALL[n - 1]) ==> Sink(ALL[n - 1]) in Sinks(t, n);
    }
  }

  lemma {:induction false} UnreachablesListed(t: Table, n: nat)
    requires n <= |ALL|
    ensures forall e :: e in Unreachables(t, n) <==>
              exists i :: 0 <= i < n && e == Unreachable(ALL[i]) && !Reachable(t, Neutral, ALL[i])
  {
    if n > 0 {
      UnreachablesListed(t, n - 1);
      assert !Reachable(t, Neutral, ALL[n - 1]) ==> Unreachable(ALL[n - 1]) in Unreachables(t, n);
    }
  }

  method HasExits(t: Table, s: State) returns (b: bool)
    ensures b <==> HasExit(t, s)
  {
    b := exists key :: key in t.Keys && key.0 == s;
    assert b ==> exists x :: (s, x) in t by {
      if b {
        var key :| key in t.Keys && key.0 == s;
        assert (s, key.1) in t;
      }
    }
  }

  /** Validation succeeds exactly for sound tables, and otherwise reports every defect in order. */
  method Validate(t: Table) returns (r: Result<(), seq<TableError>>)
    ensures r.Success? <==> Sound(t)
    ensures r.Failure? ==> r.error == Sinks(t, |ALL|) + Unreachables(t, |ALL|)
  {
    var errors: seq<TableError> := [];
    for n := 0 to |ALL|
      invariant errors == Sinks(t, n)
    {
      var hasExit := HasExits(t, ALL[n]);
      if !hasExit {
        errors := errors + [Sink(ALL[n])];
      }
    }
    var reachable := ReachableStatesFrom(t, Neutral);
    ghost var sinks := errors;
    for n := 0 to |ALL|
      invariant errors == sinks + Unreachables(t, n)
    {
      if ALL[n] !in reachable {
        errors := errors + [Unreachable(ALL[n])];
      }
    }
    SoundIffNoErrors(t);
    r := if errors == [] then Success(()) else Failure(errors);
  }

  // ---------------------------------------------------------------- Constraints

  const I64_MAX: int := 0x7fff_ffff_ffff_ffff
  const I64_MIN: int := -0x8000_0000_0000_0000

  type i64 = x: int | I64_MIN <= x <= I64_MAX

  function SaturatingSub(a: i64, b: i64): i64 {
    if a - b > I64_MAX then I64_MAX else if a - b < I64_MIN then I64_MIN else a - b
  }

  function Elapsed(enteredAt: i64, now: i64): nat {
    var d := SaturatingSub(now, enteredAt);
    if d < 0 then 0 else d
  }

  datatype Constraints = Constraints(forbidden: set<(State, Stimulus, State)>, minDuration: map<State, nat>)

  datatype Check = Allowed | Forbidden | TooSoon(minimum: nat, elapsed: nat)

  function CheckConstraints(c: Constraints, current: State, x: Stimulus, target: State, enteredAt: i64,
                            now: i64): Check {
    if (current, x, target) in c.forbidden then Forbidden
    else if current in c.minDuration && Elapsed(enteredAt, now) < c.minDuration[current] then
      TooSoon(c.minDuration[current], Elapsed(enteredAt, now))
    else Allowed
  }

  function MinDuration(c: Constraints, s: State): nat {
    if s in c.minDuration then c.minDuration[s] else 0
  }

  /** The true time since the state was entered, none if the clock has run backwards, and at most the largest
      64-bit value. */
  function Dwelt(enteredAt: int, now: int): nat {
    if now < enteredAt then 0 else if now - enteredAt > 0x7fff_ffff_ffff_ffff then 0x7fff_ffff_ffff_ffff
    else now - enteredAt
  }

  /** A move is let through exactly when it is not forbidden and the time in the state reaches the minimum, and
      otherwise the first of the two reasons is given, with the minimum and the time. */
  lemma AllowedExactly(c: Constraints, current: State, x: Stimulus, target: State, enteredAt: i64, now: i64)
    ensures CheckConstraints(c, current, x, target, enteredAt, now) ==
            if (current, x, target) in c.forbidden then Forbidden
            else if Dwelt(enteredAt, now) < MinDuration(c, current)
            then TooSoon(MinDuration(c, current), Dwelt(enteredAt, now))
            else Allowed
  {
  }

  // ---------------------------------------------------------------- Transitions

  datatype Snapshot = Snapshot(state: State, enteredAt: i64)

  datatype Blocked = NoRule | ByConstraint(check: Check)

  datatype Outcome = Outcome(next: Snapshot, occurred: bool, blocked: Option<Blocked>)

  datatype Engine = Engine(table: Table, constraints: Constraints)

  /** An engine is only built from a sound table; otherwise the defects are reported. */
  method BuildEngine(rules: seq<Rule>, constraints: Constraints) returns (r: Result<Engine, seq<TableError>>)
    ensures r.Success? ==> Tabulates(r.value.table, rules) && Sound(r.value.table) && r.value.constraints == constraints
    ensures r.Failure? ==> forall t :: Tabulates(t, rules) ==>
              !Sound(t) && r.error == Sinks(t, |ALL|) + Unreachables(t, |ALL|)
  {
    var t := FromConfig(rules);
    var v := Validate(t);
    forall u | Tabulates(u, rules) ensures u == t {
      TableUnique(t, u, rules);
    }
    if v.Failure? {
      return Failure(v.error);
    }
    return Success(Engine(t, constraints));
  }

  function Transition(e: Engine, current: Snapshot, x: Stimulus, now: i64): Outcome {
    match Get(e.table, current.state, x)
    case None => Outcome(current, false, Some(NoRule))
    case Some(target) =>
      if target == current.state then Outcome(current, false, None)
      else
        var check := CheckConstraints(e.constraints, current.state, x, target, current.enteredAt, now);
        if check == Allowed then Outcome(Snapshot(target, now), true, None)
        else Outcome(current, false, Some(ByConstraint(check)))
  }

  datatype Input = Input(stimulus: Stimulus, now: i64)

  ghost predicate IsRun(e: Engine, snaps: seq<Snapshot>, inputs: seq<Input>) {
    && |snaps| == |inputs| + 1
    && forall n :: 0 <= n < |inputs| ==> snaps[n + 1] == Transition(e, snaps[n], inputs[n].stimulus, inputs[n].now).next
  }

  /** The clock never runs backwards, and the first state was entered before the first input. */
  ghost predicate Forward(snaps: seq<Snapshot>, inputs: seq<Input>) {
    && (forall i, j :: 0 <= i <= j < |inputs| ==> inputs[i].now <= inputs[j].now)
    && (|snaps| > 0 && |inputs| > 0 ==> snaps[0].enteredAt <= inputs[0].now)
  }

  lemma {:induction false} EnteredBefore(e: Engine, snaps: seq<Snapshot>, inputs: seq<Input>, n: nat, m: nat)
    requires IsRun(e, snaps, inputs) && Forward(snaps, inputs) && n <= m < |inputs|
    ensures snaps[n].enteredAt <= inputs[m].now
  {
    if n > 0 {
      EnteredBefore(e, snaps, inputs, n - 1, m);
    }
  }

  /** The move that the last rule for x asks for, unless it is forbidden or comes too soon. */
  ghost predicate MayMove(rules: seq<Rule>, c: Constraints, a: Snapshot, x: Stimulus, now: int, to: State) {
    && (exists i :: LastRule(rules, a.state, x, i) && rules[i].to == to) && to != a.state
    && (a.state, x, to) !in c.forbidden
    && MinDuration(c, a.state) <= Dwelt(a.enteredAt, now)
  }

  /** Run safety, and no more caution than that: the snapshot changes exactly when the last matching rule
      asks for another state, the move is not forbidden and the minimum dwell time of the state it
      leaves has passed; it then carries the target and the time. Every other step keeps the whole
      snapshot, entry time included. Whatever the clock does. */
  lemma RunSafety(e: Engine, rules: seq<Rule>, snaps: seq<Snapshot>, inputs: seq<Input>, n: nat)
    requires Tabulates(e.table, rules) && IsRun(e, snaps, inputs) && n < |inputs|
    ensures forall to :: MayMove(rules, e.constraints, snaps[n], inputs[n].stimulus, inputs[n].now, to) ==>
              snaps[n + 1] == Snapshot(to, inputs[n].now)
    ensures (forall to :: !MayMove(rules, e.constraints, snaps[n], inputs[n].stimulus, inputs[n].now, to)) ==>
              snaps[n + 1] == snaps[n]
    ensures Transition(e, snaps[n], inputs[n].stimulus, inputs[n].now).occurred <==>
              snaps[n + 1].state != snaps[n].state
  {
    var a, x, now := snaps[n], inputs[n].stimulus, inputs[n].now;
    LastMatchExactly(rules, a.state, x);
    assert Get(e.table, a.state, x) == LastMatch(rules, a.state, x);
    if LastMatch(rules, a.state, x).Some? {
      var i :| LastRule(rules, a.state, x, i);
      AllowedExactly(e.constraints, a.state, x, rules[i].to, a.enteredAt, now);
      if CheckConstraints(e.constraints, a.state, x, rules[i].to, a.enteredAt, now) == Allowed {
        assert rules[i].to != a.state ==> MayMove(rules, e.constraints, a, x, now, rules[i].to);
      }
    }
  }

  /** Why a step stays, told from the rules: there is none for the stimulus, it stays itself, or its move is
      forbidden, or comes too soon and then how much; in this order. */
  lemma RefusalSaysWhy(e: Engine, rules: seq<Rule>, a: Snapshot, x: Stimulus, now: i64)
    requires Tabulates(e.table, rules)
    ensures var blocked := Transition(e, a, x, now).blocked;
      && (blocked == Some(NoRule) <==> !exists i :: LastRule(rules, a.state, x, i))
      && (forall i :: LastRule(rules, a.state, x, i) ==>
            blocked == if rules[i].to == a.state then None
                       else if (a.state, x, rules[i].to) in e.constraints.forbidden then Some(ByConstraint(Forbidden))
                       else if Dwelt(a.enteredAt, now) < MinDuration(e.constraints, a.state)
                       then Some(ByConstraint(TooSoon(MinDuration(e.constraints, a.state), Dwelt(a.enteredAt, now))))
                       else None)
  {
    LastMatchExactly(rules, a.state, x);
    assert Get(e.table, a.state, x) == LastMatch(rules, a.state, x);
    if LastMatch(rules, a.state, x).Some? {
      var i :| LastRule(rules, a.state, x, i);
      AllowedExactly(e.constraints, a.state, x, rules[i].to, a.enteredAt, now);
    }
  }

  lemma {:induction false} StillSince(e: Engine, snaps: seq<Snapshot>, inputs: seq<Input>, i: nat, j: nat)
    requires IsRun(e, snaps, inputs) && i < j <= |inputs| && snaps[i + 1].state != snaps[i].state
    requires forall k :: i < k < j ==> snaps[k + 1].state == snaps[k].state
    ensures snaps[j] == Snapshot(snaps[i + 1].state, inputs[i].now)
  {
    if j > i + 1 {
      StillSince(e, snaps, inputs, i, j - 1);
      assert snaps[j - 1 + 1] == Transition(e, snaps[j - 1], inputs[j - 1].stimulus, inputs[j - 1].now).next;
    } else {
      assert snaps[i + 1] == Transition(e, snaps[i], inputs[i].stimulus, inputs[i].now).next;
    }
  }

  /** Two consecutive changes are at least the minimum dwell time of the state between them apart. */
  lemma DwellBetweenChanges(e: Engine, rules: seq<Rule>, snaps: seq<Snapshot>, inputs: seq<Input>, i: nat, j: nat)
    requires Tabulates(e.table, rules) && IsRun(e, snaps, inputs) && Forward(snaps, inputs) && i < j < |inputs|
    requires snaps[i + 1].state != snaps[i].state && snaps[j + 1].state != snaps[j].state
    requires forall k :: i < k < j ==> snaps[k + 1].state == snaps[k].state
    ensures inputs[j].now - inputs[i].now >= MinDuration(e.constraints, snaps[i + 1].state)
  {
    StillSince(e, snaps, inputs, i, j);
    EnteredBefore(e, snaps, inputs, j, j);
    RunSafety(e, rules, snaps, inputs, j);
    var to :| MayMove(rules, e.constraints, snaps[j], inputs[j].stimulus, inputs[j].now, to);
  }

  /** A run never leaves the states its table can reach from where it began. */
  lemma {:induction false} RunStaysReachable(e: Engine, snaps: seq<Snapshot>, inputs: seq<Input>, n: nat)
    requires IsRun(e, snaps, inputs) && n <= |inputs|
    ensures Reachable(e.table, snaps[0].state, snaps[n].state)
  {
    if n == 0 {
      ReachesItself(e.table, snaps[0].state);
    } else {
      RunStaysReachable(e, snaps, inputs, n - 1);
      var a, x := snaps[n - 1], inputs[n - 1].stimulus;
      assert snaps[n - 1 + 1] == Transition(e, a, x, inputs[n - 1].now).next;
      if snaps[n].state != a.state {
        assert (a.state, x) in e.table && e.table[(a.state, x)] == snaps[n].state;
        ReachesNext(e.table, snaps[0].state, a.state, snaps[n].state);
      }
    }
  }
}
