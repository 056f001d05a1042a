/**
  Which states an engine can really enter. Table validation asks for a path of rules; the constraints
  decide whether a run can take it. Here the runs are compared with the routes that the constraints leave
  open, dwell times and the end of 64-bit time included.
*/
module EnterableStates {
  import opened Wrappers
  import opened FiniteSets
  import opened EmotionalFsm

  /** The rule for x moves from a to b and is not forbidden. */
  predicate Opens(e: Engine, a: State, x: Stimulus, b: State) {
    Get(e.table, a, x) == Some(b) && a != b && (a, x, b) !in e.constraints.forbidden
  }

  ghost predicate OpenEdge(e: Engine, a: State, b: State) {
    exists x :: Opens(e, a, x, b)
  }

  ghost predicate Route(e: Engine, p: seq<State>) {
    |p| > 0 && forall i :: 0 <= i < |p| - 1 ==> OpenEdge(e, p[i], p[i + 1])
  }

  ghost predicate Leads(e: Engine, p: seq<State>, a: State, b: State) {
    Route(e, p) && p[0] == a && p[|p| - 1] == b
  }

  /** The least time a run spends on the way along p: the dwell times of the states it leaves. */
  function Dwell(c: Constraints, p: seq<State>): nat {
    if |p| <= 1 then 0 else Dwell(c, p[..|p| - 1]) + MinDuration(c, p[|p| - 2])
  }

  /** No state on the way asks for more time than can be measured. */
  ghost predicate Measurable(c: Constraints, p: seq<State>) {
    forall i :: 0 <= i < |p| - 1 ==> MinDuration(c, p[i]) <= I64_MAX
  }

  /** A run that sets out along p at time t is through before time ends. */
  ghost predicate InTime(c: Constraints, p: seq<State>, t: int) {
    t + Dwell(c, p) <= I64_MAX && Measurable(c, p)
  }

  /** A run with a forward clock from a, entered at t, that ends in b. */
  ghost predicate Enters(e: Engine, snaps: seq<Snapshot>, inputs: seq<Input>, a: State, t: i64, b: State) {
    && IsRun(e, snaps, inputs) && Forward(snaps, inputs)
    && snaps[0] == Snapshot(a, t) && snaps[|inputs|].state == b
  }

  ghost predicate Enterable(e: Engine, a: State, t: i64, b: State) {
    exists snaps, inputs :: Enters(e, snaps, inputs, a, t, b)
  }

  // ---------------------------------------------------------------- From runs to routes

  lemma RouteGrows(e: Engine, p: seq<State>, b: State)
    requires Route(e, p) && OpenEdge(e, p[|p| - 1], b)
    ensures Route(e, p + [b])
            && Dwell(e.constraints, p + [b]) == Dwell(e.constraints, p) + MinDuration(e.constraints, p[|p| - 1])
    ensures Measurable(e.constraints, p) && MinDuration(e.constraints, p[|p| - 1]) <= I64_MAX ==>
              Measurable(e.constraints, p + [b])
  {
    var q := p + [b];
    assert q[..|q| - 1] == p;
    forall i | 0 <= i < |q| - 1 ensures OpenEdge(e, q[i], q[i + 1]) {
      if i < |p| - 1 {
        assert OpenEdge(e, p[i], p[i + 1]);
      }
    }
  }

  /** What a run has done so far is a route; with a forward clock it has taken at least its time. */
  ghost predicate Follows(e: Engine, p: seq<State>, first: Snapshot, now: Snapshot, forward: bool) {
    && Leads(e, p, first.state, now.state)
    && (forward ==> first.enteredAt + Dwell(e.constraints, p) <= now.enteredAt && Measurable(e.constraints, p))
  }

  lemma StepFollows(e: Engine, p: seq<State>, first: Snapshot, a: Snapshot, x: Stimulus, now: i64, forward: bool)
    returns (q: seq<State>)
    requires Follows(e, p, first, a, forward) && (forward ==> a.enteredAt <= now)
    ensures Follows(e, q, first, Transition(e, a, x, now).next, forward)
  {
    var next := Transition(e, a, x, now).next;
    if next.state == a.state {
      q := p;
    } else {
      assert Opens(e, a.state, x, next.state);
      if forward {
        AllowedExactly(e.constraints, a.state, x, next.state, a.enteredAt, now);
      }
      RouteGrows(e, p, next.state);
      q := p + [next.state];
    }
  }

  lemma {:induction false} RunFollowsRoute(e: Engine, snaps: seq<Snapshot>, inputs: seq<Input>, n: nat)
    returns (p: seq<State>)
    requires IsRun(e, snaps, inputs) && n <= |inputs|
    ensures Follows(e, p, snaps[0], snaps[n], Forward(snaps, inputs))
  {
    if n == 0 {
      p := [snaps[0].state];
    } else {
      var q := RunFollowsRoute(e, snaps, inputs, n - 1);
      if Forward(snaps, inputs) {
        EnteredBefore(e, snaps, inputs, n - 1, n - 1);
      }
      p := StepFollows(e, q, snaps[0], snaps[n - 1], inputs[n - 1].stimulus, inputs[n - 1].now, Forward(snaps, inputs));
      assert snaps[n - 1 + 1] == Transition(e, snaps[n - 1], inputs[n - 1].stimulus, inputs[n - 1].now).next;
    }
  }

  // ---------------------------------------------------------------- From routes to runs

  /** A run along p that never waits longer than it must. */
  ghost predicate Hurries(e: Engine, snaps: seq<Snapshot>, inputs: seq<Input>, p: seq<State>, t: i64) {
    && |p| > 0 && InTime(e.constraints, p, t) && IsRun(e, snaps, inputs) && Forward(snaps, inputs)
    && snaps[0] == Snapshot(p[0], t) && snaps[|inputs|] == Snapshot(p[|p| - 1], t + Dwell(e.constraints, p))
    && forall i :: 0 <= i < |inputs| ==> inputs[i].now <= t + Dwell(e.constraints, p)
  }

  lemma InTimeBefore(c: Constraints, p: seq<State>, t: int)
    requires |p| > 1 && InTime(c, p, t)
    ensures InTime(c, p[..|p| - 1], t) && Dwell(c, p) == Dwell(c, p[..|p| - 1]) + MinDuration(c, p[|p| - 2])
            && MinDuration(c, p[|p| - 2]) <= I64_MAX
  {
    var q := p[..|p| - 1];
    assert forall i :: 0 <= i < |q| - 1 ==> q[i] == p[i];
  }

  /** As soon as its dwell time is over, an open edge is taken. */
  lemma EdgeTaken(e: Engine, a: Snapshot, x: Stimulus, b: State, now: i64)
    requires Opens(e, a.state, x, b) && now == a.enteredAt + MinDuration(e.constraints, a.state)
             && MinDuration(e.constraints, a.state) <= I64_MAX
    ensures Transition(e, a, x, now).next == Snapshot(b, now)
  {
    AllowedExactly(e.constraints, a.state, x, b, a.enteredAt, now);
  }

  lemma RunGrows(e: Engine, snaps: seq<Snapshot>, inputs: seq<Input>, i: Input)
    requires IsRun(e, snaps, inputs) && Forward(snaps, inputs)
    requires snaps[0].enteredAt <= i.now && forall j :: 0 <= j < |inputs| ==> inputs[j].now <= i.now
    ensures var next := Transition(e, snaps[|inputs|], i.stimulus, i.now).next;
            IsRun(e, snaps + [next], inputs + [i]) && Forward(snaps + [next], inputs + [i])
  {
  }

  lemma {:induction false} RouteIsRun(e: Engine, p: seq<State>, t: i64)
    returns (snaps: seq<Snapshot>, inputs: seq<Input>)
    requires Route(e, p) && InTime(e.constraints, p, t)
    ensures Hurries(e, snaps, inputs, p, t)
  {
    if |p| == 1 {
      snaps, inputs := [Snapshot(p[0], t)], [];
    } else {
      var q := p[..|p| - 1];
      InTimeBefore(e.constraints, p, t);
      forall i | 0 <= i < |q| - 1 ensures OpenEdge(e, q[i], q[i + 1]) {
        assert OpenEdge(e, p[i], p[i + 1]);
      }
      snaps, inputs := RouteIsRun(e, q, t);
      snaps, inputs := OneMoreEdge(e, snaps, inputs, p, t);
    }
  }

  lemma OneMoreEdge(e: Engine, snaps: seq<Snapshot>, inputs: seq<Input>, p: seq<State>, t: i64)
    returns (snaps': seq<Snapshot>, inputs': seq<Input>)
    requires Route(e, p) && InTime(e.constraints, p, t) && |p| > 1 && Hurries(e, snaps, inputs, p[..|p| - 1], t)
    ensures Hurries(e, snaps', inputs', p, t)
  {
    InTimeBefore(e.constraints, p, t);
    var now := t + Dwell(e.constraints, p);
    assert OpenEdge(e, p[|p| - 2], p[|p| - 2 + 1]);
    var x :| Opens(e, p[|p| - 2], x, p[|p| - 1]);
    EdgeTaken(e, snaps[|inputs|], x, p[|p| - 1], now);
    RunGrows(e, snaps, inputs, Input(x, now));
    snaps', inputs' := snaps + [Snapshot(p[|p| - 1], now)], inputs + [Input(x, now)];
  }

  // ---------------------------------------------------------------- The exact condition

  /** A state can be entered from a, entered at t, exactly if a route of rules that are not forbidden leads
      there whose dwell times can be measured and run out before 64-bit time does. */
  lemma EnterableExactly(e: Engine, a: State, t: i64, b: State)
    ensures Enterable(e, a, t, b) <==> exists p :: Leads(e, p, a, b) && InTime(e.constraints, p, t)
  {
    if Enterable(e, a, t, b) {
      var snaps, inputs :| Enters(e, snaps, inputs, a, t, b);
      var p := RunFollowsRoute(e, snaps, inputs, |inputs|);
      assert Leads(e, p, a, b) && InTime(e.constraints, p, t);
    }
    if p :| Leads(e, p, a, b) && InTime(e.constraints, p, t) {
      var snaps, inputs := RouteIsRun(e, p, t);
      assert Enters(e, snaps, inputs, a, t, b);
    }
  }

  // ---------------------------------------------------------------- Short routes

  lemma {:induction false} DwellBounded(c: Constraints, p: seq<State>, d: nat)
    requires |p| > 0 && forall s :: MinDuration(c, s) <= d
    ensures Dwell(c, p) <= (|p| - 1) * d
  {
    if |p| > 1 {
      DwellBounded(c, p[..|p| - 1], d);
      assert (|p| - 1) * d == (|p| - 2) * d + d;
    }
  }

  ghost predicate Repeats(p: seq<State>, i: int, j: int) {
    0 <= i < j < |p| && p[i] == p[j]
  }

  /** A route of more than eight states comes back to a state. */
  lemma LongRouteRepeats(p: seq<State>) returns (i: nat, j: nat)
    requires |p| > |ALL|
    ensures Repeats(p, i, j)
  {
    if Distinct(p) {
      DistinctSize(p);
      StatesAreAll(Elements(p));
      SubsetSize(Elements(p), ALL_STATES);
      assert false;
    }
    i, j :| 0 <= i < j < |p| && p[i] == p[j];
  }

  /** Cutting the loop out. */
  lemma LoopCut(e: Engine, p: seq<State>, a: State, b: State, i: nat, j: nat)
    requires Leads(e, p, a, b) && Repeats(p, i, j)
    ensures Leads(e, p[..i] + p[j..], a, b)
  {
    var q := p[..i] + p[j..];
    forall k | 0 <= k < |q| - 1 ensures OpenEdge(e, q[k], q[k + 1]) {
      var m := if k < i then k else k - i + j;
      assert OpenEdge(e, p[m], p[m + 1]);
    }
  }

  lemma {:induction false} ShortRoute(e: Engine, p: seq<State>, a: State, b: State) returns (q: seq<State>)
    requires Leads(e, p, a, b)
    ensures Leads(e, q, a, b) && |q| <= |ALL|
    decreases |p|
  {
    if |p| <= |ALL| {
      q := p;
    } else {
      var i, j := LongRouteRepeats(p);
      LoopCut(e, p, a, b, i, j);
      q := ShortRoute(e, p[..i] + p[j..], a, b);
    }
  }

  /** The condition a configuration can be checked for: with seven of the longest dwell times left before
      64-bit time ends, a state can be entered exactly if some route of rules that are not forbidden
      leads there. */
  lemma EnterableWithTime(e: Engine, a: State, t: i64, b: State, d: nat)
    requires (forall s :: MinDuration(e.constraints, s) <= d) && d <= I64_MAX && t + 7 * d <= I64_MAX
    ensures Enterable(e, a, t, b) <==> exists p :: Leads(e, p, a, b)
  {
    EnterableExactly(e, a, t, b);
    if p :| Leads(e, p, a, b) {
      var q := ShortRoute(e, p, a, b);
      DwellBounded(e.constraints, q, d);
      SevenAtMost(|q| - 1, d);
      assert InTime(e.constraints, q, t);
    }
  }

  lemma SevenAtMost(n: nat, d: nat)
    requires n <= 7
    ensures n * d <= 7 * d
  {
  }

  // ---------------------------------------------------------------- States cut off

  /** A state all of whose rules from other states are forbidden is on no route, and so never entered,
      however sound the table and whatever the clock. */
  lemma ForbiddenNeverEntered(e: Engine, snaps: seq<Snapshot>, inputs: seq<Input>, s: State, n: nat)
    requires IsRun(e, snaps, inputs) && n <= |inputs| && snaps[0].state != s
    requires forall a, x :: a != s && Get(e.table, a, x) == Some(s) ==> (a, x, s) in e.constraints.forbidden
    ensures snaps[n].state != s
  {
    var p := RunFollowsRoute(e, snaps, inputs, n);
    if |p| > 1 {
      assert OpenEdge(e, p[|p| - 2], p[|p| - 2 + 1]);
    }
  }

  function Successor(s: State): State {
    match s
    case Neutral => Joyful case Joyful => Curious case Curious => Empathetic case Empathetic => Calm
    case Calm => Worried case Worried => Frustrated case Frustrated => Anxious case Anxious => Neutral
  }

  /** Praise leads through all eight states in a circle. */
  const CIRCLE: Table :=
    map k | k in (set s: State | s in ALL_STATES :: (s, Praise)) :: Successor(k.0)

  lemma CircleAt(s: State, x: Stimulus)
    ensures Get(CIRCLE, s, x) == if x == Praise then Some(Successor(s)) else None
  {
    StatesAreAll({s});
  }

  lemma CircleIsSound()
    ensures Sound(CIRCLE)
  {
    forall s ensures HasExit(CIRCLE, s) && Reachable(CIRCLE, Neutral, s) {
      CircleAt(s, Praise);
      assert (s, Praise) in CIRCLE;
      var i := Listed(s);
      CircleReaches(i);
    }
  }

  lemma {:induction false} CircleReaches(i: nat)
    requires i < |ALL|
    ensures Reachable(CIRCLE, Neutral, ALL[i])
  {
    if i == 0 {
      ReachesItself(CIRCLE, Neutral);
    } else {
      CircleReaches(i - 1);
      CircleAt(ALL[i - 1], Praise);
      assert Successor(ALL[i - 1]) == ALL[i];
      assert (ALL[i - 1], Praise) in CIRCLE && CIRCLE[(ALL[i - 1], Praise)] == ALL[i];
      ReachesNext(CIRCLE, Neutral, ALL[i - 1], ALL[i]);
    }
  }

  lemma FirstEdge(e: Engine, p: seq<State>)
    requires Route(e, p)
    ensures |p| > 1 ==> OpenEdge(e, p[0], p[1])
  {
    if |p| > 1 {
      assert OpenEdge(e, p[0], p[0 + 1]);
    }
  }

  lemma NoWayOut(c: Constraints)
    requires (Neutral, Praise, Joyful) in c.forbidden
    ensures forall b :: !OpenEdge(Engine(CIRCLE, c), Neutral, b)
  {
    forall x ensures Get(CIRCLE, Neutral, x) == if x == Praise then Some(Joyful) else None {
      CircleAt(Neutral, x);
    }
  }

  /** An input at which validation promises too much: the circle passes, and with its first rule forbidden
      no run from Neutral ever leaves Neutral, although only one state has no permitted rule into it. */
  lemma CircleCutOff(c: Constraints, snaps: seq<Snapshot>, inputs: seq<Input>, n: nat)
    requires (Neutral, Praise, Joyful) in c.forbidden
    requires IsRun(Engine(CIRCLE, c), snaps, inputs) && snaps[0].state == Neutral && n <= |inputs|
    ensures Sound(CIRCLE) && snaps[n].state == Neutral
  {
    CircleIsSound();
    var p := RunFollowsRoute(Engine(CIRCLE, c), snaps, inputs, n);
    FirstEdge(Engine(CIRCLE, c), p);
    NoWayOut(c);
  }
}
