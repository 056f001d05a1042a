/**
  Goal reprioritisation: the current goals and the built-in goals of the phase and beliefs, merged by
  identifier, ordered by priority and cut to four.

  Maps are listed in any order and the sort need not be stable; what is proved here holds for every outcome
  that this allows. When there is only one, and when running again changes nothing, is decided in
  `GoalStability`. `slug` derives an identifier from a description.
*/
module Goals {
  import opened StableSorting
  import opened TopN
  import opened TopTies

  datatype Goal = Goal(id: string, description: string, priority: real)

  datatype Beliefs = Beliefs(timePressure: bool, userExpertise: string)

  const MAX_GOALS := 4

  type GoalMap = map<string, Goal>

  // ---------------------------------------------------------------- Built-in goals

  const RESOLVE := Goal("resolve_request", "Resolve the user's request", 0.9)
  const CONTINUITY := Goal("emotional_continuity", "Preserve emotional continuity", 0.7)
  const FRICTION := Goal("reduce_friction", "Minimize friction and get to the action quickly", 1.0)
  const PLAIN := Goal("plain_language", "Explain the next step in plain language", 0.92)
  const PRECISION := Goal("technical_precision", "Provide technically precise guidance", 0.88)
  const CONTEXT := Goal("establish_context", "Establish context before diving into details", 0.72)
  const DIAGNOSE := Goal("diagnose_problem", "Identify the most likely root cause", 0.96)
  const CLOSE := Goal("close_loop", "Confirm resolution and next steps", 0.82)
  const HANDOFF := Goal("clean_handoff", "Close the interaction cleanly", 0.76)

  function PhaseGoals(phase: string): seq<Goal> {
    if phase == "greeting" then [CONTEXT]
    else if phase == "problem_diagnosis" then [DIAGNOSE]
    else if phase == "resolution" then [CLOSE]
    else if phase == "farewell" then [HANDOFF]
    else []
  }

  function ExpertiseGoals(expertise: string): seq<Goal> {
    if expertise == "beginner" then [PLAIN] else if expertise == "advanced" then [PRECISION] else []
  }

  /** The built-in goals in the order in which they are merged. */
  function BuiltIns(phase: string, b: Beliefs): seq<Goal> {
    [RESOLVE, CONTINUITY] + (if b.timePressure then [FRICTION] else []) + ExpertiseGoals(b.userExpertise)
      + PhaseGoals(phase)
  }

  ghost predicate DistinctIds(gs: seq<Goal>) {
    forall i, j :: 0 <= i < j < |gs| ==> gs[i].id != gs[j].id
  }

  ghost predicate DistinctDescriptions(gs: seq<Goal>) {
    forall i, j :: 0 <= i < j < |gs| ==> gs[i].description != gs[j].description
  }

  ghost predicate Apart(gs: seq<Goal>) {
    DistinctIds(gs) && DistinctDescriptions(gs)
  }

  /** A numbering of the merge steps that can be read off an identifier, and off a description. */
  function IdStep(id: string): nat {
    if |id| == 15 then (if id[2] == 's' then 0 else 2)
    else if |id| == 20 then 1 else if |id| == 14 || |id| == 19 then 3 else 4
  }

  function DescriptionStep(d: string): nat {
    if |d| == 26 then 0 else if |d| == 29 then (if d[0] == 'P' then 1 else 4)
    else if |d| == 47 then 2 else if |d| == 39 || |d| == 36 then 3 else 4
  }

  predicate AtStep(g: Goal, k: nat) {
    IdStep(g.id) == k && DescriptionStep(g.description) == k
  }

  lemma Steps()
    ensures AtStep(RESOLVE, 0) && AtStep(CONTINUITY, 1) && AtStep(FRICTION, 2) && AtStep(PLAIN, 3)
            && AtStep(PRECISION, 3)
    ensures AtStep(CONTEXT, 4) && AtStep(DIAGNOSE, 4) && AtStep(CLOSE, 4) && AtStep(HANDOFF, 4)
  {
  }

  ghost predicate BeforeStep(gs: seq<Goal>, k: nat) {
    forall g :: g in gs ==> IdStep(g.id) < k && DescriptionStep(g.description) < k
  }

  lemma AppendApart(gs: seq<Goal>, hs: seq<Goal>, k: nat)
    requires Apart(gs) && BeforeStep(gs, k) && |hs| <= 1 && (hs != [] ==> AtStep(hs[0], k))
    ensures Apart(gs + hs) && BeforeStep(gs + hs, k + 1)
  {
    forall i, j | 0 <= i < j < |gs + hs|
      ensures (gs + hs)[i].id != (gs + hs)[j].id && (gs + hs)[i].description != (gs + hs)[j].description
    {
      if j == |gs| {
        assert gs[i] in gs;
      }
    }
  }

  lemma MergeOrderApart(first: Goal, second: Goal, third: seq<Goal>, fourth: seq<Goal>, fifth: seq<Goal>)
    requires AtStep(first, 0) && AtStep(second, 1) && |third| <= 1 && |fourth| <= 1 && |fifth| <= 1
    requires (third != [] ==> AtStep(third[0], 2)) && (fourth != [] ==> AtStep(fourth[0], 3))
             && (fifth != [] ==> AtStep(fifth[0], 4))
    ensures Apart([first, second] + third + fourth + fifth)
  {
    AppendApart([], [first], 0);
    assert [] + [first] == [first];
    AppendApart([first], [second], 1);
    assert [first] + [second] == [first, second];
    AppendApart([first, second], third, 2);
    AppendApart([first, second] + third, fourth, 3);
    AppendApart([first, second] + third + fourth, fifth, 4);
  }

  lemma BuiltInsApart(phase: string, b: Beliefs)
    ensures Apart(BuiltIns(phase, b))
  {
    Steps();
    MergeOrderApart(RESOLVE, CONTINUITY, if b.timePressure then [FRICTION] else [], ExpertiseGoals(b.userExpertise),
                    PhaseGoals(phase));
  }

  lemma BuiltInsNamed(phase: string, b: Beliefs, g: Goal)
    requires g in BuiltIns(phase, b)
    ensures g.id != "" && g.description != ""
  {
    Steps();
  }

  // ---------------------------------------------------------------- Merging

  function Keyed(slug: string -> string, g: Goal): Goal {
    if g.id == "" then g.(id := slug(g.description)) else g
  }

  /** The current goals by identifier; later goals replace earlier ones. */
  function MapOf(slug: string -> string, current: seq<Goal>): GoalMap {
    if current == [] then map[]
    else
      var last := Keyed(slug, current[|current| - 1]);
      MapOf(slug, current[..|current| - 1])[last.id := last]
  }

  /** A built-in goal that is present keeps the higher priority and gets a missing description. */
  function Merged(existing: Goal, g: Goal): Goal {
    existing.(priority := if g.priority > existing.priority then g.priority else existing.priority,
              description := if existing.description == "" then g.description else existing.description)
  }

  function Upsert(m: GoalMap, g: Goal): GoalMap {
    m[g.id := if g.id in m then Merged(m[g.id], g) else g]
  }

  function UpsertAll(m: GoalMap, gs: seq<Goal>): GoalMap {
    if gs == [] then m else Upsert(UpsertAll(m, gs[..|gs| - 1]), gs[|gs| - 1])
  }

  function GoalMapOf(slug: string -> string, current: seq<Goal>, phase: string, b: Beliefs): GoalMap {
    UpsertAll(MapOf(slug, current), BuiltIns(phase, b))
  }

  ghost predicate KeyedById(m: GoalMap) {
    forall k :: k in m ==> m[k].id == k
  }

  lemma {:induction false} MapOfKeyed(slug: string -> string, current: seq<Goal>)
    ensures KeyedById(MapOf(slug, current))
  {
    if current != [] {
      MapOfKeyed(slug, current[..|current| - 1]);
    }
  }

  lemma {:induction false} UpsertAllKeyed(m: GoalMap, gs: seq<Goal>)
    requires KeyedById(m)
    ensures KeyedById(UpsertAll(m, gs))
  {
    if gs != [] {
      UpsertAllKeyed(m, gs[..|gs| - 1]);
    }
  }

  // ---------------------------------------------------------------- Order and outcome

  const FIRST: (Goal, Goal) -> bool :=
    (x: Goal, y: Goal) => x.priority > y.priority || (x.priority == y.priority && LexLess(x.description, y.description))

  lemma FirstOrder()
    ensures StrictWeakOrder(FIRST)
  {
    forall x, y | FIRST(x, y) ensures !FIRST(y, x) {
      LexAsymmetric(x.description, y.description);
    }
    forall x, y, z | !FIRST(y, x) && !FIRST(z, y) ensures !FIRST(z, x) {
      if x.priority == y.priority == z.priority {
        LexNotBefore(x.description, y.description, z.description);
      }
    }
  }

  ghost function GoalsOf(m: GoalMap): set<Goal> {
    set k | k in m :: m[k]
  }

  /** The four foremost goals of the map in order. */
  ghost predicate IsOutcome(goals: seq<Goal>, m: GoalMap) {
    IsTopOf(goals, GoalsOf(m), MAX_GOALS, FIRST)
  }

  method CollectGoals(slug: string -> string, current: seq<Goal>) returns (m: GoalMap)
    ensures m == MapOf(slug, current)
  {
    m := map[];
    for i := 0 to |current|
      invariant m == MapOf(slug, current[..i])
    {
      assert current[..i + 1][..i] == current[..i];
      var g := current[i];
      if g.id == "" {
        g := g.(id := slug(g.description));
      }
      m := m[g.id := g];
    }
    assert current[..|current|] == current;
  }

  method UpsertGoals(m0: GoalMap, gs: seq<Goal>) returns (m: GoalMap)
    ensures m == UpsertAll(m0, gs)
  {
    m := m0;
    for i := 0 to |gs|
      invariant m == UpsertAll(m0, gs[..i])
    {
      assert gs[..i + 1][..i] == gs[..i];
      m := Upsert(m, gs[i]);
    }
    assert gs[..|gs|] == gs;
  }

  /** The values of the map, in any order. */
  method ListGoals(m: GoalMap) returns (goals: seq<Goal>)
    requires KeyedById(m)
    ensures multiset(goals) == multiset(GoalsOf(m))
  {
    goals := [];
    var left := m.Keys;
    ghost var listed: GoalMap := map[];
    while left != {}
      invariant left <= m.Keys && listed == m - left && multiset(goals) == multiset(GoalsOf(listed))
      decreases left
    {
      var k :| k in left;
      ListedOneMore(m, listed, k);
      goals := goals + [m[k]];
      left := left - {k};
      assert m - left == listed[k := m[k]];
      listed := m - left;
    }
    assert listed == m;
  }

  lemma ListedOneMore(m: GoalMap, listed: GoalMap, k: string)
    requires KeyedById(m) && k in m && k !in listed && forall l :: l in listed ==> l in m && listed[l] == m[l]
    ensures multiset(GoalsOf(listed[k := m[k]])) == multiset(GoalsOf(listed)) + multiset{m[k]}
  {
    var more := listed[k := m[k]];
    forall l | l in listed ensures listed[l] in GoalsOf(more) {
      assert more[l] == listed[l];
    }
    assert more[k] in GoalsOf(more);
    assert GoalsOf(more) == GoalsOf(listed) + {m[k]};
    assert m[k] !in GoalsOf(listed);
  }

  method ReprioritizeGoals(slug: string -> string, current: seq<Goal>, phase: string, b: Beliefs)
    returns (goals: seq<Goal>)
    ensures IsOutcome(goals, GoalMapOf(slug, current, phase, b))
  {
    var m := CollectGoals(slug, current);
    MapOfKeyed(slug, current);
    UpsertAllKeyed(m, BuiltIns(phase, b));
    m := UpsertGoals(m, BuiltIns(phase, b));
    goals := ForemostGoals(m);
  }

  /** The goals of the map sorted and cut to four. */
  method ForemostGoals(m: GoalMap) returns (goals: seq<Goal>)
    requires KeyedById(m)
    ensures IsOutcome(goals, m)
  {
    goals := ListGoals(m);
    FirstOrder();
    goals := SortAny(goals, FIRST);
    CutIsTop(goals, multiset(GoalsOf(m)), MAX_GOALS, FIRST);
    if |goals| > MAX_GOALS {
      goals := goals[..MAX_GOALS];
    } else {
      assert goals[..|goals|] == goals;
    }
  }

  // ---------------------------------------------------------------- What the merged map holds

  function KeyedAll(slug: string -> string, current: seq<Goal>): seq<Goal> {
    seq(|current|, i requires 0 <= i < |current| => Keyed(slug, current[i]))
  }

  /** Distinct identifiers and descriptions, and a goal has a built-in identifier exactly if it has that
      built-in description. */
  ghost predicate WellKept(slug: string -> string, current: seq<Goal>, builtIns: seq<Goal>) {
    && Apart(KeyedAll(slug, current))
    && forall g, h :: g in KeyedAll(slug, current) && h in builtIns ==>
         (g.id == h.id <==> g.description == h.description)
  }

  lemma {:induction false} MapOfMember(slug: string -> string, current: seq<Goal>, i: nat)
    requires DistinctIds(KeyedAll(slug, current)) && i < |current|
    ensures Keyed(slug, current[i]).id in MapOf(slug, current)
    ensures MapOf(slug, current)[Keyed(slug, current[i]).id] == Keyed(slug, current[i])
  {
    var n := |current| - 1;
    var ks := KeyedAll(slug, current);
    if i < n {
      assert KeyedAll(slug, current[..n]) == ks[..n];
      MapOfMember(slug, current[..n], i);
      assert ks[i].id != ks[n].id;
    }
  }

  lemma {:induction false} MapOfFrom(slug: string -> string, current: seq<Goal>, k: string)
    requires k in MapOf(slug, current)
    ensures MapOf(slug, current)[k] in KeyedAll(slug, current)
  {
    var n := |current| - 1;
    var ks := KeyedAll(slug, current);
    assert ks[n] == Keyed(slug, current[n]);
    if ks[n].id != k {
      MapOfFrom(slug, current[..n], k);
      assert KeyedAll(slug, current[..n]) == ks[..n];
    }
  }

  lemma {:induction false} UpsertOther(m: GoalMap, gs: seq<Goal>, k: string)
    requires forall i :: 0 <= i < |gs| ==> gs[i].id != k
    ensures k in UpsertAll(m, gs) <==> k in m
    ensures k in m ==> UpsertAll(m, gs)[k] == m[k]
  {
    if gs != [] {
      UpsertOther(m, gs[..|gs| - 1], k);
    }
  }

  lemma {:induction false} UpsertHit(m: GoalMap, gs: seq<Goal>, i: nat)
    requires DistinctIds(gs) && i < |gs|
    ensures gs[i].id in UpsertAll(m, gs)
    ensures UpsertAll(m, gs)[gs[i].id] == if gs[i].id in m then Merged(m[gs[i].id], gs[i]) else gs[i]
  {
    var n := |gs| - 1;
    if i < n {
      UpsertHit(m, gs[..n], i);
    } else {
      UpsertOther(m, gs[..n], gs[n].id);
    }
  }

  // ---------------------------------------------------------------- In the terms of the goals

  /** Which goals are built in, when. */
  lemma BuiltInsExactly(phase: string, b: Beliefs, g: Goal)
    ensures g in BuiltIns(phase, b) <==>
            || g == Goal("resolve_request", "Resolve the user's request", 0.9)
            || g == Goal("emotional_continuity", "Preserve emotional continuity", 0.7)
            || (b.timePressure && g == Goal("reduce_friction", "Minimize friction and get to the action quickly", 1.0))
            || (b.userExpertise == "beginner"
                && g == Goal("plain_language", "Explain the next step in plain language", 0.92))
            || (b.userExpertise == "advanced"
                && g == Goal("technical_precision", "Provide technically precise guidance", 0.88))
            || (phase == "greeting"
                && g == Goal("establish_context", "Establish context before diving into details", 0.72))
            || (phase == "problem_diagnosis"
                && g == Goal("diagnose_problem", "Identify the most likely root cause", 0.96))
            || (phase == "resolution" && g == Goal("close_loop", "Confirm resolution and next steps", 0.82))
            || (phase == "farewell" && g == Goal("clean_handoff", "Close the interaction cleanly", 0.76))
  {
    InAppended([RESOLVE, CONTINUITY], if b.timePressure then [FRICTION] else [], ExpertiseGoals(b.userExpertise),
               PhaseGoals(phase), g);
    Kinds();
  }

  lemma InAppended(a: seq<Goal>, b: seq<Goal>, c: seq<Goal>, d: seq<Goal>, g: Goal)
    ensures g in a + b + c + d <==> g in a || g in b || g in c || g in d
  {
  }

  lemma Kinds()
    ensures "beginner" != "advanced" && "greeting" != "problem_diagnosis" && "greeting" != "resolution"
    ensures "greeting" != "farewell" && "problem_diagnosis" != "resolution" && "problem_diagnosis" != "farewell"
    ensures "resolution" != "farewell"
  {
    assert "beginner"[0] == 'b' && "advanced"[0] == 'a' && "greeting"[0] == 'g' && "problem_diagnosis"[0] == 'p';
    assert "resolution"[0] == 'r' && "farewell"[0] == 'f';
  }

  /** Current goal i is the last one under this name, its own or the one derived from its description. */
  ghost predicate LastNamed(slug: string -> string, current: seq<Goal>, k: string, i: int) {
    && 0 <= i < |current|
    && (if current[i].id == "" then slug(current[i].description) else current[i].id) == k
    && forall j :: i < j < |current| ==>
         (if current[j].id == "" then slug(current[j].description) else current[j].id) != k
  }

  lemma {:induction false} CurrentExactly(slug: string -> string, current: seq<Goal>, k: string)
    ensures forall i :: LastNamed(slug, current, k, i) ==>
              k in MapOf(slug, current) && MapOf(slug, current)[k] == current[i].(id := k)
    ensures k in MapOf(slug, current) ==> exists i :: LastNamed(slug, current, k, i)
  {
    if current != [] {
      var front, last := current[..|current| - 1], current[|current| - 1];
      CurrentExactly(slug, front, k);
      assert current == front + [last];
      if Keyed(slug, last).id == k {
        assert LastNamed(slug, current, k, |front|);
      } else {
        forall i | LastNamed(slug, current, k, i) ensures LastNamed(slug, front, k, i) && front[i] == current[i] {
          StillLast(slug, front, last, k, i);
        }
        if i :| LastNamed(slug, front, k, i) {
          StaysLast(slug, front, last, k, i);
        }
      }
    }
  }

  lemma StillLast(slug: string -> string, front: seq<Goal>, last: Goal, k: string, i: int)
    requires LastNamed(slug, front + [last], k, i) && Keyed(slug, last).id != k
    ensures LastNamed(slug, front, k, i) && front[i] == (front + [last])[i]
  {
    var current := front + [last];
    assert current[|front|] == last && i != |front|;
    assert forall j :: 0 <= j < |front| ==> current[j] == front[j];
  }

  lemma StaysLast(slug: string -> string, front: seq<Goal>, last: Goal, k: string, i: int)
    requires LastNamed(slug, front, k, i) && Keyed(slug, last).id != k
    ensures LastNamed(slug, front + [last], k, i)
  {
    var current := front + [last];
    assert current[|front|] == last;
    assert forall j :: 0 <= j < |front| ==> current[j] == front[j];
  }

  /** What the merged map holds under a name: the built-in goal of that name, the last current one, or of both the
      current one with the higher priority and a description if it has none. */
  lemma MergedExactly(slug: string -> string, current: seq<Goal>, phase: string, b: Beliefs, k: string)
    ensures var m := GoalMapOf(slug, current, phase, b);
      && (k in m <==> (exists i :: LastNamed(slug, current, k, i)) || exists h :: h in BuiltIns(phase, b) && h.id == k)
      && (forall h :: h in BuiltIns(phase, b) && h.id == k ==>
            && ((forall i :: !LastNamed(slug, current, k, i)) ==> m[k] == h)
            && (forall i :: LastNamed(slug, current, k, i) ==>
                  m[k] == Goal(k, if current[i].description == "" then h.description else current[i].description,
                               if h.priority > current[i].priority then h.priority else current[i].priority)))
      && ((forall h :: h in BuiltIns(phase, b) ==> h.id != k) ==>
            forall i :: LastNamed(slug, current, k, i) ==> m[k] == current[i].(id := k))
  {
    var hs := BuiltIns(phase, b);
    CurrentExactly(slug, current, k);
    BuiltInsApart(phase, b);
    if h :| h in hs && h.id == k {
      var n :| 0 <= n < |hs| && hs[n] == h;
      UpsertHit(MapOf(slug, current), hs, n);
      forall g | g in hs && g.id == k ensures g == h {
        var l :| 0 <= l < |hs| && hs[l] == g;
        assert !(l < n) && !(n < l);
      }
    } else {
      UpsertOther(MapOf(slug, current), hs, k);
    }
  }

  /** The outcome lists the goals by falling priority, at one priority by rising description, four at most, and
      nothing that is left out comes before what is listed. */
  lemma OutcomeInOrder(goals: seq<Goal>, m: GoalMap)
    requires IsOutcome(goals, m)
    ensures |goals| == if |GoalsOf(m)| < 4 then |GoalsOf(m)| else 4
    ensures forall g :: g in goals ==> exists k :: k in m && m[k] == g
    ensures forall i, j :: 0 <= i < j < |goals| ==>
              goals[i].priority > goals[j].priority
              || (goals[i].priority == goals[j].priority && !LexLess(goals[j].description, goals[i].description))
    ensures forall k, i :: k in m && m[k] !in goals && 0 <= i < |goals| ==>
              goals[i].priority > m[k].priority
              || (goals[i].priority == m[k].priority && !LexLess(m[k].description, goals[i].description))
  {
    forall g | g in goals ensures exists k :: k in m && m[k] == g {
      assert g in multiset(goals) && g in multiset(GoalsOf(m));
    }
    forall i, j | 0 <= i < j < |goals|
      ensures goals[i].priority > goals[j].priority
              || (goals[i].priority == goals[j].priority && !LexLess(goals[j].description, goals[i].description))
    {
      assert !FIRST(goals[j], goals[i]);
    }
    forall k, i | k in m && m[k] !in goals && 0 <= i < |goals|
      ensures goals[i].priority > m[k].priority
              || (goals[i].priority == m[k].priority && !LexLess(m[k].description, goals[i].description))
    {
      assert m[k] in GoalsOf(m) && m[k] !in multiset(goals);
      assert m[k] in multiset(GoalsOf(m)) - multiset(goals) && goals[i] in goals;
      assert !FIRST(m[k], goals[i]);
    }
  }
}
