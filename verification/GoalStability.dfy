/**
  When the order of a map can be seen in the goals, and when running again changes them. Both are decided
  exactly, for all current goals, by ties in priority and description.
*/
module GoalStability {
  import opened FiniteSets
  import opened TopN
  import opened TopTies
  import opened Goals

  /** The built-in goals have names, and no two share one. */
  ghost predicate ProperBuiltIns(builtIns: seq<Goal>) {
    Apart(builtIns) && forall h :: h in builtIns ==> h.id != "" && h.description != ""
  }

  lemma BuiltInsProper(phase: string, b: Beliefs)
    ensures ProperBuiltIns(BuiltIns(phase, b))
  {
    BuiltInsApart(phase, b);
    forall h | h in BuiltIns(phase, b) ensures h.id != "" && h.description != "" {
      BuiltInsNamed(phase, b, h);
    }
  }

  function MergedMap(slug: string -> string, current: seq<Goal>, builtIns: seq<Goal>): GoalMap {
    UpsertAll(MapOf(slug, current), builtIns)
  }

  lemma MergedKeyed(slug: string -> string, current: seq<Goal>, builtIns: seq<Goal>)
    ensures KeyedById(MergedMap(slug, current, builtIns))
  {
    MapOfKeyed(slug, current);
    UpsertAllKeyed(MapOf(slug, current), builtIns);
  }

  // ---------------------------------------------------------------- The order of the map

  /** All outcomes of the map are one list. */
  ghost predicate OneOutcome(m: GoalMap) {
    forall goals, others :: IsOutcome(goals, m) && IsOutcome(others, m) ==> goals == others
  }

  /** Neither the order of the map nor the unstable sort can be seen exactly if no goal that ties with another
      in priority and description has fewer than four goals before it. */
  lemma OrderIndependentExactly(m: GoalMap)
    ensures OneOutcome(m) <==> NoTieAtTop(GoalsOf(m), MAX_GOALS, FIRST)
  {
    FirstOrder();
    OneTopExactly(GoalsOf(m), MAX_GOALS, FIRST);
    assert OneOutcome(m) <==> OneTop(GoalsOf(m), MAX_GOALS, FIRST) by {
      if OneOutcome(m) {
        forall w, v | IsTopOf(w, GoalsOf(m), MAX_GOALS, FIRST) && IsTopOf(v, GoalsOf(m), MAX_GOALS, FIRST)
          ensures w == v {
          assert IsOutcome(w, m) && IsOutcome(v, m);
        }
      }
    }
  }

  // ---------------------------------------------------------------- The map of the second run

  /** What the first run leaves in its map: every built-in goal, named and with at least its priority. */
  ghost predicate Ready(m: GoalMap, builtIns: seq<Goal>) {
    && KeyedById(m)
    && forall h :: h in builtIns ==> h.id in m && m[h.id].priority >= h.priority && m[h.id].description != ""
  }

  lemma MergedReady(slug: string -> string, current: seq<Goal>, builtIns: seq<Goal>)
    requires ProperBuiltIns(builtIns)
    ensures Ready(MergedMap(slug, current, builtIns), builtIns)
  {
    MergedKeyed(slug, current, builtIns);
    forall h | h in builtIns
      ensures var m := MergedMap(slug, current, builtIns);
        h.id in m && m[h.id].priority >= h.priority && m[h.id].description != ""
    {
      var i :| 0 <= i < |builtIns| && builtIns[i] == h;
      UpsertHit(MapOf(slug, current), builtIns, i);
    }
  }

  /** Goals of the map already have their identifiers. */
  lemma MergedSettled(slug: string -> string, current: seq<Goal>, builtIns: seq<Goal>, k: string)
    requires ProperBuiltIns(builtIns) && k in MergedMap(slug, current, builtIns)
    ensures var g := MergedMap(slug, current, builtIns)[k]; Keyed(slug, g) == g
  {
    MergedKeyed(slug, current, builtIns);
    if k == "" {
      forall i | 0 <= i < |builtIns| ensures builtIns[i].id != k {
        assert builtIns[i] in builtIns;
      }
      UpsertOther(MapOf(slug, current), builtIns, k);
      MapOfFrom(slug, current, k);
    }
  }

  lemma OutcomeFromMap(goals: seq<Goal>, m: GoalMap)
    requires KeyedById(m) && IsOutcome(goals, m)
    ensures DistinctIds(goals) && forall g :: g in goals ==> g.id in m && m[g.id] == g
  {
    TopDistinct(goals, GoalsOf(m), MAX_GOALS, FIRST);
    forall g | g in goals ensures g.id in m && m[g.id] == g {
      assert g in Elements(goals);
    }
    forall i, j | 0 <= i < j < |goals| ensures goals[i].id != goals[j].id {
      assert goals[i] in goals && goals[j] in goals;
    }
  }

  lemma OutcomeSettled(slug: string -> string, current: seq<Goal>, builtIns: seq<Goal>, goals: seq<Goal>)
    requires ProperBuiltIns(builtIns) && IsOutcome(goals, MergedMap(slug, current, builtIns))
    ensures KeyedAll(slug, goals) == goals
  {
    MergedKeyed(slug, current, builtIns);
    OutcomeFromMap(goals, MergedMap(slug, current, builtIns));
    forall i | 0 <= i < |goals| ensures Keyed(slug, goals[i]) == goals[i] {
      assert goals[i] in goals;
      MergedSettled(slug, current, builtIns, goals[i].id);
    }
  }

  ghost predicate Named(goals: seq<Goal>, id: string) {
    exists g :: g in goals && g.id == id
  }

  /** The built-in goals that are not among the goals kept. */
  ghost function Lost(goals: seq<Goal>, builtIns: seq<Goal>): set<Goal> {
    set h | h in builtIns && !Named(goals, h.id)
  }

  lemma KeptAgain(slug: string -> string, builtIns: seq<Goal>, m: GoalMap, goals: seq<Goal>, g: Goal)
    requires ProperBuiltIns(builtIns) && Ready(m, builtIns) && IsOutcome(goals, m) && KeyedAll(slug, goals) == goals
             && g in goals
    ensures var m2 := MergedMap(slug, goals, builtIns); g.id in m2 && m2[g.id] == g
  {
    OutcomeFromMap(goals, m);
    var i :| 0 <= i < |goals| && goals[i] == g;
    MapOfMember(slug, goals, i);
    assert KeyedAll(slug, goals)[i] == Keyed(slug, goals[i]);
    if j :| 0 <= j < |builtIns| && builtIns[j].id == g.id {
      UpsertHit(MapOf(slug, goals), builtIns, j);
      assert builtIns[j] in builtIns;
      assert Merged(g, builtIns[j]) == g;
    } else {
      UpsertOther(MapOf(slug, goals), builtIns, g.id);
    }
  }

  lemma NotYetNamed(slug: string -> string, goals: seq<Goal>, k: string)
    requires KeyedAll(slug, goals) == goals && !Named(goals, k)
    ensures k !in MapOf(slug, goals)
  {
    if k in MapOf(slug, goals) {
      MapOfFrom(slug, goals, k);
      MapOfKeyed(slug, goals);
      assert Named(goals, k);
    }
  }

  lemma LostAgain(slug: string -> string, builtIns: seq<Goal>, goals: seq<Goal>, h: Goal)
    requires ProperBuiltIns(builtIns) && KeyedAll(slug, goals) == goals && h in Lost(goals, builtIns)
    ensures var m2 := MergedMap(slug, goals, builtIns); h.id in m2 && m2[h.id] == h
  {
    var j :| 0 <= j < |builtIns| && builtIns[j] == h;
    NotYetNamed(slug, goals, h.id);
    UpsertHit(MapOf(slug, goals), builtIns, j);
  }

  lemma NothingElse(slug: string -> string, builtIns: seq<Goal>, goals: seq<Goal>, k: string)
    requires ProperBuiltIns(builtIns) && KeyedAll(slug, goals) == goals && k in MergedMap(slug, goals, builtIns)
    ensures Named(goals, k) || exists h :: h in Lost(goals, builtIns) && h.id == k
  {
    if j :| 0 <= j < |builtIns| && builtIns[j].id == k {
      assert builtIns[j] in builtIns;
      assert Named(goals, k) || builtIns[j] in Lost(goals, builtIns);
    } else {
      UpsertOther(MapOf(slug, goals), builtIns, k);
      if !Named(goals, k) {
        NotYetNamed(slug, goals, k);
      }
    }
  }

  /** The second run chooses among the goals that were kept and the built-in goals that were not. */
  lemma SecondGoals(slug: string -> string, builtIns: seq<Goal>, m: GoalMap, goals: seq<Goal>)
    requires ProperBuiltIns(builtIns) && Ready(m, builtIns) && IsOutcome(goals, m) && KeyedAll(slug, goals) == goals
    ensures GoalsOf(MergedMap(slug, goals, builtIns)) == Elements(goals) + Lost(goals, builtIns)
  {
    var m2 := MergedMap(slug, goals, builtIns);
    forall g | g in goals ensures g.id in m2 && m2[g.id] == g {
      KeptAgain(slug, builtIns, m, goals, g);
    }
    forall h | h in Lost(goals, builtIns) ensures h.id in m2 && m2[h.id] == h {
      LostAgain(slug, builtIns, goals, h);
    }
    forall k | k in m2 ensures m2[k] in Elements(goals) + Lost(goals, builtIns) {
      NothingElse(slug, builtIns, goals, k);
    }
  }

  // ---------------------------------------------------------------- When running again changes nothing

  /** No two goals that tie fit among the first four together; and a built-in goal that can be cut off has
      four goals before it in its built-in form. */
  ghost predicate Steady(m: GoalMap, builtIns: seq<Goal>) {
    && NoTieAtTop(GoalsOf(m), MAX_GOALS - 1, FIRST)
    && forall h :: h in builtIns && h.id in m && |UpTo(GoalsOf(m), m[h.id], FIRST)| > MAX_GOALS ==>
         |Before(GoalsOf(m), h, FIRST)| >= MAX_GOALS
  }

  /** Whatever the first run gives, the second gives it again. */
  ghost predicate RunsAgainAlike(slug: string -> string, m: GoalMap, builtIns: seq<Goal>) {
    forall goals, again :: IsOutcome(goals, m) && IsOutcome(again, MergedMap(slug, goals, builtIns)) ==> again == goals
  }

  /** A lost built-in goal comes after everything that was kept. */
  lemma LostBehind(m: GoalMap, builtIns: seq<Goal>, goals: seq<Goal>, h: Goal, y: Goal)
    requires Ready(m, builtIns) && Steady(m, builtIns) && IsOutcome(goals, m) && h in Lost(goals, builtIns)
             && y in goals
    ensures FIRST(y, h) && |goals| == MAX_GOALS
  {
    FirstOrder();
    var g, all := m[h.id], GoalsOf(m);
    assert g !in goals;
    LeftOut(goals, all, MAX_GOALS, FIRST, g, y);
    if |UpTo(all, g, FIRST)| <= MAX_GOALS {
      TopHas(goals, all, MAX_GOALS, FIRST, g);
    } else {
      AfterTop(goals, all, MAX_GOALS, FIRST, h, y);
    }
  }

  lemma NoTieKept(m: GoalMap, goals: seq<Goal>, i: nat, j: nat)
    requires NoTieAtTop(GoalsOf(m), MAX_GOALS - 1, FIRST) && IsOutcome(goals, m) && i < j < |goals|
    ensures !Tie(goals[i], goals[j], FIRST)
  {
    FirstOrder();
    TopDistinct(goals, GoalsOf(m), MAX_GOALS, FIRST);
    assert goals[i] in Elements(goals) && goals[j] in Elements(goals);
    BeforeInFront(goals, GoalsOf(m), MAX_GOALS, FIRST, i);
  }

  lemma KeptBefore(goals: seq<Goal>, more: set<Goal>, x: Goal)
    requires Distinct(goals) && forall y :: y in goals ==> FIRST(y, x)
    ensures |Before(Elements(goals) + more, x, FIRST)| >= |goals|
  {
    DistinctSize(goals);
    SubsetSize(Elements(goals), Before(Elements(goals) + more, x, FIRST));
  }

  lemma LostBehindAll(m: GoalMap, builtIns: seq<Goal>, goals: seq<Goal>)
    requires Ready(m, builtIns) && Steady(m, builtIns) && IsOutcome(goals, m) && goals != []
    ensures forall h, y :: h in Lost(goals, builtIns) && y in goals ==> FIRST(y, h)
    ensures Lost(goals, builtIns) != {} ==> |goals| == MAX_GOALS
  {
    forall h, y | h in Lost(goals, builtIns) && y in goals ensures FIRST(y, h) && |goals| == MAX_GOALS {
      LostBehind(m, builtIns, goals, h, y);
    }
    assert goals[0] in goals;
  }

  /** In the second run a goal that ties with another has four goals before it. */
  lemma TiesBehind(m: GoalMap, goals: seq<Goal>, lost: set<Goal>, x: Goal, y: Goal)
    requires NoTieAtTop(GoalsOf(m), MAX_GOALS - 1, FIRST) && IsOutcome(goals, m)
    requires (forall h, y :: h in lost && y in goals ==> FIRST(y, h)) && (lost != {} ==> |goals| == MAX_GOALS)
    requires x in Elements(goals) + lost && y in Elements(goals) + lost && x != y && Tie(x, y, FIRST)
    ensures |Before(Elements(goals) + lost, x, FIRST)| >= MAX_GOALS
  {
    FirstOrder();
    TopDistinct(goals, GoalsOf(m), MAX_GOALS, FIRST);
    if x in lost {
      KeptBefore(goals, lost, x);
    } else if y in lost {
      SameBefore(Elements(goals) + lost, FIRST, x, y);
      KeptBefore(goals, lost, y);
    } else {
      var i :| 0 <= i < |goals| && goals[i] == x;
      var j :| 0 <= j < |goals| && goals[j] == y;
      NoTieKept(m, goals, if i < j then i else j, if i < j then j else i);
    }
  }

  lemma SteadyTop(m: GoalMap, builtIns: seq<Goal>, goals: seq<Goal>)
    requires Ready(m, builtIns) && Steady(m, builtIns) && IsOutcome(goals, m) && goals != []
    ensures IsTopOf(goals, Elements(goals) + Lost(goals, builtIns), MAX_GOALS, FIRST)
    ensures NoTieAtTop(Elements(goals) + Lost(goals, builtIns), MAX_GOALS, FIRST)
  {
    FirstOrder();
    var lost := Lost(goals, builtIns);
    LostBehindAll(m, builtIns, goals);
    TopAmong(goals, GoalsOf(m), MAX_GOALS, FIRST, lost);
    forall x, y | x in Elements(goals) + lost && y in Elements(goals) + lost && x != y && Tie(x, y, FIRST)
      ensures |Before(Elements(goals) + lost, x, FIRST)| >= MAX_GOALS
    {
      TiesBehind(m, goals, lost, x, y);
    }
  }

  lemma SteadyRunsAlike(slug: string -> string, builtIns: seq<Goal>, m: GoalMap, goals: seq<Goal>, again: seq<Goal>)
    requires ProperBuiltIns(builtIns) && Ready(m, builtIns) && Steady(m, builtIns) && KeyedAll(slug, goals) == goals
    requires IsOutcome(goals, m) && IsOutcome(again, MergedMap(slug, goals, builtIns)) && goals != []
    ensures again == goals
  {
    FirstOrder();
    SecondGoals(slug, builtIns, m, goals);
    SteadyTop(m, builtIns, goals);
    NoTieOneTop(Elements(goals) + Lost(goals, builtIns), MAX_GOALS, FIRST);
  }

  // The other direction: what follows from one outcome that is kept.

  /** If the second run always gives these goals again, its map has one outcome, and it is these. */
  lemma OnlyAgain(slug: string -> string, builtIns: seq<Goal>, m: GoalMap, goals: seq<Goal>)
    requires ProperBuiltIns(builtIns) && Ready(m, builtIns) && RunsAgainAlike(slug, m, builtIns)
    requires IsOutcome(goals, m) && KeyedAll(slug, goals) == goals
    ensures IsTopOf(goals, Elements(goals) + Lost(goals, builtIns), MAX_GOALS, FIRST)
    ensures NoTieAtTop(Elements(goals) + Lost(goals, builtIns), MAX_GOALS, FIRST)
  {
    FirstOrder();
    SecondGoals(slug, builtIns, m, goals);
    var all := Elements(goals) + Lost(goals, builtIns);
    var again := TopExists(all, MAX_GOALS, FIRST);
    assert IsOutcome(again, MergedMap(slug, goals, builtIns));
    forall w, v | IsTopOf(w, all, MAX_GOALS, FIRST) && IsTopOf(v, all, MAX_GOALS, FIRST) ensures w == v {
      assert IsOutcome(w, MergedMap(slug, goals, builtIns)) && IsOutcome(v, MergedMap(slug, goals, builtIns));
    }
    OneTopExactly(all, MAX_GOALS, FIRST);
  }

  /** No goal that is kept ties with anything the second run sees. */
  lemma KeptTiesNothing(goals: seq<Goal>, all: set<Goal>, x: Goal, y: Goal)
    requires IsTopOf(goals, all, MAX_GOALS, FIRST) && NoTieAtTop(all, MAX_GOALS, FIRST) && x in goals && y in all
             && x != y
    ensures !Tie(x, y, FIRST)
  {
    FirstOrder();
    TopDistinct(goals, all, MAX_GOALS, FIRST);
    assert x in Elements(goals);
    var i :| 0 <= i < |goals| && goals[i] == x;
    BeforeInFront(goals, all, MAX_GOALS, FIRST, i);
  }

  lemma PairDoesNotFit(slug: string -> string, current: seq<Goal>, builtIns: seq<Goal>, x: Goal, y: Goal)
    requires ProperBuiltIns(builtIns) && RunsAgainAlike(slug, MergedMap(slug, current, builtIns), builtIns)
    requires x in GoalsOf(MergedMap(slug, current, builtIns)) && y in GoalsOf(MergedMap(slug, current, builtIns))
    requires x != y && Tie(x, y, FIRST)
    ensures |Before(GoalsOf(MergedMap(slug, current, builtIns)), x, FIRST)| >= MAX_GOALS - 1
  {
    FirstOrder();
    var m := MergedMap(slug, current, builtIns);
    MergedReady(slug, current, builtIns);
    if |Before(GoalsOf(m), x, FIRST)| < MAX_GOALS - 1 {
      var goals, c := TopWithPair(GoalsOf(m), MAX_GOALS, FIRST, x, y);
      OutcomeSettled(slug, current, builtIns, goals);
      OnlyAgain(slug, builtIns, m, goals);
      assert goals[c] in goals && goals[c + 1] in Elements(goals);
      KeptTiesNothing(goals, Elements(goals) + Lost(goals, builtIns), x, y);
    }
  }

  lemma CutOffHasFourBefore(slug: string -> string, current: seq<Goal>, builtIns: seq<Goal>, h: Goal)
    requires ProperBuiltIns(builtIns) && RunsAgainAlike(slug, MergedMap(slug, current, builtIns), builtIns)
    requires h in builtIns && h.id in MergedMap(slug, current, builtIns)
    requires |UpTo(GoalsOf(MergedMap(slug, current, builtIns)), MergedMap(slug, current, builtIns)[h.id],
                   FIRST)| > MAX_GOALS
    ensures |Before(GoalsOf(MergedMap(slug, current, builtIns)), h, FIRST)| >= MAX_GOALS
  {
    FirstOrder();
    var m := MergedMap(slug, current, builtIns);
    var all := GoalsOf(m);
    MergedReady(slug, current, builtIns);
    var goals := TopWithout(all, MAX_GOALS, FIRST, m[h.id]);
    OutcomeFromMap(goals, m);
    assert h in Lost(goals, builtIns);
    OutcomeSettled(slug, current, builtIns, goals);
    OnlyAgain(slug, builtIns, m, goals);
    forall y | y in goals ensures FIRST(y, h) {
      assert h !in goals;
      LeftOut(goals, Elements(goals) + Lost(goals, builtIns), MAX_GOALS, FIRST, h, y);
      KeptTiesNothing(goals, Elements(goals) + Lost(goals, builtIns), y, h);
    }
    FullTop(goals, all, m[h.id]);
    TopDistinct(goals, all, MAX_GOALS, FIRST);
    DistinctSize(goals);
    SubsetSize(Elements(goals), Before(all, h, FIRST));
  }

  lemma FullTop(goals: seq<Goal>, all: set<Goal>, x: Goal)
    requires IsTopOf(goals, all, MAX_GOALS, FIRST) && x in all && x !in goals
    ensures |goals| == MAX_GOALS
  {
    if goals == [] {
      EmptyTop(goals, all, MAX_GOALS, FIRST, x);
    } else {
      LeftOut(goals, all, MAX_GOALS, FIRST, x, goals[0]);
    }
  }

  lemma OutcomeNotEmpty(goals: seq<Goal>, m: GoalMap, builtIns: seq<Goal>)
    requires Ready(m, builtIns) && builtIns != [] && IsOutcome(goals, m)
    ensures goals != []
  {
    var g := m[builtIns[0].id];
    assert builtIns[0] in builtIns && g in GoalsOf(m);
    if goals == [] {
      EmptyTop(goals, GoalsOf(m), MAX_GOALS, FIRST, g);
    }
  }

  /** Running again with the same phase and beliefs gives the same goals, whatever the order of the maps in
      either run, exactly if the merged map is steady. */
  lemma IdempotentExactly(slug: string -> string, current: seq<Goal>, builtIns: seq<Goal>)
    requires ProperBuiltIns(builtIns) && builtIns != []
    ensures RunsAgainAlike(slug, MergedMap(slug, current, builtIns), builtIns) <==>
              Steady(MergedMap(slug, current, builtIns), builtIns)
  {
    var m := MergedMap(slug, current, builtIns);
    MergedReady(slug, current, builtIns);
    if Steady(m, builtIns) {
      forall goals, again | IsOutcome(goals, m) && IsOutcome(again, MergedMap(slug, goals, builtIns))
        ensures again == goals {
        OutcomeSettled(slug, current, builtIns, goals);
        OutcomeNotEmpty(goals, m, builtIns);
        SteadyRunsAlike(slug, builtIns, m, goals, again);
      }
    }
    if RunsAgainAlike(slug, m, builtIns) {
      forall x, y | x in GoalsOf(m) && y in GoalsOf(m) && x != y && Tie(x, y, FIRST)
        ensures |Before(GoalsOf(m), x, FIRST)| >= MAX_GOALS - 1
      {
        PairDoesNotFit(slug, current, builtIns, x, y);
      }
      forall h | h in builtIns && h.id in m && |UpTo(GoalsOf(m), m[h.id], FIRST)| > MAX_GOALS
        ensures |Before(GoalsOf(m), h, FIRST)| >= MAX_GOALS
      {
        CutOffHasFourBefore(slug, current, builtIns, h);
      }
    }
  }

  /** The same for the built-in goals of a phase and beliefs, and any current goals. */
  lemma PhaseIdempotentExactly(slug: string -> string, current: seq<Goal>, phase: string, b: Beliefs)
    ensures RunsAgainAlike(slug, GoalMapOf(slug, current, phase, b), BuiltIns(phase, b))
            <==> Steady(GoalMapOf(slug, current, phase, b), BuiltIns(phase, b))
  {
    BuiltInsProper(phase, b);
    IdempotentExactly(slug, current, BuiltIns(phase, b));
  }

  // ---------------------------------------------------------------- Goals that are well kept

  lemma BuiltInPresent(slug: string -> string, current: seq<Goal>, builtIns: seq<Goal>, h: Goal)
    requires WellKept(slug, current, builtIns) && ProperBuiltIns(builtIns) && h in builtIns
    ensures var m := MergedMap(slug, current, builtIns);
            h.id in m && m[h.id].description == h.description && m[h.id].priority >= h.priority
  {
    var i :| 0 <= i < |builtIns| && builtIns[i] == h;
    UpsertHit(MapOf(slug, current), builtIns, i);
    if h.id in MapOf(slug, current) {
      MapOfFrom(slug, current, h.id);
      MapOfKeyed(slug, current);
    }
  }

  /** A goal of the merged map has its description from a built-in goal or from a current one. */
  lemma DescriptionFrom(slug: string -> string, current: seq<Goal>, builtIns: seq<Goal>, k: string) returns (g: Goal)
    requires WellKept(slug, current, builtIns) && ProperBuiltIns(builtIns) && k in MergedMap(slug, current, builtIns)
    ensures g.id == k && g.description == MergedMap(slug, current, builtIns)[k].description
    ensures g in builtIns || g in KeyedAll(slug, current)
  {
    if i :| 0 <= i < |builtIns| && builtIns[i].id == k {
      BuiltInPresent(slug, current, builtIns, builtIns[i]);
      g := builtIns[i];
    } else {
      UpsertOther(MapOf(slug, current), builtIns, k);
      MapOfFrom(slug, current, k);
      MapOfKeyed(slug, current);
      g := MapOf(slug, current)[k];
    }
  }

  lemma SameDescriptionSameId(gs: seq<Goal>, g: Goal, h: Goal)
    requires Apart(gs) && g in gs && h in gs && g.description == h.description
    ensures g.id == h.id
  {
    var i :| 0 <= i < |gs| && gs[i] == g;
    var j :| 0 <= j < |gs| && gs[j] == h;
    assert !(i < j) && !(j < i);
  }

  lemma OneDescriptionEach(slug: string -> string, current: seq<Goal>, builtIns: seq<Goal>, k: string, l: string)
    requires WellKept(slug, current, builtIns) && ProperBuiltIns(builtIns)
    requires k in MergedMap(slug, current, builtIns) && l in MergedMap(slug, current, builtIns)
    requires MergedMap(slug, current, builtIns)[k].description == MergedMap(slug, current, builtIns)[l].description
    ensures k == l
  {
    var g := DescriptionFrom(slug, current, builtIns, k);
    var h := DescriptionFrom(slug, current, builtIns, l);
    if g in builtIns && h in builtIns {
      SameDescriptionSameId(builtIns, g, h);
    } else if g in KeyedAll(slug, current) && h in KeyedAll(slug, current) {
      SameDescriptionSameId(KeyedAll(slug, current), g, h);
    }
  }

  lemma NoTies(slug: string -> string, current: seq<Goal>, builtIns: seq<Goal>, x: Goal, y: Goal)
    requires WellKept(slug, current, builtIns) && ProperBuiltIns(builtIns)
    requires x in GoalsOf(MergedMap(slug, current, builtIns)) && y in GoalsOf(MergedMap(slug, current, builtIns))
             && x != y
    ensures !Tie(x, y, FIRST)
  {
    var m := MergedMap(slug, current, builtIns);
    var k :| k in m && m[k] == x;
    var l :| l in m && m[l] == y;
    if x.description == y.description {
      OneDescriptionEach(slug, current, builtIns, k, l);
    }
    LexTotal(x.description, y.description);
  }

  /** What does not come after a goal, other than itself, comes before its built-in form. */
  lemma BuiltInFormLater(all: set<Goal>, g: Goal, h: Goal)
    requires g in all && g.priority >= h.priority && g.description == h.description
    requires forall x, y :: x in all && y in all && x != y ==> !Tie(x, y, FIRST)
    ensures |Before(all, h, FIRST)| >= |UpTo(all, g, FIRST)| - 1
  {
    FirstOrder();
    LexAsymmetric(g.description, g.description);
    assert !FIRST(h, g);
    forall z | z in UpTo(all, g, FIRST) - {g} ensures z in Before(all, h, FIRST) {
      assert !Tie(z, g, FIRST);
    }
    SubsetSize(UpTo(all, g, FIRST) - {g}, Before(all, h, FIRST));
    assert g in UpTo(all, g, FIRST);
  }

  /** Current goals with distinct identifiers and descriptions, in which built-in identifiers and built-in
      descriptions go together, meet both conditions. */
  lemma WellKeptIsSteady(slug: string -> string, current: seq<Goal>, builtIns: seq<Goal>)
    requires WellKept(slug, current, builtIns) && ProperBuiltIns(builtIns)
    ensures NoTieAtTop(GoalsOf(MergedMap(slug, current, builtIns)), MAX_GOALS, FIRST)
    ensures Steady(MergedMap(slug, current, builtIns), builtIns)
  {
    var m := MergedMap(slug, current, builtIns);
    forall x, y | x in GoalsOf(m) && y in GoalsOf(m) && x != y ensures !Tie(x, y, FIRST) {
      NoTies(slug, current, builtIns, x, y);
    }
    forall h | h in builtIns && h.id in m && |UpTo(GoalsOf(m), m[h.id], FIRST)| > MAX_GOALS
      ensures |Before(GoalsOf(m), h, FIRST)| >= MAX_GOALS
    {
      BuiltInPresent(slug, current, builtIns, h);
      BuiltInFormLater(GoalsOf(m), m[h.id], h);
    }
  }

  // ---------------------------------------------------------------- A repeated description

  const REPEATED := Goal("x", "Resolve the user's request", 0.9)

  const QUIET := Beliefs(false, "")

  lemma RepeatedMap(slug: string -> string) returns (m: GoalMap)
    ensures m == GoalMapOf(slug, [REPEATED], "", QUIET)
    ensures m == map["x" := REPEATED, RESOLVE.id := RESOLVE, CONTINUITY.id := CONTINUITY]
  {
    var current := [REPEATED];
    var builtIns := BuiltIns("", QUIET);
    m := GoalMapOf(slug, current, "", QUIET);
    assert builtIns == [RESOLVE, CONTINUITY];
    BuiltInsProper("", QUIET);
    assert current[..0] == [] && MapOf(slug, current) == map["x" := REPEATED];
    assert |RESOLVE.id| == 15 && |CONTINUITY.id| == 20 && |"x"| == 1;
    UpsertHit(MapOf(slug, current), builtIns, 0);
    UpsertHit(MapOf(slug, current), builtIns, 1);
    UpsertOther(MapOf(slug, current), builtIns, "x");
    forall k ensures k in m <==> k in {"x", RESOLVE.id, CONTINUITY.id} {
      if k != RESOLVE.id && k != CONTINUITY.id {
        UpsertOther(MapOf(slug, current), builtIns, k);
      }
    }
  }

  lemma RepeatedFirst(m: GoalMap)
    requires m == map["x" := REPEATED, RESOLVE.id := RESOLVE, CONTINUITY.id := CONTINUITY]
    ensures REPEATED in GoalsOf(m) && RESOLVE in GoalsOf(m) && |Before(GoalsOf(m), REPEATED, FIRST)| == 0
  {
    assert |RESOLVE.id| == 15 && |CONTINUITY.id| == 20 && |"x"| == 1;
    assert m["x"] == REPEATED && m[RESOLVE.id] == RESOLVE;
    LexAsymmetric(REPEATED.description, REPEATED.description);
    assert Before(GoalsOf(m), REPEATED, FIRST) == {};
  }

  /** An input at which both fail: a goal of its own name with a built-in description and priority. The order
      of the map shows in the result, and running again can change it. */
  lemma RepeatedDescription(slug: string -> string)
    ensures !OneOutcome(GoalMapOf(slug, [REPEATED], "", QUIET))
    ensures !RunsAgainAlike(slug, GoalMapOf(slug, [REPEATED], "", QUIET), BuiltIns("", QUIET))
  {
    var m := RepeatedMap(slug);
    RepeatedFirst(m);
    LexAsymmetric(REPEATED.description, REPEATED.description);
    assert Tie(REPEATED, RESOLVE, FIRST) && REPEATED != RESOLVE;
    OrderIndependentExactly(m);
    PhaseIdempotentExactly(slug, [REPEATED], "", QUIET);
  }
}
