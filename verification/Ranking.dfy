/**
  Score fusion: weighted semantic, emotional and cognitive scores, boosted for pseudopermanent
  memories, and ranked from the highest down. Scores are exact reals.
*/
module Ranking {
  import opened Wrappers
  import opened StableSorting
  import opened Places
  import Vectors

  datatype Candidate = Candidate(memoryId: string, semantic: real, emotional: real, cognitive: real,
                                 isPseudopermanent: bool)

  datatype Ranked = Ranked(memoryId: string, finalScore: real, semantic: real, emotional: real, cognitive: real)

  datatype Weights = Weights(alpha: real, beta: real, gamma: real, boost: real)

  datatype WeightError = Negative | WrongSum(sum: real)

  function Validate(w: Weights): Result<(), WeightError> {
    var sum := w.alpha + w.beta + w.gamma;
    if w.alpha < 0.0 || w.beta < 0.0 || w.gamma < 0.0 then Failure(Negative)
    else if Vectors.Abs(sum - 1.0) > 0.01 then Failure(WrongSum(sum))
    else Success(())
  }

  function Factor(c: Candidate, w: Weights): real {
    if c.isPseudopermanent then 1.0 + (if w.boost > 0.0 then w.boost else 0.0) else 1.0
  }

  function BaseScore(c: Candidate, w: Weights): real {
    w.alpha * c.semantic + w.beta * c.emotional + w.gamma * c.cognitive
  }

  function Score(c: Candidate, w: Weights): Ranked {
    Ranked(c.memoryId, BaseScore(c, w) * Factor(c, w),
           w.alpha * c.semantic, w.beta * c.emotional, w.gamma * c.cognitive)
  }

  function ScoreAll(cs: seq<Candidate>, w: Weights): seq<Ranked> {
    seq(|cs|, i requires 0 <= i < |cs| => Score(cs[i], w))
  }

  const HIGHER: (Ranked, Ranked) -> bool := (x: Ranked, y: Ranked) => x.finalScore > y.finalScore

  lemma HigherOrder()
    ensures StrictWeakOrder(HIGHER)
  {
  }

  /** The ranking lists the scored candidates from the highest score down: candidate i stands behind those
      that score higher and those before it in the input that score the same. */
  ghost predicate IsRanking(scored: seq<Ranked>, r: seq<Ranked>) {
    && Ordered(r, HIGHER) && multiset(r) == multiset(scored) && |r| == |scored|
    && forall i :: 0 <= i < |scored| ==> StandsAt(scored, r, i, Place(scored, i, HIGHER))
  }

  ghost predicate StandsAt(scored: seq<Ranked>, r: seq<Ranked>, i: nat, p: nat) {
    i < |scored| && p < |r| && r[p] == scored[i]
  }

  lemma SortIsRanking(scored: seq<Ranked>)
    ensures IsRanking(scored, Sort(scored, HIGHER))
  {
    HigherOrder();
    SortOrdered(scored, HIGHER);
    SortPermutes(scored, HIGHER);
    forall i | 0 <= i < |scored| ensures StandsAt(scored, Sort(scored, HIGHER), i, Place(scored, i, HIGHER)) {
      SortPlaces(scored, i, HIGHER);
    }
  }

  /** What is listed for a candidate: its weighted parts, and their sum, raised by a positive boost if it is
      pseudopermanent. */
  predicate Shows(x: Ranked, c: Candidate, w: Weights) {
    && x.memoryId == c.memoryId
    && x.semantic == w.alpha * c.semantic && x.emotional == w.beta * c.emotional && x.cognitive == w.gamma * c.cognitive
    && x.finalScore == (x.semantic + x.emotional + x.cognitive)
                       * (if c.isPseudopermanent && w.boost > 0.0 then 1.0 + w.boost else 1.0)
  }

  lemma ScoreShows(c: Candidate, w: Weights)
    ensures Shows(Score(c, w), c, w)
  {
    var boost := if c.isPseudopermanent && w.boost > 0.0 then 1.0 + w.boost else 1.0;
    assert Factor(c, w) == boost;
  }

  ghost predicate Listed(r: seq<Ranked>, c: Candidate, w: Weights) {
    exists p :: 0 <= p < |r| && Shows(r[p], c, w)
  }

  /** Every candidate is listed, from the highest score down. */
  lemma RankingShows(cs: seq<Candidate>, w: Weights, r: seq<Ranked>)
    requires IsRanking(ScoreAll(cs, w), r)
    ensures |r| == |cs| && forall i :: 0 <= i < |cs| ==> Listed(r, cs[i], w)
    ensures forall p, q :: 0 <= p < q < |r| ==> r[p].finalScore >= r[q].finalScore
  {
    forall i | 0 <= i < |cs| ensures Listed(r, cs[i], w) {
      ScoreShows(cs[i], w);
      assert StandsAt(ScoreAll(cs, w), r, i, Place(ScoreAll(cs, w), i, HIGHER));
      assert Shows(r[Place(ScoreAll(cs, w), i, HIGHER)], cs[i], w);
    }
    forall p, q | 0 <= p < q < |r| ensures r[p].finalScore >= r[q].finalScore {
      assert !HIGHER(r[q], r[p]);
    }
  }

  method FuseAndRank(cs: seq<Candidate>, w: Weights) returns (r: Result<seq<Ranked>, WeightError>)
    ensures r.Failure? <==> Validate(w).Failure?
    ensures r.Failure? ==> r.error == Validate(w).error
    ensures r.Success? ==> IsRanking(ScoreAll(cs, w), r.value)
    ensures var sum := w.alpha + w.beta + w.gamma;
      && (r.Success? <==> w.alpha >= 0.0 && w.beta >= 0.0 && w.gamma >= 0.0 && 0.99 <= sum <= 1.01)
      && (r.Failure? ==>
            r.error == if w.alpha < 0.0 || w.beta < 0.0 || w.gamma < 0.0 then Negative else WrongSum(sum))
    ensures r.Success? ==>
              && |r.value| == |cs| && (forall i :: 0 <= i < |cs| ==> Listed(r.value, cs[i], w))
              && forall p, q :: 0 <= p < q < |r.value| ==> r.value[p].finalScore >= r.value[q].finalScore
  {
    var v := Validate(w);
    if v.Failure? {
      return Failure(v.error);
    }
    var ranked := [];
    for i := 0 to |cs|
      invariant ranked == ScoreAll(cs, w)[..i]
    {
      ranked := ranked + [Score(cs[i], w)];
    }
    assert ranked == ScoreAll(cs, w);
    SortIsRanking(ranked);
    RankingShows(cs, w, Sort(ranked, HIGHER));
    return Success(Sort(ranked, HIGHER));
  }

  /** The ranking is stable: candidates of one score keep their input order, and no other ordered list
      of the scored candidates does that. */
  lemma RankingIsStable(scored: seq<Ranked>, x: Ranked, r: seq<Ranked>)
    ensures Ties(Sort(scored, HIGHER), x, HIGHER) == Ties(scored, x, HIGHER)
    ensures Ordered(r, HIGHER) && (forall y :: Ties(r, y, HIGHER) == Ties(scored, y, HIGHER)) ==>
              r == Sort(scored, HIGHER)
  {
    HigherOrder();
    SortStable(scored, x, HIGHER);
    if Ordered(r, HIGHER) && (forall y :: Ties(r, y, HIGHER) == Ties(scored, y, HIGHER)) {
      SortUnique(scored, r, HIGHER);
    }
  }

  // ---------------------------------------------------------------- Bounds

  predicate Unit(x: real) { 0.0 <= x <= 1.0 }

  lemma Share(a: real, x: real)
    requires a >= 0.0 && Unit(x)
    ensures 0.0 <= a * x <= a
  {
    Vectors.NonNegativeProduct(a, x);
    Vectors.NonNegativeProduct(a, 1.0 - x);
    assert a * (1.0 - x) == a - a * x;
  }

  lemma OneMoreShare(t: real, m: real, a: real, x: real, s: real)
    requires 0.0 <= t <= m && a >= 0.0 && Unit(x) && s == t + a * x
    ensures 0.0 <= s <= m + a
  {
    Share(a, x);
  }

  lemma WeightedBounded(a: real, x: real, b: real, y: real, g: real, z: real)
    requires a >= 0.0 && b >= 0.0 && g >= 0.0 && a + b + g <= 1.01 && Unit(x) && Unit(y) && Unit(z)
    ensures 0.0 <= a * x + b * y + g * z <= 1.01
  {
    OneMoreShare(0.0, 0.0, a, x, a * x);
    OneMoreShare(a * x, a, b, y, a * x + b * y);
    OneMoreShare(a * x + b * y, a + b, g, z, a * x + b * y + g * z);
  }

  lemma BaseBounded(c: Candidate, w: Weights)
    requires Validate(w).Success? && Unit(c.semantic) && Unit(c.emotional) && Unit(c.cognitive)
    ensures 0.0 <= BaseScore(c, w) <= 1.01
  {
    WeightedBounded(w.alpha, c.semantic, w.beta, c.emotional, w.gamma, c.cognitive);
  }

  function MaxFactor(w: Weights): real {
    1.0 + if w.boost > 0.0 then w.boost else 0.0
  }

  /** Accepted weights and scores in [0, 1] give a final score in [0, 1.01 (1 + max(0, boost))]. */
  lemma ScoreBounded(c: Candidate, w: Weights)
    requires Validate(w).Success? && Unit(c.semantic) && Unit(c.emotional) && Unit(c.cognitive)
    ensures 0.0 <= Score(c, w).finalScore <= 1.01 * MaxFactor(w)
  {
    BaseBounded(c, w);
    ProductBounded(BaseScore(c, w), 1.01, Factor(c, w), MaxFactor(w));
  }

  lemma ProductBounded(x: real, a: real, y: real, b: real)
    requires 0.0 <= x <= a && 0.0 <= y <= b
    ensures 0.0 <= x * y <= a * b
  {
    Vectors.NonNegativeProduct(x, y);
    Vectors.NonNegativeProduct(a - x, y);
    Vectors.NonNegativeProduct(a, b - y);
    assert (a - x) * y == a * y - x * y;
    assert a * (b - y) == a * b - a * y;
  }

  // ---------------------------------------------------------------- Monotonicity

  /** d is c with some component scores raised. */
  predicate Raised(c: Candidate, d: Candidate) {
    && d.memoryId == c.memoryId && d.isPseudopermanent == c.isPseudopermanent
    && c.semantic <= d.semantic && c.emotional <= d.emotional && c.cognitive <= d.cognitive
  }

  lemma ScaledUp(a: real, x: real, y: real)
    requires a >= 0.0 && x <= y
    ensures a * x <= a * y
  {
    Vectors.NonNegativeProduct(a, y - x);
    assert a * (y - x) == a * y - a * x;
  }

  lemma OneMoreUp(t: real, t': real, a: real, x: real, y: real, s: real, s': real)
    requires t <= t' && a >= 0.0 && x <= y && s == t + a * x && s' == t' + a * y
    ensures s <= s'
  {
    ScaledUp(a, x, y);
  }

  lemma WeightedUp(a: real, x: real, x': real, b: real, y: real, y': real, g: real, z: real, z': real)
    requires a >= 0.0 && b >= 0.0 && g >= 0.0 && x <= x' && y <= y' && z <= z'
    ensures a * x + b * y + g * z <= a * x' + b * y' + g * z'
  {
    OneMoreUp(0.0, 0.0, a, x, x', a * x, a * x');
    OneMoreUp(a * x, a * x', b, y, y', a * x + b * y, a * x' + b * y');
    OneMoreUp(a * x + b * y, a * x' + b * y', g, z, z', a * x + b * y + g * z, a * x' + b * y' + g * z');
  }

  lemma BaseUp(c: Candidate, d: Candidate, w: Weights)
    requires Validate(w).Success? && Raised(c, d)
    ensures BaseScore(c, w) <= BaseScore(d, w)
  {
    WeightedUp(w.alpha, c.semantic, d.semantic, w.beta, c.emotional, d.emotional, w.gamma, c.cognitive, d.cognitive);
  }

  lemma ProductUp(s: real, s': real, f: real, r: real, r': real)
    requires s <= s' && f >= 0.0 && r == s * f && r' == s' * f
    ensures r <= r'
  {
    Vectors.ScaleMonotone(s, s', f);
  }

  lemma RaisedScoresHigher(c: Candidate, d: Candidate, w: Weights)
    requires Validate(w).Success? && Raised(c, d)
    ensures Score(c, w).finalScore <= Score(d, w).finalScore
  {
    BaseUp(c, d, w);
    ProductUp(BaseScore(c, w), BaseScore(d, w), Factor(c, w), Score(c, w).finalScore, Score(d, w).finalScore);
  }

  /** A pseudopermanent memory of non-negative score never scores less than the same memory without the
      mark, whatever the boost. */
  lemma BoostNeverHurts(c: Candidate, w: Weights)
    requires BaseScore(c, w) >= 0.0
    ensures Score(c.(isPseudopermanent := false), w).finalScore <= Score(c.(isPseudopermanent := true), w).finalScore
  {
    var f := Factor(c.(isPseudopermanent := true), w);
    Vectors.NonNegativeProduct(BaseScore(c, w), f - 1.0);
    Vectors.DistributeLeft(BaseScore(c, w), f - 1.0, 1.0);
  }

  /** Raising component scores of one candidate never moves it to a later place. */
  lemma RaisingNeverHurts(cs: seq<Candidate>, i: nat, d: Candidate, w: Weights)
    requires Validate(w).Success? && i < |cs| && Raised(cs[i], d)
    ensures Place(ScoreAll(cs[i := d], w), i, HIGHER) <= Place(ScoreAll(cs, w), i, HIGHER)
  {
    RaisedScoresHigher(cs[i], d, w);
    AheadMonotone(ScoreAll(cs, w), ScoreAll(cs[i := d], w), i, |cs|, HIGHER);
  }
}
