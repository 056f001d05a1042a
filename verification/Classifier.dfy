/**
  Emotion classification of text: the combination of weighted labels into one vector, and the batch
  that hands texts to a pool of workers and collects their answers as they finish.

  The model behind a text is the parameter `ollama`, deterministic per text and possibly failing.
*/
module Classifier {
  import opened Wrappers
  import opened Text
  import Vectors

  const NEUTRAL_VECTOR: seq<real> := [0.0, 0.0, 0.0, 0.5, 0.0, 0.0]

  const DIMENSION := 6

  datatype Classification = Classification(vector: seq<real>, name: string, confidence: real)

  function Neutral(confidence: real): Classification {
    Classification(NEUTRAL_VECTOR, "neutral", confidence)
  }

  // ---------------------------------------------------------------- Labels

  /** Six components in [-1, 1]. */
  predicate Bounded(v: seq<real>) {
    |v| == DIMENSION && forall k :: 0 <= k < DIMENSION ==> -1.0 <= v[k] <= 1.0
  }

  function LabelsAToE(name: string): (v: Option<seq<real>>)
    ensures v.Some? ==> Bounded(v.value)
  {
    if name == "admiration" then Some([0.6, 0.4, 0.3, 0.5, 0.7, 0.3])
    else if name == "amusement" then Some([0.8, 0.6, 0.5, 0.6, 0.5, 0.5])
    else if name == "anger" then Some([-0.7, 0.8, 0.4, 0.5, -0.5, -0.2])
    else if name == "annoyance" then Some([-0.5, 0.5, 0.3, 0.4, -0.3, -0.3])
    else if name == "approval" then Some([0.5, 0.2, 0.4, 0.7, 0.6, 0.0])
    else if name == "caring" then Some([0.5, 0.3, 0.2, 0.4, 0.9, 0.1])
    else if name == "confusion" then Some([-0.2, 0.4, -0.3, -0.8, 0.1, 0.6])
    else if name == "curiosity" then Some([0.3, 0.6, 0.2, -0.2, 0.3, 0.9])
    else if name == "desire" then Some([0.4, 0.6, 0.3, 0.3, 0.4, 0.4])
    else if name == "disappointment" then Some([-0.6, 0.3, -0.3, 0.4, 0.0, -0.3])
    else if name == "disapproval" then Some([-0.5, 0.4, 0.3, 0.5, -0.4, -0.2])
    else if name == "disgust" then Some([-0.7, 0.5, 0.3, 0.6, -0.6, -0.3])
    else if name == "embarrassment" then Some([-0.5, 0.5, -0.5, 0.3, 0.2, 0.3])
    else if name == "excitement" then Some([0.7, 0.9, 0.4, 0.3, 0.4, 0.7])
    else None
  }

  function LabelsFToS(name: string): (v: Option<seq<real>>)
    ensures v.Some? ==> Bounded(v.value)
  {
    if name == "fear" then Some([-0.7, 0.8, -0.6, -0.5, 0.1, 0.5])
    else if name == "gratitude" then Some([0.7, 0.4, 0.2, 0.6, 0.8, 0.1])
    else if name == "grief" then Some([-0.8, 0.3, -0.5, 0.4, 0.2, -0.4])
    else if name == "joy" then Some([0.9, 0.7, 0.6, 0.7, 0.5, 0.3])
    else if name == "love" then Some([0.8, 0.5, 0.3, 0.5, 0.9, 0.2])
    else if name == "nervousness" then Some([-0.4, 0.7, -0.5, -0.6, 0.1, 0.4])
    else if name == "optimism" then Some([0.6, 0.5, 0.4, 0.5, 0.4, 0.4])
    else if name == "pride" then Some([0.6, 0.5, 0.7, 0.6, 0.3, 0.2])
    else if name == "realization" then Some([0.2, 0.4, 0.3, 0.7, 0.1, 0.8])
    else if name == "relief" then Some([0.5, -0.3, 0.4, 0.6, 0.2, 0.0])
    else if name == "remorse" then Some([-0.6, 0.3, -0.3, 0.5, 0.4, -0.2])
    else if name == "sadness" then Some([-0.7, -0.3, -0.5, 0.4, 0.2, -0.4])
    else if name == "surprise" then Some([0.1, 0.8, -0.1, -0.6, 0.2, 0.9])
    else None
  }

  /** The vector of a label; unknown labels, like "neutral", have the neutral vector. */
  function LabelVector(name: string): (v: seq<real>)
    ensures Bounded(v)
  {
    LabelsAToE(name).GetOr(LabelsFToS(name).GetOr(NEUTRAL_VECTOR))
  }

  type Table = string -> seq<real>

  /** Vectors of the right dimension with components in [-1, 1], as those of the labels are. */
  ghost predicate Proper(table: Table) {
    forall name :: Bounded(table(name))
  }

  lemma LabelsProper()
    ensures Proper(LabelVector)
  {
  }

  datatype Weighted = Weighted(name: string, score: real)

  function Total(ws: seq<Weighted>): real {
    if ws == [] then 0.0 else Total(ws[..|ws| - 1]) + ws[|ws| - 1].score
  }

  /** Component k of the weighted sum of label vectors. */
  ghost function Sum(table: Table, ws: seq<Weighted>, k: nat): real
    requires Proper(table) && k < DIMENSION
  {
    if ws == [] then 0.0 else Sum(table, ws[..|ws| - 1], k) + table(ws[|ws| - 1].name)[k] * ws[|ws| - 1].score
  }

  /** i is the first index of a greatest score. */
  ghost predicate FirstMax(ws: seq<Weighted>, i: nat) {
    && i < |ws|
    && (forall j :: 0 <= j < |ws| ==> ws[j].score <= ws[i].score)
    && (forall j :: 0 <= j < i ==> ws[j].score < ws[i].score)
  }

  function Share(x: real, total: real): real
    requires total > 0.0
  {
    x / total
  }

  /** The classification of weighted labels whose first greatest score is at i. */
  ghost predicate IsCombination(table: Table, ws: seq<Weighted>, i: nat, c: Classification)
    requires Proper(table)
  {
    && FirstMax(ws, i) && c.name == ws[i].name && |c.vector| == DIMENSION
    && if Total(ws) > 0.0 then
         && c.confidence == (if Share(ws[i].score, Total(ws)) < 1.0 then Share(ws[i].score, Total(ws)) else 1.0)
         && forall k :: 0 <= k < DIMENSION ==> c.vector[k] == Vectors.Clamp1(Share(Sum(table, ws, k), Total(ws)))
       else
         && c.confidence == 0.0
         && forall k :: 0 <= k < DIMENSION ==> c.vector[k] == Sum(table, ws, k)
  }

  method TotalWeight(ws: seq<Weighted>) returns (total: real)
    ensures total == Total(ws)
  {
    total := 0.0;
    for i := 0 to |ws|
      invariant total == Total(ws[..i])
    {
      assert ws[..i + 1][..i] == ws[..i];
      total := total + ws[i].score;
    }
    assert ws[..|ws|] == ws;
  }

  method TopLabel(ws: seq<Weighted>) returns (i: nat)
    requires ws != []
    ensures FirstMax(ws, i)
  {
    i := 0;
    for j := 1 to |ws|
      invariant i < j && FirstMax(ws[..j], i)
    {
      if ws[j].score > ws[i].score {
        i := j;
      }
    }
    assert ws[..|ws|] == ws;
  }

  /** One label added to the accumulated vector, component by component. */
  method AddLabel(v0: seq<real>, lv: seq<real>, score: real) returns (v: seq<real>)
    requires |v0| == |lv| == DIMENSION
    ensures |v| == DIMENSION && forall k :: 0 <= k < DIMENSION ==> v[k] == v0[k] + lv[k] * score
  {
    v := v0;
    for k := 0 to DIMENSION
      invariant |v| == DIMENSION
      invariant forall j :: 0 <= j < k ==> v[j] == v0[j] + lv[j] * score
      invariant forall j :: k <= j < DIMENSION ==> v[j] == v0[j]
    {
      v := v[k := v[k] + lv[k] * score];
    }
  }

  /** The accumulation of the weighted label vectors. */
  method Accumulate(table: Table, ws: seq<Weighted>) returns (v: seq<real>)
    requires Proper(table)
    ensures |v| == DIMENSION && forall k :: 0 <= k < DIMENSION ==> v[k] == Sum(table, ws, k)
  {
    v := [0.0, 0.0, 0.0, 0.0, 0.0, 0.0];
    for i := 0 to |ws|
      invariant |v| == DIMENSION && forall k :: 0 <= k < DIMENSION ==> v[k] == Sum(table, ws[..i], k)
    {
      assert ws[..i + 1][..i] == ws[..i];
      v := AddLabel(v, table(ws[i].name), ws[i].score);
    }
    assert ws[..|ws|] == ws;
  }

  /** No labels at all is an error, as it is for the maximum of an empty list. */
  method CombineWeightedLabels(table: Table, ws: seq<Weighted>)
    returns (r: Result<Classification, string>, ghost top: nat)
    requires Proper(table)
    ensures r.Failure? <==> ws == []
    ensures r.Success? ==> IsCombination(table, ws, top, r.value)
  {
    top := 0;
    if ws == [] {
      r := Failure("max() arg is an empty sequence");
      return;
    }
    var total := TotalWeight(ws);
    var i := TopLabel(ws);
    top := i;
    var vector := Accumulate(table, ws);
    var confidence := 0.0;
    if total > 0.0 {
      vector := seq(DIMENSION, k requires 0 <= k < DIMENSION => Vectors.Clamp1(Share(vector[k], total)));
      confidence := if Share(ws[i].score, total) < 1.0 then Share(ws[i].score, total) else 1.0;
    }
    r := Success(Classification(vector, ws[i].name, confidence));
  }

  // ---------------------------------------------------------------- Positive weights

  ghost predicate Positive(ws: seq<Weighted>) {
    forall i :: 0 <= i < |ws| ==> ws[i].score > 0.0
  }

  lemma {:induction false} TotalPositive(ws: seq<Weighted>)
    requires Positive(ws)
    ensures Total(ws) >= 0.0 && (ws != [] ==> Total(ws) > 0.0)
  {
    if ws != [] {
      TotalPositive(ws[..|ws| - 1]);
    }
  }

  /** One more term of a weighted sum whose terms are at least lo. */
  lemma OneMoreTerm(s: real, t: real, lo: real, x: real, w: real, s2: real, t2: real)
    requires lo * t <= s && lo <= x && w >= 0.0 && s2 == s + x * w && t2 == t + w
    ensures lo * t2 <= s2
  {
    Vectors.ScaleMonotone(lo, x, w);
    Vectors.DistributeLeft(lo, t, w);
  }

  lemma {:induction false} SumAbove(table: Table, ws: seq<Weighted>, k: nat, lo: real)
    requires Proper(table) && Positive(ws) && k < DIMENSION && forall i :: 0 <= i < |ws| ==> lo <= table(ws[i].name)[k]
    ensures lo * Total(ws) <= Sum(table, ws, k)
  {
    if ws != [] {
      var front, last := ws[..|ws| - 1], ws[|ws| - 1];
      SumAbove(table, front, k, lo);
      OneMoreTerm(Sum(table, front, k), Total(front), lo, table(last.name)[k], last.score, Sum(table, ws, k),
                  Total(ws));
    }
  }

  lemma OneMoreTermBelow(s: real, t: real, hi: real, x: real, w: real, s2: real, t2: real)
    requires s <= hi * t && x <= hi && w >= 0.0 && s2 == s + x * w && t2 == t + w
    ensures s2 <= hi * t2
  {
    Vectors.ScaleMonotone(x, hi, w);
    Vectors.DistributeLeft(hi, t, w);
  }

  lemma {:induction false} SumBelow(table: Table, ws: seq<Weighted>, k: nat, hi: real)
    requires Proper(table) && Positive(ws) && k < DIMENSION && forall i :: 0 <= i < |ws| ==> table(ws[i].name)[k] <= hi
    ensures Sum(table, ws, k) <= hi * Total(ws)
  {
    if ws != [] {
      var front, last := ws[..|ws| - 1], ws[|ws| - 1];
      SumBelow(table, front, k, hi);
      OneMoreTermBelow(Sum(table, front, k), Total(front), hi, table(last.name)[k], last.score, Sum(table, ws, k),
                       Total(ws));
    }
  }

  lemma QuotientAbove(q: real, total: real, x: real, lo: real)
    requires total > 0.0 && q * total == x && lo * total <= x
    ensures lo <= q
  {
    assert (lo - q) * total <= 0.0;
    if q < lo { Vectors.PositiveProduct(lo - q, total); }
  }

  lemma QuotientBelow(q: real, total: real, x: real, hi: real)
    requires total > 0.0 && q * total == x && x <= hi * total
    ensures q <= hi
  {
    assert (q - hi) * total <= 0.0;
    if q > hi { Vectors.PositiveProduct(q - hi, total); }
  }

  lemma ShareTimes(x: real, total: real)
    requires total > 0.0
    ensures Share(x, total) * total == x
  {
  }

  /** The quotient of a component lies where the components of its labels lie. */
  lemma ShareBetween(table: Table, ws: seq<Weighted>, k: nat, lo: real, hi: real, q: real)
    requires Proper(table) && Positive(ws) && Total(ws) > 0.0 && k < DIMENSION && Between(table, ws, k, lo, hi)
    requires q == Share(Sum(table, ws, k), Total(ws))
    ensures lo <= q <= hi
  {
    SumAbove(table, ws, k, lo);
    SumBelow(table, ws, k, hi);
    QuotientBetween(Sum(table, ws, k), Total(ws), lo, hi, q);
  }

  lemma QuotientBetween(sum: real, total: real, lo: real, hi: real, q: real)
    requires total > 0.0 && lo * total <= sum <= hi * total && q == Share(sum, total)
    ensures lo <= q <= hi
  {
    ShareTimes(sum, total);
    QuotientAbove(q, total, sum, lo);
    QuotientBelow(q, total, sum, hi);
  }

  /** Bounds of the label vectors in a component. */
  ghost predicate Between(table: Table, ws: seq<Weighted>, k: nat, lo: real, hi: real)
    requires Proper(table) && k < DIMENSION
  {
    forall i :: 0 <= i < |ws| ==> lo <= table(ws[i].name)[k] <= hi
  }

  /** With positive weights every component lies between the smallest and the largest component of the
      labels, as a convex combination must, and so the clamp never acts. */
  lemma ConvexCombination(table: Table, ws: seq<Weighted>, i: nat, c: Classification, k: nat, lo: real, hi: real)
    requires Proper(table) && Positive(ws) && IsCombination(table, ws, i, c) && k < DIMENSION
             && Between(table, ws, k, lo, hi)
    ensures lo <= c.vector[k] <= hi
    ensures Total(ws) > 0.0 && c.vector[k] == Share(Sum(table, ws, k), Total(ws))
  {
    TotalPositive(ws);
    var q := Share(Sum(table, ws, k), Total(ws));
    ShareBetween(table, ws, k, -1.0, 1.0, q);
    ShareBetween(table, ws, k, lo, hi, q);
    assert c.vector[k] == Vectors.Clamp1(q);
  }

  lemma {:induction false} TotalBelow(ws: seq<Weighted>, top: real, n: real)
    requires n == |ws| as real && forall j :: 0 <= j < |ws| ==> ws[j].score <= top
    ensures Total(ws) <= n * top
  {
    if ws != [] {
      TotalBelow(ws[..|ws| - 1], top, n - 1.0);
      Vectors.Distribute(n - 1.0, 1.0, top);
    }
  }

  lemma {:induction false} ScoreBelowTotal(ws: seq<Weighted>, i: nat)
    requires Positive(ws) && i < |ws|
    ensures ws[i].score <= Total(ws)
  {
    var front := ws[..|ws| - 1];
    TotalPositive(front);
    if i < |front| {
      ScoreBelowTotal(front, i);
    }
  }

  /** A share of an n-th at least. */
  lemma NthAtLeast(q: real, total: real, top: real, n: real)
    requires total > 0.0 && q * total == top && total <= n * top
    ensures q * n >= 1.0
  {
    assert n * (q * total) == (q * n) * total;
    QuotientAbove(q * n, total, n * top, 1.0);
  }

  lemma ShareAtMostOne(ws: seq<Weighted>, i: nat, q: real)
    requires Positive(ws) && i < |ws| && Total(ws) > 0.0 && q == Share(ws[i].score, Total(ws))
    ensures q <= 1.0
  {
    ScoreBelowTotal(ws, i);
    ShareBelowOne(ws[i].score, Total(ws), q);
  }

  lemma ShareBelowOne(x: real, total: real, q: real)
    requires x <= total && total > 0.0 && q == Share(x, total)
    ensures q <= 1.0
  {
    ShareTimes(x, total);
    QuotientBelow(q, total, x, 1.0);
  }

  lemma NthOfTotal(ws: seq<Weighted>, top: real, n: real, q: real, total: real)
    requires (forall j :: 0 <= j < |ws| ==> ws[j].score <= top) && total == Total(ws) > 0.0 && n == |ws| as real
             && q * total == top
    ensures q * n >= 1.0
  {
    TotalBelow(ws, top, n);
    NthAtLeast(q, total, top, n);
  }

  lemma TopShare(ws: seq<Weighted>, top: real, n: real, q: real, total: real)
    requires (forall j :: 0 <= j < |ws| ==> ws[j].score <= top) && total == Total(ws) > 0.0 && n == |ws| as real
             && q == Share(top, total)
    ensures q * n >= 1.0
  {
    ShareTimes(top, total);
    NthOfTotal(ws, top, n, q, total);
  }

  lemma ConfidenceIsShare(table: Table, ws: seq<Weighted>, i: nat, c: Classification)
    requires Proper(table) && Positive(ws) && IsCombination(table, ws, i, c)
    ensures Total(ws) > 0.0 && c.confidence == Share(ws[i].score, Total(ws))
  {
    TotalPositive(ws);
    ShareAtMostOne(ws, i, Share(ws[i].score, Total(ws)));
  }

  /** With positive weights the confidence is the top label's share of the weight, at least one in n and
      at most one. */
  lemma ConfidenceBounds(table: Table, ws: seq<Weighted>, i: nat, c: Classification, n: real)
    requires Proper(table) && Positive(ws) && IsCombination(table, ws, i, c) && n == |ws| as real
    ensures Total(ws) > 0.0 && c.confidence == Share(ws[i].score, Total(ws))
    ensures c.confidence * n >= 1.0 && c.confidence <= 1.0
  {
    ConfidenceIsShare(table, ws, i, c);
    ShareAtMostOne(ws, i, c.confidence);
    TopShare(ws, ws[i].score, n, c.confidence, Total(ws));
  }

  // ---------------------------------------------------------------- The labels of the program

  /** Bounds of the vectors of the labels in a component. */
  ghost predicate LabelsBetween(ws: seq<Weighted>, k: nat, lo: real, hi: real)
    requires k < DIMENSION
  {
    forall i :: 0 <= i < |ws| ==> lo <= LabelVector(ws[i].name)[k] <= hi
  }

  /** Every component lies wherever those of the labels lie. */
  ghost predicate Convex(ws: seq<Weighted>, v: seq<real>) {
    && |v| == DIMENSION
    && forall k, lo, hi :: 0 <= k < DIMENSION && LabelsBetween(ws, k, lo, hi) ==> lo <= v[k] <= hi
  }

  lemma LabelsConvex(ws: seq<Weighted>, i: nat, c: Classification)
    requires Positive(ws) && Proper(LabelVector) && IsCombination(LabelVector, ws, i, c)
    ensures Convex(ws, c.vector)
  {
    forall k, lo, hi | 0 <= k < DIMENSION && LabelsBetween(ws, k, lo, hi) ensures lo <= c.vector[k] <= hi {
      ConvexCombination(LabelVector, ws, i, c, k, lo, hi);
    }
  }

  function Scores(ws: seq<Weighted>): seq<real> {
    seq(|ws|, i requires 0 <= i < |ws| => ws[i].score)
  }

  /** What each label adds to component k. */
  function Contributions(table: Table, ws: seq<Weighted>, k: nat): seq<real>
    requires k < DIMENSION && forall name :: |table(name)| == DIMENSION
  {
    Vectors.Products(Components(table, ws, k), Scores(ws))
  }

  function Components(table: Table, ws: seq<Weighted>, k: nat): seq<real>
    requires k < DIMENSION && forall name :: |table(name)| == DIMENSION
  {
    seq(|ws|, i requires 0 <= i < |ws| => table(ws[i].name)[k])
  }

  lemma {:induction false} TotalSums(ws: seq<Weighted>)
    ensures Vectors.SumsTo(Scores(ws), Total(ws))
  {
    if ws == [] {
      Vectors.NoTerms();
      assert Scores(ws) == [];
    } else {
      var front, last := ws[..|ws| - 1], ws[|ws| - 1];
      TotalSums(front);
      Vectors.OneMoreTerm(Scores(front), Total(front), last.score);
      assert Scores(ws) == Scores(front) + [last.score];
    }
  }

  lemma {:induction false} SumSums(table: Table, ws: seq<Weighted>, k: nat)
    requires Proper(table) && k < DIMENSION
    ensures Vectors.SumsTo(Contributions(table, ws, k), Sum(table, ws, k))
  {
    if ws == [] {
      Vectors.NoTerms();
      assert Contributions(table, ws, k) == [];
    } else {
      var front, last := ws[..|ws| - 1], ws[|ws| - 1];
      SumSums(table, front, k);
      var t := table(last.name)[k] * last.score;
      LastContribution(table, ws, k, t);
      Vectors.OneMoreTerm(Contributions(table, front, k), Sum(table, front, k), t);
      SumNext(table, ws, k, t);
    }
  }

  lemma SumNext(table: Table, ws: seq<Weighted>, k: nat, t: real)
    requires Proper(table) && k < DIMENSION && ws != []
    requires t == table(ws[|ws| - 1].name)[k] * ws[|ws| - 1].score
    ensures Sum(table, ws, k) == Sum(table, ws[..|ws| - 1], k) + t
  {
  }

  lemma LastContribution(table: Table, ws: seq<Weighted>, k: nat, t: real)
    requires Proper(table) && k < DIMENSION && ws != []
    requires t == table(ws[|ws| - 1].name)[k] * ws[|ws| - 1].score
    ensures Contributions(table, ws, k) == Contributions(table, ws[..|ws| - 1], k) + [t]
  {
    var front, last := ws[..|ws| - 1], ws[|ws| - 1];
    var x := table(last.name)[k];
    assert Components(table, ws, k) == Components(table, front, k) + [x];
    assert Scores(ws) == Scores(front) + [last.score];
    Vectors.ProductsOfBoth(Components(table, front, k), Scores(front), [x], [last.score]);
    Vectors.OneProduct(x, last.score, t);
  }

  /** The labels' total weight, and the weighted sums of their vectors: with a positive total the vector is the mean,
      cut to [-1, 1], and the confidence the top label's share, one at most; otherwise it is the sums as they are
      and the confidence nothing. */
  ghost predicate IsWeightedMean(table: Table, ws: seq<Weighted>, top: nat, total: real, sums: seq<real>,
                                 c: Classification)
    requires (forall name :: |table(name)| == DIMENSION) && top < |ws|
  {
    && Vectors.SumsTo(Scores(ws), total) && |sums| == |c.vector| == DIMENSION
    && (forall k :: 0 <= k < DIMENSION ==> Vectors.SumsTo(Contributions(table, ws, k), sums[k]))
    && if total > 0.0 then
         && c.confidence == (if ws[top].score < total then ws[top].score / total else 1.0)
         && forall k :: 0 <= k < DIMENSION ==> IsCutQuotient(sums[k], total, c.vector[k])
       else c.confidence == 0.0 && c.vector == sums
  }

  predicate IsCutQuotient(sum: real, total: real, v: real)
    requires total > 0.0
  {
    v == if sum > total then 1.0 else if sum < -total then -1.0 else sum / total
  }

  lemma CutShare(sum: real, total: real)
    requires total > 0.0
    ensures IsCutQuotient(sum, total, Vectors.Clamp1(Share(sum, total)))
    ensures Share(sum, total) < 1.0 <==> sum < total
  {
    ShareTimes(sum, total);
    var q := Share(sum, total);
    assert (q - 1.0) * total == sum - total && (q + 1.0) * total == sum + total;
    if q > 1.0 { Vectors.PositiveProduct(q - 1.0, total); }
    if q < 1.0 { Vectors.PositiveProduct(1.0 - q, total); }
    if q > -1.0 { Vectors.PositiveProduct(q + 1.0, total); }
    if q < -1.0 { Vectors.PositiveProduct(-1.0 - q, total); }
  }

  lemma CombinationIsMean(table: Table, ws: seq<Weighted>, top: nat, c: Classification)
    requires Proper(table) && IsCombination(table, ws, top, c)
    ensures exists total, sums :: IsWeightedMean(table, ws, top, total, sums, c)
  {
    var sums := seq(DIMENSION, k requires 0 <= k < DIMENSION => Sum(table, ws, k));
    TotalSums(ws);
    forall k | 0 <= k < DIMENSION ensures Vectors.SumsTo(Contributions(table, ws, k), sums[k]) {
      SumSums(table, ws, k);
    }
    if Total(ws) > 0.0 {
      CutShare(ws[top].score, Total(ws));
      forall k | 0 <= k < DIMENSION ensures IsCutQuotient(sums[k], Total(ws), c.vector[k]) {
        CutShare(sums[k], Total(ws));
      }
    }
    assert IsWeightedMean(table, ws, top, Total(ws), sums, c);
  }

  /** The combination of the program's own labels: for positive weights a convex combination of their vectors,
      under the first label of greatest weight, with a confidence of one in n up to one. */
  method CombineLabels(ws: seq<Weighted>) returns (r: Result<Classification, string>, ghost top: nat)
    ensures r.Failure? <==> ws == []
    ensures r.Success? ==> FirstMax(ws, top) && r.value.name == ws[top].name
    ensures r.Success? ==> exists total, sums :: IsWeightedMean(LabelVector, ws, top, total, sums, r.value)
    ensures r.Success? && Positive(ws) ==>
              Convex(ws, r.value.vector) && r.value.confidence * |ws| as real >= 1.0 && r.value.confidence <= 1.0
  {
    LabelsProper();
    r, top := CombineWeightedLabels(LabelVector, ws);
    if r.Success? {
      CombinationIsMean(LabelVector, ws, top, r.value);
    }
    if r.Success? && Positive(ws) {
      LabelsConvex(ws, top, r.value);
      ConfidenceBounds(LabelVector, ws, top, r.value, |ws| as real);
    }
  }

  // ---------------------------------------------------------------- Batches

  /** One text alone, in ollama mode: blank text is neutral without asking. */
  function Classify(ollama: string -> Result<Classification, string>, text: string): Result<Classification, string> {
    var normalized := Trim(text, PySpace);
    if normalized == "" then Success(Neutral(0.0)) else ollama(normalized)
  }

  /** The batch succeeds exactly if every text would alone, with the same answers in input order; a
      failed batch reports the failure of one of its texts. */
  ghost predicate IsBatch(ollama: string -> Result<Classification, string>, texts: seq<string>,
                          r: Result<seq<Classification>, string>) {
    && (r.Success? ==> |r.value| == |texts| && forall i :: 0 <= i < |texts| ==>
         Classify(ollama, texts[i]) == Success(r.value[i]))
    && (r.Failure? ==> exists i :: 0 <= i < |texts| && Classify(ollama, texts[i]) == Failure(r.error))
  }

  /** Blank text is neutral, and any other is asked for without the white space around it. */
  lemma BlankIsNeutral(ollama: string -> Result<Classification, string>, text: string)
    ensures Blank(text, PySpace) ==>
              Classify(ollama, text) == Success(Classification([0.0, 0.0, 0.0, 0.5, 0.0, 0.0], "neutral", 0.0))
    ensures !Blank(text, PySpace) ==> Classify(ollama, text) == ollama(Trim(text, PySpace))
  {
    TrimBlank(text, PySpace);
  }

  /** What has been filled in while the answers for `pending` are still out. */
  ghost predicate Filled(ollama: string -> Result<Classification, string>, texts: seq<string>, pending: set<nat>,
                         outputs: seq<Classification>) {
    && |outputs| == |texts|
    && (forall i :: i in pending ==> i < |texts| && Trim(texts[i], PySpace) != "")
    && forall i :: 0 <= i < |texts| && i !in pending ==> Classify(ollama, texts[i]) == Success(outputs[i])
  }

  lemma FailureFails(ollama: string -> Result<Classification, string>, texts: seq<string>, pending: set<nat>,
                     outputs: seq<Classification>, i: nat)
    requires Filled(ollama, texts, pending, outputs) && i in pending && ollama(Trim(texts[i], PySpace)).Failure?
    ensures IsBatch(ollama, texts, Failure(ollama(Trim(texts[i], PySpace)).error))
  {
    assert Classify(ollama, texts[i]) == ollama(Trim(texts[i], PySpace));
  }

  lemma AllFilled(ollama: string -> Result<Classification, string>, texts: seq<string>, outputs: seq<Classification>)
    requires Filled(ollama, texts, {}, outputs)
    ensures IsBatch(ollama, texts, Success(outputs))
  {
  }

  lemma AnswerFills(ollama: string -> Result<Classification, string>, texts: seq<string>, pending: set<nat>,
                    outputs: seq<Classification>, i: nat)
    requires Filled(ollama, texts, pending, outputs) && i in pending && ollama(Trim(texts[i], PySpace)).Success?
    ensures Filled(ollama, texts, pending - {i}, outputs[i := ollama(Trim(texts[i], PySpace)).value])
  {
  }

  /** With one worker the texts are classified in order; with more, answers are stored at the index of
      their text in whatever order they arrive. */
  method FillBatch(ollama: string -> Result<Classification, string>, texts: seq<string>, workers: int)
    returns (r: Result<seq<Classification>, string>)
    ensures IsBatch(ollama, texts, r)
  {
    var outputs := seq(|texts|, i => Neutral(0.0));
    var pending := set i: nat | i < |texts| && Trim(texts[i], PySpace) != "";
    if workers <= 1 {
      for i := 0 to |texts|
        invariant pending == set j: nat | i <= j < |texts| && Trim(texts[j], PySpace) != ""
        invariant Filled(ollama, texts, pending, outputs)
      {
        if i in pending {
          var answer := ollama(Trim(texts[i], PySpace));
          if answer.Failure? {
            FailureFails(ollama, texts, pending, outputs, i);
            return Failure(answer.error);
          }
          AnswerFills(ollama, texts, pending, outputs, i);
          outputs := outputs[i := answer.value];
        }
        pending := pending - {i};
      }
    } else {
      while pending != {}
        invariant Filled(ollama, texts, pending, outputs)
        decreases pending
      {
        var i :| i in pending;
        var answer := ollama(Trim(texts[i], PySpace));
        if answer.Failure? {
          FailureFails(ollama, texts, pending, outputs, i);
          return Failure(answer.error);
        }
        AnswerFills(ollama, texts, pending, outputs, i);
        outputs := outputs[i := answer.value];
        pending := pending - {i};
      }
    }
    assert pending == {};
    AllFilled(ollama, texts, outputs);
    return Success(outputs);
  }

  /** The batch: blank texts are neutral, the others get their own answers in their own places, whatever the order
      of completion; if the batch fails, one of its texts failed so. */
  method ClassifyManyWithOllama(ollama: string -> Result<Classification, string>, texts: seq<string>, workers: int)
    returns (r: Result<seq<Classification>, string>)
    ensures IsBatch(ollama, texts, r)
    ensures r.Success? ==> |r.value| == |texts|
    ensures r.Success? ==> forall i :: 0 <= i < |texts| && Blank(texts[i], PySpace) ==>
              r.value[i] == Classification([0.0, 0.0, 0.0, 0.5, 0.0, 0.0], "neutral", 0.0)
    ensures r.Success? ==> forall i :: 0 <= i < |texts| && !Blank(texts[i], PySpace) ==>
              ollama(Trim(texts[i], PySpace)) == Success(r.value[i])
    ensures r.Failure? ==> exists i :: 0 <= i < |texts| && !Blank(texts[i], PySpace)
                                       && ollama(Trim(texts[i], PySpace)) == Failure(r.error)
  {
    r := FillBatch(ollama, texts, workers);
    forall i | 0 <= i < |texts|
      ensures Blank(texts[i], PySpace) ==>
                Classify(ollama, texts[i]) == Success(Classification([0.0, 0.0, 0.0, 0.5, 0.0, 0.0], "neutral", 0.0))
      ensures !Blank(texts[i], PySpace) ==> Classify(ollama, texts[i]) == ollama(Trim(texts[i], PySpace))
    {
      BlankIsNeutral(ollama, texts[i]);
    }
  }

  // ---------------------------------------------------------------- Heuristic mode

  /** The keyword heuristic: `weigh` finds the weighted labels of a text, `combine` combines them. */
  function Heuristic(weigh: string -> seq<Weighted>, combine: seq<Weighted> -> Classification,
                     text: string): Classification {
    if weigh(text) == [] then Neutral(0.55) else combine(weigh(text))
  }

  function HeuristicAlone(weigh: string -> seq<Weighted>, combine: seq<Weighted> -> Classification,
                          text: string): Classification {
    var normalized := Trim(text, PySpace);
    if normalized == "" then Neutral(0.0) else Heuristic(weigh, combine, normalized)
  }

  function HeuristicMany(weigh: string -> seq<Weighted>, combine: seq<Weighted> -> Classification,
                         texts: seq<string>): seq<Classification> {
    seq(|texts|, i requires 0 <= i < |texts| => Heuristic(weigh, combine, Trim(texts[i], PySpace)))
  }

  /** What a text gets in a batch, and what alone: without any label it is neutral at 0.55, only that alone blank text
      is neutral at nothing. */
  predicate Guessed(weigh: string -> seq<Weighted>, combine: seq<Weighted> -> Classification, text: string,
                    inBatch: Classification, alone: Classification)
  {
    var ws := weigh(Trim(text, PySpace));
    && inBatch == (if ws == [] then Classification([0.0, 0.0, 0.0, 0.5, 0.0, 0.0], "neutral", 0.55) else combine(ws))
    && alone == if Blank(text, PySpace) then Classification([0.0, 0.0, 0.0, 0.5, 0.0, 0.0], "neutral", 0.0) else inBatch
  }

  /** In heuristic mode the batch does not special-case blank text: it agrees with classifying each text
      alone exactly when no text is blank. */
  lemma HeuristicBatchExactly(weigh: string -> seq<Weighted>, combine: seq<Weighted> -> Classification,
                              texts: seq<string>)
    requires weigh("") == []
    ensures HeuristicMany(weigh, combine, texts)
            == seq(|texts|, i requires 0 <= i < |texts| => HeuristicAlone(weigh, combine, texts[i]))
            <==> forall i :: 0 <= i < |texts| ==> !Blank(texts[i], PySpace)
    ensures forall i :: 0 <= i < |texts| ==>
              Guessed(weigh, combine, texts[i], HeuristicMany(weigh, combine, texts)[i],
                      HeuristicAlone(weigh, combine, texts[i]))
  {
    forall i | 0 <= i < |texts| ensures Trim(texts[i], PySpace) == "" <==> Blank(texts[i], PySpace) {
      TrimBlank(texts[i], PySpace);
    }
    var alone := seq(|texts|, i requires 0 <= i < |texts| => HeuristicAlone(weigh, combine, texts[i]));
    forall i | 0 <= i < |texts|
      ensures HeuristicMany(weigh, combine, texts)[i] == alone[i] <==> !Blank(texts[i], PySpace)
    {
      TrimBlank(texts[i], PySpace);
    }
  }
}
