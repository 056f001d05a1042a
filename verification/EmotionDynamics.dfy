/** The emotion engine's vector dynamics: exponential decay towards a baseline, a trigger passed
    through the susceptibility matrix, and a clamp to [-1, 1], iterated over any number of turns in
    any dimension. Noise is off. The decay factor exp(-rate t) is a parameter of which only its
    range is used, and square roots are arguments that square to the norm. */
module EmotionDynamics {
  import opened Wrappers
  import opened Vectors

  datatype Error = DimensionMismatch | NegativeLambda | NegativeDelta | EmptyMatrix | WrongSize | Unstable

  // ---------------------------------------------------------------- Matrix

  datatype Matrix = Matrix(rows: seq<Vec>) {
    ghost predicate Valid() {
      forall i :: 0 <= i < |rows| ==> |rows[i]| == |rows|
    }
  }

  /** Row-major values cut into `n` rows. */
  function Rows(values: Vec, dim: nat, n: nat): (rows: seq<Vec>)
    requires |values| == n * dim
    ensures |rows| == n && forall i :: 0 <= i < n ==> |rows[i]| == dim
  {
    if n == 0 then []
    else
      assert |values| - dim == (n - 1) * dim && dim <= |values| by { MultipleOf(n, dim); }
      [values[..dim]] + Rows(values[dim..], dim, n - 1)
  }

  lemma MultipleOf(n: nat, dim: nat)
    requires n > 0
    ensures n * dim - dim == (n - 1) * dim >= 0
  {
  }

  function FromRowMajor(values: Vec, dim: nat): (r: Result<Matrix, Error>)
    ensures r.Success? <==> dim > 0 && |values| == dim * dim
    ensures r.Failure? ==> r.error == if dim == 0 then EmptyMatrix else WrongSize
    ensures r.Success? ==> r.value.Valid() && |r.value.rows| == dim
  {
    if dim == 0 then Failure(EmptyMatrix)
    else if |values| != dim * dim then Failure(WrongSize)
    else Success(Matrix(Rows(values, dim, dim)))
  }

  /** Entry (i, j) is value i * dim + j. */
  lemma {:induction false} RowsIndex(values: Vec, dim: nat, n: nat, i: nat, j: nat)
    requires |values| == n * dim && i < n && j < dim
    ensures i * dim + j < |values| && Rows(values, dim, n)[i][j] == values[i * dim + j]
  {
    MultipleOf(n, dim);
    if i > 0 {
      MultipleOf(i, dim);
      RowsIndex(values[dim..], dim, n - 1, i - 1, j);
      assert values[dim..][(i - 1) * dim + j] == values[dim + ((i - 1) * dim + j)];
    }
  }

  function MulVec(rows: seq<Vec>, g: Vec): Vec
    requires forall i :: 0 <= i < |rows| ==> |rows[i]| == |g|
  {
    seq(|rows|, i requires 0 <= i < |rows| => Dot(rows[i], g))
  }

  function SumOfSquares(rows: seq<Vec>): real {
    if rows == [] then 0.0 else NormSq(rows[0]) + SumOfSquares(rows[1..])
  }

  /** The squared Frobenius norm, named apart from its recursion for the same reason as the inner product. */
  function FrobeniusSq(rows: seq<Vec>): real {
    SumOfSquares(rows)
  }

  /** The Frobenius norm is compared with one; so is its square. */
  function ValidateStability(m: Matrix): Result<(), Error> {
    if FrobeniusSq(m.rows) >= 1.0 then Failure(Unstable) else Success(())
  }

  lemma {:induction false} FrobeniusNonNegative(rows: seq<Vec>)
    ensures FrobeniusSq(rows) >= 0.0
  {
    if rows != [] {
      NormSqNonNegative(rows[0]);
      FrobeniusNonNegative(rows[1..]);
    }
  }

  /** |W g|^2 <= |W|_F^2 |g|^2, in any dimension. */
  lemma {:induction false} FrobeniusBound(rows: seq<Vec>, g: Vec)
    requires forall i :: 0 <= i < |rows| ==> |rows[i]| == |g|
    ensures NormSq(MulVec(rows, g)) <= FrobeniusSq(rows) * NormSq(g)
  {
    if rows != [] {
      FrobeniusBound(rows[1..], g);
      CauchySchwarz(rows[0], g);
      MulVecFirst(rows, g);
      NormSqCons(Dot(rows[0], g), MulVec(rows[1..], g));
      OneMoreRow(Dot(rows[0], g), NormSq(rows[0]), NormSq(g), FrobeniusSq(rows[1..]), NormSq(MulVec(rows[1..], g)));
    } else {
      assert MulVec(rows, g) == [];
    }
  }

  lemma MulVecFirst(rows: seq<Vec>, g: Vec)
    requires rows != [] && forall i :: 0 <= i < |rows| ==> |rows[i]| == |g|
    ensures MulVec(rows, g) == [Dot(rows[0], g)] + MulVec(rows[1..], g)
  {
  }

  lemma OneMoreRow(d: real, row: real, g: real, rest: real, restOut: real)
    requires d * d <= row * g && restOut <= rest * g
    ensures d * d + restOut <= (row + rest) * g
  {
    Distribute(row, rest, g);
  }

  /** A matrix that passes the check never amplifies a trigger. */
  lemma StableNeverAmplifies(m: Matrix, g: Vec)
    requires m.Valid() && |g| == |m.rows| && ValidateStability(m).Success?
    ensures NormSq(MulVec(m.rows, g)) <= FrobeniusSq(m.rows) * NormSq(g) <= NormSq(g)
  {
    FrobeniusBound(m.rows, g);
    NormSqNonNegative(g);
    ProductBelow(FrobeniusSq(m.rows), NormSq(g), FrobeniusSq(m.rows) * NormSq(g));
  }

  /** The values of the matrix, row by row. */
  function Entries(rows: seq<Vec>): Vec {
    if rows == [] then [] else rows[0] + Entries(rows[1..])
  }

  lemma {:induction false} EntriesOfRows(values: Vec, dim: nat, n: nat)
    requires |values| == n * dim
    ensures Entries(Rows(values, dim, n)) == values
  {
    if n > 0 {
      MultipleOf(n, dim);
      EntriesOfRows(values[dim..], dim, n - 1);
      assert values == values[..dim] + values[dim..];
    }
  }

  lemma {:induction false} FrobeniusSums(rows: seq<Vec>)
    ensures SumsTo(Products(Entries(rows), Entries(rows)), FrobeniusSq(rows))
  {
    if rows == [] {
      NoTerms();
      assert Products([], []) == [];
    } else {
      var first, rest := rows[0], Entries(rows[1..]);
      DotSums(first, first);
      FrobeniusSums(rows[1..]);
      SumOfBoth(Products(first, first), NormSq(first), Products(rest, rest), FrobeniusSq(rows[1..]));
      ProductsOfBoth(first, first, rest, rest);
    }
  }

  /** A matrix built from values passes the check exactly if their squares add up to less than one. */
  lemma StableExactly(values: Vec, dim: nat, total: real)
    requires FromRowMajor(values, dim).Success? && SumsTo(Products(values, values), total)
    ensures ValidateStability(FromRowMajor(values, dim).value).Success? <==> total < 1.0
  {
    var rows := Rows(values, dim, dim);
    EntriesOfRows(values, dim, dim);
    FrobeniusSums(rows);
    SumUnique(Products(values, values), total, FrobeniusSq(rows));
  }

  // ---------------------------------------------------------------- Emotion vectors

  function Clamp(v: Vec): Vec {
    seq(|v|, i requires 0 <= i < |v| => Clamp1(v[i]))
  }

  predicate InBox(v: Vec) {
    forall i :: 0 <= i < |v| ==> -1.0 <= v[i] <= 1.0
  }

  /** The in-place clamp of the vector's storage. */
  method ClampInPlace(a: array<real>)
    modifies a
    ensures a[..] == Clamp(old(a[..]))
  {
    var i := 0;
    while i < a.Length
      invariant 0 <= i <= a.Length
      invariant forall k :: 0 <= k < i ==> a[k] == Clamp1(old(a[k]))
      invariant forall k :: i <= k < a.Length ==> a[k] == old(a[k])
    {
      a[i] := Clamp1(a[i]);
      i := i + 1;
    }
  }

  /** Cosine similarity, given the two norms. */
  function CosineSimilarity(a: Vec, b: Vec, normA: real, normB: real): real {
    if |a| != |b| then 0.0
    else if normA == 0.0 || normB == 0.0 then 0.0
    else Clamp1(Dot(a, b) / (normA * normB))
  }

  ghost predicate IsNorm(n: real, v: Vec) {
    n >= 0.0 && n * n == NormSq(v)
  }

  /** For vectors of one dimension and non-zero norm the quotient already lies in [-1, 1], so the
      clamp is the identity. */
  lemma CosineNeedsNoClamp(a: Vec, b: Vec, normA: real, normB: real)
    requires |a| == |b| && IsNorm(normA, a) && IsNorm(normB, b) && normA != 0.0 && normB != 0.0
    ensures -1.0 <= Dot(a, b) / (normA * normB) <= 1.0
    ensures CosineSimilarity(a, b, normA, normB) == Dot(a, b) / (normA * normB)
  {
    var p, q := Dot(a, b), normA * normB;
    CauchySchwarz(a, b);
    PositiveProduct(normA, normB);
    assert q * q == (normA * normA) * (normB * normB);
    SquareBound(p, q);
    QuotientBound(p, q);
  }

  /** Vectors of different dimension, and zero vectors, resemble nothing. */
  lemma CosineOfNothing(a: Vec, b: Vec, normA: real, normB: real)
    requires IsNorm(normA, a) && IsNorm(normB, b)
    requires |a| != |b| || (forall i :: 0 <= i < |a| ==> a[i] == 0.0) || (forall i :: 0 <= i < |b| ==> b[i] == 0.0)
    ensures CosineSimilarity(a, b, normA, normB) == 0.0
  {
    if forall i :: 0 <= i < |a| ==> a[i] == 0.0 { ZeroNorm(normA, a); }
    if forall i :: 0 <= i < |b| ==> b[i] == 0.0 { ZeroNorm(normB, b); }
  }

  lemma ZeroNorm(n: real, v: Vec)
    requires IsNorm(n, v) && forall i :: 0 <= i < |v| ==> v[i] == 0.0
    ensures n == 0.0
  {
    DotWithZeros(v, v);
    SquareBound(n, 0.0);
  }

  lemma QuotientBound(p: real, q: real)
    requires q > 0.0 && Abs(p) <= q
    ensures -1.0 <= p / q <= 1.0
  {
    var c := p / q;
    assert c * q == p;
    if c > 1.0 {
      PositiveProduct(c - 1.0, q);
    } else if c < -1.0 {
      PositiveProduct(-1.0 - c, q);
    }
  }

  // ---------------------------------------------------------------- One turn

  function Decay(e: Vec, b: Vec, k: real): Vec
    requires |e| == |b|
  {
    seq(|e|, i requires 0 <= i < |e| => b[i] + (e[i] - b[i]) * k)
  }

  function ApplyDecay(e: Vec, b: Vec, rate: real, deltaT: real, factor: (real, real) -> real): Result<Vec, Error> {
    if |e| != |b| then Failure(DimensionMismatch)
    else if rate < 0.0 then Failure(NegativeLambda)
    else if deltaT < 0.0 then Failure(NegativeDelta)
    else Success(Decay(e, b, factor(rate, deltaT)))
  }

  function ComputeNextEmotion(current: Vec, trigger: Vec, m: Matrix): Result<Vec, Error>
    requires m.Valid()
  {
    if |current| != |trigger| then Failure(DimensionMismatch)
    else if |current| != |m.rows| then Failure(DimensionMismatch)
    else Success(Clamp(Add(current, MulVec(m.rows, trigger))))
  }

  function ComputeWithDecay(current: Vec, trigger: Vec, m: Matrix, b: Vec, rate: real, deltaT: real,
                            factor: (real, real) -> real)
    : Result<Vec, Error>
    requires m.Valid()
  {
    var decayed := ApplyDecay(current, b, rate, deltaT, factor);
    if decayed.Failure? then decayed else ComputeNextEmotion(decayed.value, trigger, m)
  }

  /** A turn is computed exactly for vectors of the matrix's dimension and times and rates that are not
      negative. */
  lemma TurnSucceedsExactly(e: Vec, g: Vec, m: Matrix, b: Vec, rate: real, deltaT: real, factor: (real, real) -> real)
    requires m.Valid()
    ensures ComputeWithDecay(e, g, m, b, rate, deltaT, factor).Success? <==>
            |e| == |b| == |g| == |m.rows| && rate >= 0.0 && deltaT >= 0.0
    ensures var r := ComputeWithDecay(e, g, m, b, rate, deltaT, factor);
      r.Failure? ==> r.error == if |e| == |b| && rate < 0.0 then NegativeLambda
                                else if |e| == |b| && deltaT < 0.0 then NegativeDelta
                                else DimensionMismatch
  {
  }

  /** What a turn makes of each component: the emotion decayed towards the baseline, plus the products of row
      and trigger added up, cut to [-1, 1]. */
  lemma TurnByComponent(e: Vec, g: Vec, m: Matrix, b: Vec, rate: real, deltaT: real, factor: (real, real) -> real,
                        i: nat, k: real, push: real)
    requires k == factor(rate, deltaT)
    requires m.Valid() && ComputeWithDecay(e, g, m, b, rate, deltaT, factor).Success?
    requires i < |e| == |b| == |g| == |m.rows|
    requires SumsTo(seq(|g|, j requires 0 <= j < |g| => m.rows[i][j] * g[j]), push)
    ensures var r := ComputeWithDecay(e, g, m, b, rate, deltaT, factor).value;
      |r| == |e| && IsCut(b[i] + (e[i] - b[i]) * k + push, r[i])
  {
    PushIsDot(m.rows[i], g, push);
    SettledComponent(e, g, m, b, k, i, push);
  }

  /** y is x inside [-1, 1], and otherwise the nearer end. */
  predicate IsCut(x: real, y: real) {
    (-1.0 <= x <= 1.0 ==> y == x) && (x > 1.0 ==> y == 1.0) && (x < -1.0 ==> y == -1.0)
  }

  lemma PushIsDot(row: Vec, g: Vec, push: real)
    requires |row| == |g| && SumsTo(seq(|g|, j requires 0 <= j < |g| => row[j] * g[j]), push)
    ensures push == Dot(row, g)
  {
    DotSums(row, g);
    assert Products(row, g) == seq(|g|, j requires 0 <= j < |g| => row[j] * g[j]);
    SumUnique(Products(row, g), push, Dot(row, g));
  }

  lemma SettledComponent(e: Vec, g: Vec, m: Matrix, b: Vec, k: real, i: nat, push: real)
    requires m.Valid() && i < |e| == |b| == |g| == |m.rows| && push == Dot(m.rows[i], g)
    ensures ComputeNextEmotion(Decay(e, b, k), g, m).Success?
    ensures |ComputeNextEmotion(Decay(e, b, k), g, m).value| == |e|
    ensures IsCut(b[i] + (e[i] - b[i]) * k + push, ComputeNextEmotion(Decay(e, b, k), g, m).value[i])
  {
    assert Decay(e, b, k)[i] == b[i] + (e[i] - b[i]) * k;
    assert MulVec(m.rows, g)[i] == push;
  }

  /** All that is used of the decay factor exp(-rate t). */
  ghost predicate DecayLike(factor: (real, real) -> real) {
    forall rate, t :: rate >= 0.0 && t >= 0.0 ==> 0.0 < factor(rate, t) <= 1.0
  }

  /** A convex combination of points of the box stays in the box. */
  lemma DecayStaysInBox(e: Vec, b: Vec, k: real)
    requires |e| == |b| && InBox(e) && InBox(b) && 0.0 <= k <= 1.0
    ensures InBox(Decay(e, b, k))
  {
    forall i | 0 <= i < |e| ensures -1.0 <= Decay(e, b, k)[i] <= 1.0 {
      Convex(e[i], b[i], k);
    }
  }

  lemma {:induction false} BoxNorm(v: Vec)
    requires InBox(v)
    ensures NormSq(v) <= |v| as real
  {
    if v != [] {
      assert InBox(v[1..]) by { assert forall i :: 0 <= i < |v[1..]| ==> v[1..][i] == v[i + 1]; }
      BoxNorm(v[1..]);
      SquareMonotone(v[0], 1.0);
    }
  }

  /** What a turn emits is in the box, with squared intensity at most the dimension. */
  lemma EmittedInBox(e: Vec, g: Vec, m: Matrix, b: Vec, rate: real, deltaT: real, factor: (real, real) -> real)
    requires m.Valid() && ComputeWithDecay(e, g, m, b, rate, deltaT, factor).Success?
    ensures var r := ComputeWithDecay(e, g, m, b, rate, deltaT, factor).value;
      |r| == |e| && InBox(r) && NormSq(r) <= |r| as real
  {
    BoxNorm(ComputeWithDecay(e, g, m, b, rate, deltaT, factor).value);
  }

  /** With a stable matrix a turn moves the decayed emotion by at most the size of the trigger. */
  lemma TurnMovesAtMostTrigger(e: Vec, g: Vec, m: Matrix, b: Vec, rate: real, deltaT: real,
                               factor: (real, real) -> real)
    requires m.Valid() && ValidateStability(m).Success? && DecayLike(factor) && InBox(e) && InBox(b)
    requires ComputeWithDecay(e, g, m, b, rate, deltaT, factor).Success?
    ensures var r := ComputeWithDecay(e, g, m, b, rate, deltaT, factor).value;
      var d := Decay(e, b, factor(rate, deltaT));
      InBox(d) && NormSq(Sub(r, d)) <= NormSq(g)
  {
    assert rate >= 0.0 && deltaT >= 0.0;
    DecayStaysInBox(e, b, factor(rate, deltaT));
    PushMovesAtMostTrigger(Decay(e, b, factor(rate, deltaT)), g, m);
  }

  lemma PushMovesAtMostTrigger(d: Vec, g: Vec, m: Matrix)
    requires m.Valid() && ValidateStability(m).Success? && InBox(d) && |d| == |g| == |m.rows|
    ensures NormSq(Sub(Clamp(Add(d, MulVec(m.rows, g))), d)) <= NormSq(g)
  {
    StablePush(m, g);
    ClampedPush(d, MulVec(m.rows, g));
  }

  lemma StablePush(m: Matrix, g: Vec)
    requires m.Valid() && |g| == |m.rows| && ValidateStability(m).Success?
    ensures NormSq(MulVec(m.rows, g)) <= NormSq(g)
  {
    StableNeverAmplifies(m, g);
  }

  lemma ClampedPush(d: Vec, push: Vec)
    requires |d| == |push| && InBox(d)
    ensures NormSq(Sub(Clamp(Add(d, push)), d)) <= NormSq(push)
  {
    var moved := Sub(Clamp(Add(d, push)), d);
    assert forall i :: 0 <= i < |d| ==> moved[i] == Clamp1(d[i] + push[i]) - d[i];
    NormSqMonotone(moved, push);
  }

  // ---------------------------------------------------------------- Runs

  datatype Turn = Turn(trigger: Vec, rate: real, deltaT: real)

  /** The fixed part of an agent's dynamics. */
  datatype Engine = Engine(matrix: Matrix, baseline: Vec, factor: (real, real) -> real)

  type Advance = (Vec, Turn, Vec) -> bool

  /** What the engine computes from one vector and one turn. */
  ghost function Advancing(a: Engine): Advance {
    (e: Vec, t: Turn, e': Vec) =>
      && a.matrix.Valid()
      && ComputeWithDecay(e, t.trigger, a.matrix, a.baseline, t.rate, t.deltaT, a.factor) == Success(e')
  }

  ghost predicate Follows(step: Advance, es: seq<Vec>, turns: seq<Turn>) {
    |es| == |turns| + 1 && forall n :: 0 <= n < |turns| ==> step(es[n], turns[n], es[n + 1])
  }

  /** A run: each vector is what the engine computes from the one before it. */
  ghost predicate IsRun(a: Engine, es: seq<Vec>, turns: seq<Turn>) {
    Follows(Advancing(a), es, turns)
  }

  function TurnFactor(a: Engine, t: Turn): real {
    a.factor(t.rate, t.deltaT)
  }

  /** The decay factors of the turns. */
  function Factors(a: Engine, turns: seq<Turn>): (ks: seq<real>)
    ensures |ks| == |turns| && forall n :: 0 <= n < |turns| ==> ks[n] == TurnFactor(a, turns[n])
  {
    seq(|turns|, n requires 0 <= n < |turns| => TurnFactor(a, turns[n]))
  }

  /** The product of the first n of `ks`, likewise named apart from its recursion. */
  function Gain(ks: seq<real>, n: nat): real
    requires n <= |ks|
  {
    Product(ks, n)
  }

  function Product(ks: seq<real>, n: nat): real
    requires n <= |ks|
  {
    if n == 0 then 1.0 else Product(ks, n - 1) * ks[n - 1]
  }

  /** A turn, once its decay factor and the output of the matrix are known. */
  function Settled(e: Vec, b: Vec, k: real, push: Vec): (r: Vec)
    requires |e| == |b| == |push|
    ensures |r| == |e|
  {
    Clamp(Add(Decay(e, b, k), push))
  }

  lemma TurnShape(a: Engine, e: Vec, t: Turn, e': Vec)
    requires Advancing(a)(e, t, e')
    ensures a.matrix.Valid() && t.rate >= 0.0 && t.deltaT >= 0.0
    ensures |e'| == |e| == |a.baseline| == |t.trigger| == |a.matrix.rows|
    ensures e' == Settled(e, a.baseline, TurnFactor(a, t), MulVec(a.matrix.rows, t.trigger))
    ensures InBox(e')
  {
  }

  ghost predicate SameShape(es: seq<Vec>, dim: nat) {
    forall j :: 0 <= j < |es| ==> |es[j]| == dim
  }

  lemma {:induction false} RunShape(a: Engine, es: seq<Vec>, turns: seq<Turn>, n: nat)
    requires IsRun(a, es, turns) && n <= |turns|
    ensures |es[n]| == |es[0]|
  {
    if n > 0 {
      RunShape(a, es, turns, n - 1);
      TurnShape(a, es[n - 1], turns[n - 1], es[n]);
    }
  }

  lemma RunSameShape(a: Engine, es: seq<Vec>, turns: seq<Turn>)
    requires IsRun(a, es, turns)
    ensures |es| == |turns| + 1 && SameShape(es, |es[0]|)
  {
    forall j | 0 <= j < |es| ensures |es[j]| == |es[0]| {
      RunShape(a, es, turns, j);
    }
  }

  /** Every vector a run emits is in the box, with squared intensity at most the dimension. */
  lemma RunEmitsInBox(a: Engine, es: seq<Vec>, turns: seq<Turn>, n: nat)
    requires IsRun(a, es, turns) && 0 < n <= |turns|
    ensures InBox(es[n]) && NormSq(es[n]) <= |es[0]| as real
  {
    RunShape(a, es, turns, n);
    TurnShape(a, es[n - 1], turns[n - 1], es[n]);
    BoxNorm(es[n]);
  }

  // ---------------------------------------------------------------- Contraction

  lemma DecayContracts(e: Vec, f: Vec, b: Vec, k: real, i: nat)
    requires i < |e| == |f| == |b| && k >= 0.0
    ensures Abs(Decay(e, b, k)[i] - Decay(f, b, k)[i]) <= Abs(e[i] - f[i]) * k
  {
    AbsProduct(e[i] - f[i], k);
    assert (e[i] - b[i]) * k - (f[i] - b[i]) * k == (e[i] - f[i]) * k;
  }

  lemma ClampContracts(d: Vec, c: Vec, push: Vec, i: nat)
    requires i < |d| == |c| == |push|
    ensures Abs(Clamp(Add(d, push))[i] - Clamp(Add(c, push))[i]) <= Abs(d[i] - c[i])
  {
  }

  lemma SettledContracts(e: Vec, f: Vec, b: Vec, k: real, push: Vec, i: nat)
    requires i < |e| == |f| == |b| == |push| && k >= 0.0
    ensures Abs(Settled(e, b, k, push)[i] - Settled(f, b, k, push)[i]) <= Abs(e[i] - f[i]) * k
  {
    DecayContracts(e, f, b, k, i);
    ClampContracts(Decay(e, b, k), Decay(f, b, k), push, i);
  }

  /** The distance of x' and y' is at most k times that of x and y. */
  ghost predicate Shrinks(x: real, y: real, x': real, y': real, k: real) {
    k >= 0.0 && Abs(x' - y') <= Abs(x - y) * k
  }

  lemma TurnContracts(a: Engine, e: Vec, f: Vec, t: Turn, e': Vec, f': Vec, i: nat)
    requires DecayLike(a.factor) && Advancing(a)(e, t, e') && Advancing(a)(f, t, f') && i < |e| == |f| == |e'| == |f'|
    ensures Shrinks(e[i], f[i], e'[i], f'[i], TurnFactor(a, t))
  {
    TurnShape(a, e, t, e');
    TurnShape(a, f, t, f');
    SettledContracts(e, f, a.baseline, TurnFactor(a, t), MulVec(a.matrix.rows, t.trigger), i);
  }

  lemma GapShrinks(g0: real, g1: real, k: real, gain: real, gain': real, d: real)
    requires k >= 0.0 && gain' == gain * k && g1 <= g0 * k && g0 <= gain * d
    ensures g1 <= gain' * d
  {
    ScaleMonotone(g0, gain * d, k);
    assert gain * d * k == (gain * k) * d;
  }

  ghost predicate StepShrinks(gaps: seq<real>, ks: seq<real>, j: int)
    requires 0 <= j < |ks| < |gaps|
  {
    ks[j] >= 0.0 && gaps[j + 1] <= gaps[j] * ks[j]
  }

  lemma {:induction false} GapsShrink(gaps: seq<real>, ks: seq<real>, n: nat)
    requires |gaps| == |ks| + 1 && n <= |ks|
    requires forall j :: 0 <= j < |ks| ==> StepShrinks(gaps, ks, j)
    ensures gaps[n] <= Gain(ks, n) * gaps[0]
  {
    if n > 0 {
      GapsShrink(gaps, ks, n - 1);
      assert StepShrinks(gaps, ks, n - 1);
      GapShrinks(gaps[n - 1], gaps[n], ks[n - 1], Gain(ks, n - 1), Gain(ks, n), gaps[0]);
    }
  }

  /** How far apart two runs are in component i after n turns. */
  function Gap(es: seq<Vec>, fs: seq<Vec>, n: nat, i: nat): real
    requires n < |es| && n < |fs| && i < |es[n]| && i < |fs[n]|
  {
    Abs(es[n][i] - fs[n][i])
  }

  ghost function Gaps(es: seq<Vec>, fs: seq<Vec>, dim: nat, i: nat): (gaps: seq<real>)
    requires SameShape(es, dim) && SameShape(fs, dim) && |es| == |fs| && i < dim
    ensures |gaps| == |es| && forall j :: 0 <= j < |es| ==> gaps[j] == Gap(es, fs, j, i)
  {
    seq(|es|, j requires 0 <= j < |es| => Gap(es, fs, j, i))
  }

  lemma GapsOfRuns(a: Engine, es: seq<Vec>, fs: seq<Vec>, turns: seq<Turn>, dim: nat, i: nat, gaps: seq<real>,
                   ks: seq<real>)
    requires IsRun(a, es, turns) && IsRun(a, fs, turns) && DecayLike(a.factor)
    requires SameShape(es, dim) && SameShape(fs, dim) && i < dim
    requires gaps == Gaps(es, fs, dim, i) && ks == Factors(a, turns)
    ensures forall j :: 0 <= j < |ks| ==> StepShrinks(gaps, ks, j)
  {
    forall j | 0 <= j < |ks| ensures StepShrinks(gaps, ks, j) {
      TurnContracts(a, es[j], fs[j], turns[j], es[j + 1], fs[j + 1], i);
      GapStep(gaps, es, fs, dim, i, j, ks);
    }
  }

  lemma GapStep(gaps: seq<real>, es: seq<Vec>, fs: seq<Vec>, dim: nat, i: nat, j: nat, ks: seq<real>)
    requires SameShape(es, dim) && SameShape(fs, dim) && |es| == |fs| == |ks| + 1 && i < dim && j < |ks|
    requires gaps == Gaps(es, fs, dim, i) && Shrinks(es[j][i], fs[j][i], es[j + 1][i], fs[j + 1][i], ks[j])
    ensures StepShrinks(gaps, ks, j)
  {
  }

  /** The gap is at most a factor times the first gap. */
  predicate AtMostTimes(gap: real, factor: real, first: real) {
    gap <= factor * first
  }

  lemma GapsContract(a: Engine, es: seq<Vec>, fs: seq<Vec>, turns: seq<Turn>, n: nat, dim: nat, i: nat,
                     gaps: seq<real>, ks: seq<real>)
    requires IsRun(a, es, turns) && IsRun(a, fs, turns) && DecayLike(a.factor) && n <= |turns|
    requires SameShape(es, dim) && SameShape(fs, dim) && i < dim
    requires gaps == Gaps(es, fs, dim, i) && ks == Factors(a, turns)
    ensures AtMostTimes(gaps[n], Gain(ks, n), gaps[0])
  {
    GapsOfRuns(a, es, fs, turns, dim, i, gaps, ks);
    GapsShrink(gaps, ks, n);
  }

  /** Contraction: two runs with the same turns from different starts are, after n turns and in every
      component, within the product of the decay factors times their initial distance. */
  lemma Contraction(a: Engine, es: seq<Vec>, fs: seq<Vec>, turns: seq<Turn>, n: nat, i: nat)
    requires IsRun(a, es, turns) && IsRun(a, fs, turns) && DecayLike(a.factor) && n <= |turns|
    requires i < |es[0]| == |fs[0]|
    ensures i < |es[n]| == |fs[n]|
    ensures AtMostTimes(Gap(es, fs, n, i), Gain(Factors(a, turns), n), Gap(es, fs, 0, i))
  {
    RunSameShape(a, es, turns);
    RunSameShape(a, fs, turns);
    GapsContract(a, es, fs, turns, n, |es[0]|, i, Gaps(es, fs, |es[0]|, i), Factors(a, turns));
  }

  /** Decay factors of at most k: the distance is at most the n-th power of k times the initial one. */
  lemma ContractionPower(a: Engine, es: seq<Vec>, fs: seq<Vec>, turns: seq<Turn>, n: nat, i: nat, k: real)
    requires IsRun(a, es, turns) && IsRun(a, fs, turns) && DecayLike(a.factor) && n <= |turns|
    requires i < |es[0]| == |fs[0]| && forall t :: t in turns ==> TurnFactor(a, t) <= k
    ensures i < |es[n]| == |fs[n]|
    ensures AtMostTimes(Gap(es, fs, n, i), Power(k, n), Gap(es, fs, 0, i))
  {
    Contraction(a, es, fs, turns, n, i);
    FactorsPositive(a, es, turns);
    PowerBound(Gap(es, fs, n, i), Gap(es, fs, 0, i), Factors(a, turns), k, n);
  }

  lemma PowerBound(gap: real, first: real, ks: seq<real>, k: real, n: nat)
    requires n <= |ks| && forall j :: 0 <= j < |ks| ==> 0.0 < ks[j] <= k
    requires first >= 0.0 && AtMostTimes(gap, Gain(ks, n), first)
    ensures AtMostTimes(gap, Power(k, n), first)
  {
    GainAtMost(ks, k, n);
    ScaleMonotone(Gain(ks, n), Power(k, n), first);
  }

  lemma FactorsPositive(a: Engine, es: seq<Vec>, turns: seq<Turn>)
    requires IsRun(a, es, turns) && DecayLike(a.factor)
    ensures forall j :: 0 <= j < |turns| ==> Factors(a, turns)[j] > 0.0
  {
    forall j | 0 <= j < |turns| ensures Factors(a, turns)[j] > 0.0 {
      TurnShape(a, es[j], turns[j], es[j + 1]);
    }
  }

  lemma {:induction false} GainAtMost(ks: seq<real>, k: real, n: nat)
    requires n <= |ks| && forall j :: 0 <= j < |ks| ==> 0.0 < ks[j] <= k
    ensures 0.0 <= Gain(ks, n) <= Power(k, n)
  {
    if n > 0 {
      GainAtMost(ks, k, n - 1);
      GainStep(Gain(ks, n - 1), Power(k, n - 1), ks[n - 1], k);
    }
  }

  lemma GainStep(gain: real, power: real, factor: real, k: real)
    requires 0.0 <= gain <= power && 0.0 < factor <= k
    ensures 0.0 <= gain * factor <= k * power
  {
    NonNegativeProduct(gain, factor);
    ScaleMonotone(gain, power, factor);
    ScaleMonotone(factor, k, power);
  }

  /** With one decay factor throughout, the product is its power. */
  lemma {:induction false} GainOfConstant(ks: seq<real>, k: real, n: nat)
    requires n <= |ks| && forall j :: 0 <= j < n ==> ks[j] == k
    ensures Gain(ks, n) == Power(k, n)
  {
    if n > 0 {
      GainOfConstant(ks, k, n - 1);
    }
  }

  // ---------------------------------------------------------------- Bounded input, bounded state

  /** M (1 - p) / (1 - k), the part of the bound that the inputs are answerable for. */
  function InputShare(M: real, k: real, p: real): real
    requires k < 1.0
  {
    M * (1.0 - p) / (1.0 - k)
  }

  lemma InputShareStep(M: real, k: real, p: real)
    requires k < 1.0
    ensures InputShare(M, k, p) * k + M == InputShare(M, k, p * k)
  {
    var c, g, h := 1.0 - k, InputShare(M, k, p), InputShare(M, k, p * k);
    QuotientTimes(M * (1.0 - p), c);
    QuotientTimes(M * (1.0 - p * k), c);
    ShareAlgebra(g, k, M, p, c);
    Cancel(g * k + M, h, c);
  }

  lemma QuotientTimes(x: real, c: real)
    requires c != 0.0
    ensures (x / c) * c == x
  {
  }

  lemma ShareAlgebra(g: real, k: real, M: real, p: real, c: real)
    requires c == 1.0 - k && g * c == M * (1.0 - p)
    ensures (g * k + M) * c == M * (1.0 - p * k)
  {
    Distribute(g * k, M, c);
    Swap(g, k, c);
    Remainder(M, p, k);
  }

  lemma Swap(g: real, k: real, c: real)
    ensures (g * k) * c == (g * c) * k
  {
  }

  lemma Remainder(M: real, p: real, k: real)
    ensures (M * (1.0 - p)) * k + M * (1.0 - k) == M * (1.0 - p * k)
  {
  }

  lemma BoundGrows(dist: real, dist': real, k: real, p: real, p': real, d: real, M: real)
    requires 0.0 <= k < 1.0 && p' == k * p && dist' <= dist * k + M && dist <= p * d + InputShare(M, k, p)
    ensures dist' <= p' * d + InputShare(M, k, p')
  {
    var share := InputShare(M, k, p);
    ScaleMonotone(dist, p * d + share, k);
    Distribute(p * d, share, k);
    InputShareStep(M, k, p);
    assert p * d * k == (k * p) * d && p * k == k * p;
  }

  lemma DecayNear(e: Vec, b: Vec, f: real, k: real, i: nat)
    requires i < |e| == |b| && 0.0 <= f <= k
    ensures Abs(Decay(e, b, f)[i] - b[i]) <= Abs(e[i] - b[i]) * k
  {
    AbsProduct(e[i] - b[i], f);
    ScaleMonotone(f, k, Abs(e[i] - b[i]));
    assert f * Abs(e[i] - b[i]) == Abs(e[i] - b[i]) * f && k * Abs(e[i] - b[i]) == Abs(e[i] - b[i]) * k;
  }

  lemma ClampNear(d: Vec, push: Vec, b: real, M: real, i: nat)
    requires i < |d| == |push| && -1.0 <= b <= 1.0 && Abs(push[i]) <= M
    ensures Abs(Clamp(Add(d, push))[i] - b) <= Abs(d[i] - b) + M
  {
  }

  lemma SettledNear(e: Vec, b: Vec, f: real, k: real, push: Vec, M: real, i: nat)
    requires i < |e| == |b| == |push| && 0.0 <= f <= k && -1.0 <= b[i] <= 1.0 && Abs(push[i]) <= M
    ensures Abs(Settled(e, b, f, push)[i] - b[i]) <= Abs(e[i] - b[i]) * k + M
  {
    DecayNear(e, b, f, k, i);
    ClampNear(Decay(e, b, f), push, b[i], M, i);
  }

  /** What the bound assumes of a turn: decay factor at most k, output of the matrix at most M in
      component i. */
  ghost predicate Bounded(a: Engine, t: Turn, i: nat, k: real, M: real) {
    && TurnFactor(a, t) <= k
    && (a.matrix.Valid() && i < |a.matrix.rows| == |t.trigger| ==> Abs(MulVec(a.matrix.rows, t.trigger)[i]) <= M)
  }

  /** y is no further from b than k times the distance of x, plus M. */
  ghost predicate Near(x: real, y: real, b: real, k: real, M: real) {
    Abs(y - b) <= Abs(x - b) * k + M
  }

  lemma TurnNear(a: Engine, e: Vec, t: Turn, e': Vec, i: nat, k: real, M: real)
    requires DecayLike(a.factor) && InBox(a.baseline) && Advancing(a)(e, t, e')
    requires i < |e| == |e'| == |a.baseline| && Bounded(a, t, i, k, M)
    ensures Near(e[i], e'[i], a.baseline[i], k, M)
  {
    TurnShape(a, e, t, e');
    SettledNear(e, a.baseline, TurnFactor(a, t), k, MulVec(a.matrix.rows, t.trigger), M, i);
  }

  ghost predicate StepBounded(ds: seq<real>, j: int, k: real, M: real)
    requires 0 <= j < |ds| - 1
  {
    ds[j + 1] <= ds[j] * k + M
  }

  lemma {:induction false} OffsetsBounded(ds: seq<real>, k: real, M: real, n: nat)
    requires 0.0 <= k < 1.0 && n < |ds| && forall j :: 0 <= j < |ds| - 1 ==> StepBounded(ds, j, k, M)
    ensures ds[n] <= Power(k, n) * ds[0] + InputShare(M, k, Power(k, n))
  {
    if n == 0 {
      NoShareYet(M, k, ds[0]);
    } else {
      OffsetsBounded(ds, k, M, n - 1);
      assert StepBounded(ds, n - 1, k, M);
      BoundGrows(ds[n - 1], ds[n], k, Power(k, n - 1), Power(k, n), ds[0], M);
    }
  }

  lemma NoShareYet(M: real, k: real, d: real)
    requires k < 1.0
    ensures d <= 1.0 * d + InputShare(M, k, 1.0)
  {
    assert 1.0 - 1.0 == 0.0 && M * (1.0 - 1.0) == 0.0;
    QuotientTimes(M * (1.0 - 1.0), 1.0 - k);
    assert InputShare(M, k, 1.0) == 0.0;
    assert 1.0 * d == d;
  }

  /** How far a run is from b in component i after n turns. */
  function Offset(es: seq<Vec>, b: real, n: nat, i: nat): real
    requires n < |es| && i < |es[n]|
  {
    Abs(es[n][i] - b)
  }

  ghost function Offsets(es: seq<Vec>, b: real, dim: nat, i: nat): (ds: seq<real>)
    requires SameShape(es, dim) && i < dim
    ensures |ds| == |es| && forall j :: 0 <= j < |es| ==> ds[j] == Offset(es, b, j, i)
  {
    seq(|es|, j requires 0 <= j < |es| => Offset(es, b, j, i))
  }

  lemma OffsetStep(ds: seq<real>, es: seq<Vec>, b: real, dim: nat, i: nat, j: nat, k: real, M: real)
    requires SameShape(es, dim) && i < dim && j < |es| - 1 && ds == Offsets(es, b, dim, i)
    requires Near(es[j][i], es[j + 1][i], b, k, M)
    ensures StepBounded(ds, j, k, M)
  {
  }

  lemma OffsetsOfRun(a: Engine, es: seq<Vec>, turns: seq<Turn>, i: nat, k: real, M: real, ds: seq<real>)
    requires IsRun(a, es, turns) && DecayLike(a.factor) && InBox(a.baseline)
    requires SameShape(es, |a.baseline|) && i < |a.baseline| && forall t :: t in turns ==> Bounded(a, t, i, k, M)
    requires ds == Offsets(es, a.baseline[i], |a.baseline|, i)
    ensures forall j :: 0 <= j < |ds| - 1 ==> StepBounded(ds, j, k, M)
  {
    forall j | 0 <= j < |ds| - 1 ensures StepBounded(ds, j, k, M) {
      assert turns[j] in turns;
      TurnNear(a, es[j], turns[j], es[j + 1], i, k, M);
      OffsetStep(ds, es, a.baseline[i], |a.baseline|, i, j, k, M);
    }
  }

  /** A distance d is at most p times the first one, plus M (1 - p) / (1 - k). */
  predicate WithinShare(d: real, p: real, first: real, M: real, k: real) {
    k < 1.0 && d <= p * first + InputShare(M, k, p)
  }

  lemma OffsetsWithin(a: Engine, es: seq<Vec>, turns: seq<Turn>, n: nat, i: nat, k: real, M: real, ds: seq<real>)
    requires IsRun(a, es, turns) && DecayLike(a.factor) && InBox(a.baseline) && n <= |turns| && 0.0 <= k < 1.0
    requires SameShape(es, |a.baseline|) && i < |a.baseline| && forall t :: t in turns ==> Bounded(a, t, i, k, M)
    requires ds == Offsets(es, a.baseline[i], |a.baseline|, i)
    ensures WithinShare(ds[n], Power(k, n), ds[0], M, k)
  {
    OffsetsOfRun(a, es, turns, i, k, M, ds);
    OffsetsBounded(ds, k, M, n);
  }

  /** Input to state: with the baseline in the box, decay factors at most k < 1 and matrix outputs at
      most M in a component, that component stays within k^n times its initial distance from the
      baseline, plus M (1 - k^n) / (1 - k). */
  lemma InputToState(a: Engine, es: seq<Vec>, turns: seq<Turn>, n: nat, i: nat, k: real, M: real)
    requires IsRun(a, es, turns) && DecayLike(a.factor) && InBox(a.baseline) && n <= |turns| && 0.0 <= k < 1.0
    requires i < |es[0]| == |a.baseline| && forall t :: t in turns ==> Bounded(a, t, i, k, M)
    ensures |es[n]| == |es[0]|
    ensures WithinShare(Offset(es, a.baseline[i], n, i), Power(k, n), Offset(es, a.baseline[i], 0, i), M, k)
  {
    RunSameShape(a, es, turns);
    OffsetsWithin(a, es, turns, n, i, k, M, Offsets(es, a.baseline[i], |es[0]|, i));
  }

  /** The same bound from what a caller knows: a matrix that passed the check and triggers of size
      at most M. */
  lemma StableEngineBound(a: Engine, es: seq<Vec>, turns: seq<Turn>, n: nat, i: nat, k: real, M: real)
    requires IsRun(a, es, turns) && DecayLike(a.factor) && InBox(a.baseline) && n <= |turns| && 0.0 <= k < 1.0
    requires i < |es[0]| == |a.baseline| && ValidateStability(a.matrix).Success? && M >= 0.0
    requires forall t :: t in turns ==> TurnFactor(a, t) <= k && NormSq(t.trigger) <= M * M
    ensures |es[n]| == |es[0]|
    ensures WithinShare(Offset(es, a.baseline[i], n, i), Power(k, n), Offset(es, a.baseline[i], 0, i), M, k)
  {
    forall t | t in turns ensures Bounded(a, t, i, k, M) {
      StableTurn(a, t, i, k, M);
    }
    InputToState(a, es, turns, n, i, k, M);
  }

  lemma StableTurn(a: Engine, t: Turn, i: nat, k: real, M: real)
    requires ValidateStability(a.matrix).Success? && M >= 0.0
    requires TurnFactor(a, t) <= k && NormSq(t.trigger) <= M * M
    ensures Bounded(a, t, i, k, M)
  {
    if a.matrix.Valid() && i < |a.matrix.rows| == |t.trigger| {
      StablePush(a.matrix, t.trigger);
      ComponentBelow(MulVec(a.matrix.rows, t.trigger), i, M);
    }
  }

  // ---------------------------------------------------------------- No input

  ghost predicate Zero(v: Vec) {
    forall i :: 0 <= i < |v| ==> v[i] == 0.0
  }

  lemma UnitProduct(x: real, y: real)
    requires 0.0 <= x <= 1.0 && 0.0 <= y <= 1.0
    ensures 0.0 <= x * y <= 1.0
  {
    NonNegativeProduct(x, y);
    ProductBelow(x, y, x * y);
  }

  lemma DecayTwice(e: real, b: real, g: real, k: real)
    ensures b + ((b + (e - b) * g) - b) * k == b + (e - b) * (g * k)
  {
    assert (e - b) * g * k == (e - b) * (g * k);
  }

  /** A quiet turn after a decay by g is a decay by g k. */
  lemma SettledQuiet(e: Vec, b: Vec, g: real, k: real, g': real, push: Vec)
    requires |e| == |b| == |push| && Zero(push) && InBox(e) && InBox(b)
    requires 0.0 <= g <= 1.0 && 0.0 <= k <= 1.0 && g' == g * k
    ensures Settled(Decay(e, b, g), b, k, push) == Decay(e, b, g')
  {
    UnitProduct(g, k);
    DecayStaysInBox(e, b, g');
    forall i | 0 <= i < |e| ensures Settled(Decay(e, b, g), b, k, push)[i] == Decay(e, b, g')[i] {
      DecayTwice(e[i], b[i], g, k);
    }
  }

  lemma QuietPush(m: Matrix, g: Vec)
    requires m.Valid() && |g| == |m.rows| && Zero(g)
    ensures Zero(MulVec(m.rows, g))
  {
    forall i | 0 <= i < |g| ensures MulVec(m.rows, g)[i] == 0.0 {
      DotWithZeros(m.rows[i], g);
    }
  }

  lemma QuietTurn(a: Engine, e: Vec, t: Turn, e': Vec, e0: Vec, gain: real, k: real, gain': real)
    requires DecayLike(a.factor) && Advancing(a)(e, t, e') && Zero(t.trigger) && k == TurnFactor(a, t)
             && gain' == gain * k
    requires InBox(e0) && InBox(a.baseline) && |e0| == |a.baseline| && 0.0 <= gain <= 1.0
             && e == Decay(e0, a.baseline, gain)
    ensures 0.0 <= gain' <= 1.0 && e' == Decay(e0, a.baseline, gain')
  {
    TurnShape(a, e, t, e');
    UnitProduct(gain, k);
    QuietPush(a.matrix, t.trigger);
    SettledQuiet(e0, a.baseline, gain, k, gain', MulVec(a.matrix.rows, t.trigger));
  }

  lemma DecayByOne(e: Vec, b: Vec)
    requires |e| == |b|
    ensures Decay(e, b, 1.0) == e
  {
  }

  /** A run from inside the box with no triggers at all. */
  ghost predicate IsQuietRun(a: Engine, es: seq<Vec>, turns: seq<Turn>) {
    && IsRun(a, es, turns)
    && InBox(es[0]) && InBox(a.baseline) && |es[0]| == |a.baseline|
    && forall t :: t in turns ==> Zero(t.trigger)
  }

  /** The emotion after n turns is the first one decayed by `gain`. */
  ghost predicate DecayedBy(a: Engine, es: seq<Vec>, n: nat, gain: real) {
    && n < |es| && |es[0]| == |a.baseline|
    && 0.0 <= gain <= 1.0
    && es[n] == Decay(es[0], a.baseline, gain)
  }

  /** Without triggers, and inside the box, n turns are one decay by the product of their factors: the
      clamp never acts. */
  lemma {:induction false} QuietRunIsOneDecay(a: Engine, es: seq<Vec>, turns: seq<Turn>, n: nat)
    requires IsQuietRun(a, es, turns) && DecayLike(a.factor) && n <= |turns|
    ensures DecayedBy(a, es, n, Gain(Factors(a, turns), n))
  {
    var ks := Factors(a, turns);
    if n == 0 {
      QuietStart(a, es, turns);
    } else {
      QuietRunIsOneDecay(a, es, turns, n - 1);
      QuietStep(a, es, turns, n - 1, ks[n - 1], Gain(ks, n - 1), Gain(ks, n));
    }
  }

  lemma QuietStart(a: Engine, es: seq<Vec>, turns: seq<Turn>)
    requires IsQuietRun(a, es, turns)
    ensures DecayedBy(a, es, 0, 1.0)
  {
    DecayByOne(es[0], a.baseline);
  }

  lemma QuietStep(a: Engine, es: seq<Vec>, turns: seq<Turn>, n: nat, k: real, gain: real, gain': real)
    requires IsQuietRun(a, es, turns) && DecayLike(a.factor) && n < |turns| && k == TurnFactor(a, turns[n])
    requires gain' == gain * k && DecayedBy(a, es, n, gain)
    ensures DecayedBy(a, es, n + 1, gain')
  {
    assert turns[n] in turns;
    QuietTurn(a, es[n], turns[n], es[n + 1], es[0], gain, k, gain');
  }
}
