/** Real vectors of any dimension: inner product, squared norm, and the inequalities that the emotion
    dynamics rest on. Components are exact reals. */
module Vectors {
  type Vec = seq<real>

  function Abs(x: real): real {
    if x < 0.0 then -x else x
  }

  function SumOfProducts(a: Vec, b: Vec): real
    requires |a| == |b|
  {
    if a == [] then 0.0 else a[0] * b[0] + SumOfProducts(a[1..], b[1..])
  }

  /** The inner product. It has a name apart from its recursion so that proofs about products do not unfold it. */
  function Dot(a: Vec, b: Vec): real
    requires |a| == |b|
  {
    SumOfProducts(a, b)
  }

  function NormSq(a: Vec): real {
    Dot(a, a)
  }

  function Add(a: Vec, b: Vec): Vec
    requires |a| == |b|
  {
    seq(|a|, i requires 0 <= i < |a| => a[i] + b[i])
  }

  function Sub(a: Vec, b: Vec): Vec
    requires |a| == |b|
  {
    seq(|a|, i requires 0 <= i < |a| => a[i] - b[i])
  }

  /** t a - s b */
  function Combination(a: Vec, b: Vec, t: real, s: real): Vec
    requires |a| == |b|
  {
    if a == [] then [] else [t * a[0] - s * b[0]] + Combination(a[1..], b[1..], t, s)
  }

  lemma {:induction false} NormSqNonNegative(a: Vec)
    ensures NormSq(a) >= 0.0
  {
    if a != [] {
      NormSqNonNegative(a[1..]);
      assert a[0] * a[0] >= 0.0;
    }
  }

  lemma NormSqCons(x: real, v: Vec)
    ensures NormSq([x] + v) == x * x + NormSq(v)
  {
    assert ([x] + v)[1..] == v;
  }

  lemma {:induction false} ComponentBelowNorm(a: Vec, i: nat)
    requires i < |a|
    ensures a[i] * a[i] <= NormSq(a)
  {
    NormSqNonNegative(a[1..]);
    if i > 0 {
      assert a[0] * a[0] >= 0.0;
      ComponentBelowNorm(a[1..], i - 1);
    }
  }

  /** Componentwise smaller in size, smaller in norm. */
  lemma {:induction false} NormSqMonotone(a: Vec, b: Vec)
    requires |a| == |b|
    requires forall i :: 0 <= i < |a| ==> Abs(a[i]) <= Abs(b[i])
    ensures NormSq(a) <= NormSq(b)
  {
    if a != [] {
      SquareMonotone(a[0], b[0]);
      assert forall i :: 0 <= i < |a[1..]| ==> a[1..][i] == a[i + 1] && b[1..][i] == b[i + 1];
      NormSqMonotone(a[1..], b[1..]);
    }
  }

  lemma {:induction false} NormSqOfCombination(a: Vec, b: Vec, t: real, s: real)
    requires |a| == |b|
    ensures |Combination(a, b, t, s)| == |a|
    ensures NormSq(Combination(a, b, t, s)) == t * t * NormSq(a) - 2.0 * (t * s) * Dot(a, b) + s * s * NormSq(b)
  {
    if a != [] {
      NormSqOfCombination(a[1..], b[1..], t, s);
      var rest := Combination(a[1..], b[1..], t, s);
      assert Combination(a, b, t, s) == [t * a[0] - s * b[0]] + rest;
      NormSqCons(t * a[0] - s * b[0], rest);
      OneMoreSquare(a[0], b[0], t, s, NormSq(a[1..]), Dot(a[1..], b[1..]), NormSq(b[1..]));
    }
  }

  lemma SquareOfDifference(x: real, y: real, t: real, s: real)
    ensures (t * x - s * y) * (t * x - s * y) == t * t * (x * x) - 2.0 * (t * s) * (x * y) + s * s * (y * y)
  {
  }

  lemma OneMoreSquare(x: real, y: real, t: real, s: real, A: real, P: real, B: real)
    ensures (t * x - s * y) * (t * x - s * y) + (t * t * A - 2.0 * (t * s) * P + s * s * B)
         == t * t * (x * x + A) - 2.0 * (t * s) * (x * y + P) + s * s * (y * y + B)
  {
    SquareOfDifference(x, y, t, s);
    DistributeLeft(t * t, x * x, A);
    DistributeLeft(2.0 * (t * s), x * y, P);
    DistributeLeft(s * s, y * y, B);
  }

  lemma DistributeLeft(c: real, x: real, y: real)
    ensures c * (x + y) == c * x + c * y
  {
  }

  lemma Distribute(x: real, y: real, c: real)
    ensures (x + y) * c == x * c + y * c
  {
  }

  lemma PositiveProduct(x: real, y: real)
    requires x > 0.0 && y > 0.0
    ensures x * y > 0.0
  {
  }

  lemma {:induction false} DotWithZeroNorm(a: Vec, b: Vec)
    requires |a| == |b| && NormSq(b) == 0.0
    ensures Dot(a, b) == 0.0
  {
    if a != [] {
      NormSqNonNegative(b[1..]);
      assert b[0] * b[0] >= 0.0;
      SquareBound(b[0], 0.0);
      DotWithZeroNorm(a[1..], b[1..]);
    }
  }

  /** Cauchy-Schwarz. */
  lemma CauchySchwarz(a: Vec, b: Vec)
    requires |a| == |b|
    ensures Dot(a, b) * Dot(a, b) <= NormSq(a) * NormSq(b)
  {
    var A, B, P := NormSq(a), NormSq(b), Dot(a, b);
    NormSqNonNegative(a);
    NormSqNonNegative(b);
    if B == 0.0 {
      DotWithZeroNorm(a, b);
    } else {
      NormSqOfCombination(a, b, B, P);
      NormSqNonNegative(Combination(a, b, B, P));
      assert B * B * A - 2.0 * (B * P) * P + P * P * B == B * (A * B - P * P);
      if A * B - P * P < 0.0 {
        PositiveProduct(B, P * P - A * B);
      }
    }
  }

  lemma SquareBound(x: real, m: real)
    requires m >= 0.0 && x * x <= m * m
    ensures Abs(x) <= m
  {
    var y := Abs(x);
    assert y * y == x * x;
    assert (y - m) * (y + m) == y * y - m * m;
    if y > m {
      PositiveProduct(y - m, y + m);
    }
  }

  lemma NonNegativeProduct(x: real, y: real)
    requires x >= 0.0 && y >= 0.0
    ensures x * y >= 0.0
  {
  }

  lemma ScaleMonotone(x: real, y: real, c: real)
    requires x <= y && c >= 0.0
    ensures x * c <= y * c
  {
    NonNegativeProduct(y - x, c);
  }

  /** A factor of at most one does not enlarge. */
  lemma ProductBelow(x: real, y: real, p: real)
    requires x <= 1.0 && y >= 0.0 && p == x * y
    ensures p <= y
  {
    NonNegativeProduct(1.0 - x, y);
    assert (1.0 - x) * y == y - x * y;
  }

  lemma SquareMonotone(x: real, y: real)
    requires Abs(x) <= Abs(y)
    ensures x * x <= y * y
  {
    var a, b := Abs(x), Abs(y);
    NonNegativeProduct(b - a, b + a);
    assert (b - a) * (b + a) == b * b - a * a;
  }

  /** A point between two points of [-1, 1] is in [-1, 1]. */
  lemma Convex(x: real, y: real, k: real)
    requires -1.0 <= x <= 1.0 && -1.0 <= y <= 1.0 && 0.0 <= k <= 1.0
    ensures -1.0 <= y + (x - y) * k <= 1.0
  {
    NonNegativeProduct(1.0 - x, k);
    NonNegativeProduct(1.0 - y, 1.0 - k);
    NonNegativeProduct(1.0 + x, k);
    NonNegativeProduct(1.0 + y, 1.0 - k);
    assert (1.0 - x) * k + (1.0 - y) * (1.0 - k) == 1.0 - (y + (x - y) * k);
    assert (1.0 + x) * k + (1.0 + y) * (1.0 - k) == 1.0 + (y + (x - y) * k);
  }

  lemma AbsProduct(x: real, k: real)
    requires k >= 0.0
    ensures Abs(x * k) == Abs(x) * k
  {
    NonNegativeProduct(Abs(x), k);
  }

  /** A component cut to [-1, 1]. */
  function Clamp1(x: real): real {
    if x < -1.0 then -1.0 else if x > 1.0 then 1.0 else x
  }

  function Power(k: real, n: nat): real {
    if n == 0 then 1.0 else k * Power(k, n - 1)
  }

  lemma {:induction false} DotWithZeros(a: Vec, z: Vec)
    requires |a| == |z| && forall i :: 0 <= i < |z| ==> z[i] == 0.0
    ensures Dot(a, z) == 0.0
  {
    if a != [] {
      DotWithZeros(a[1..], z[1..]);
    }
  }

  lemma Cancel(x: real, y: real, c: real)
    requires c > 0.0 && x * c == y * c
    ensures x == y
  {
    assert (x - y) * c == 0.0;
    if x > y {
      PositiveProduct(x - y, c);
    } else if x < y {
      PositiveProduct(y - x, c);
    }
  }

  lemma ComponentBelow(v: Vec, i: nat, M: real)
    requires i < |v| && NormSq(v) <= M * M && M >= 0.0
    ensures Abs(v[i]) <= M
  {
    ComponentBelowNorm(v, i);
    SquareBound(v[i], M);
  }

  // ---------------------------------------------------------------- Sums

  /** ps[k] is the sum of the first k terms. */
  ghost predicate PartialSums(terms: Vec, ps: Vec) {
    && |ps| == |terms| + 1 && ps[0] == 0.0
    && forall k :: 0 <= k < |terms| ==> ps[k + 1] == ps[k] + terms[k]
  }

  /** Added up one after the other, the terms give the total. */
  ghost predicate SumsTo(terms: Vec, total: real) {
    exists ps :: PartialSums(terms, ps) && ps[|terms|] == total
  }

  lemma {:induction false} PartialSumsAgree(terms: Vec, ps: Vec, qs: Vec, n: nat)
    requires PartialSums(terms, ps) && PartialSums(terms, qs) && n <= |terms|
    ensures ps[n] == qs[n]
  {
    if n > 0 {
      PartialSumsAgree(terms, ps, qs, n - 1);
      assert ps[n - 1 + 1] == ps[n - 1] + terms[n - 1] && qs[n - 1 + 1] == qs[n - 1] + terms[n - 1];
    }
  }

  /** There is one total. */
  lemma SumUnique(terms: Vec, x: real, y: real)
    requires SumsTo(terms, x) && SumsTo(terms, y)
    ensures x == y
  {
    var ps :| PartialSums(terms, ps) && ps[|terms|] == x;
    var qs :| PartialSums(terms, qs) && qs[|terms|] == y;
    PartialSumsAgree(terms, ps, qs, |terms|);
  }

  lemma NoTerms()
    ensures SumsTo([], 0.0)
  {
    assert PartialSums([], [0.0]);
  }

  lemma OneMoreTerm(terms: Vec, total: real, t: real)
    requires SumsTo(terms, total)
    ensures SumsTo(terms + [t], total + t)
  {
    var ps :| PartialSums(terms, ps) && ps[|terms|] == total;
    assert PartialSums(terms + [t], ps + [total + t]);
  }

  lemma {:induction false} SumOfBoth(a: Vec, x: real, b: Vec, y: real)
    requires SumsTo(a, x) && SumsTo(b, y)
    ensures SumsTo(a + b, x + y)
  {
    if b == [] {
      NoTerms();
      SumUnique(b, y, 0.0);
      assert a + b == a;
    } else {
      var front, last := b[..|b| - 1], b[|b| - 1];
      var ps :| PartialSums(b, ps) && ps[|b|] == y;
      assert PartialSums(front, ps[..|b|]) && ps[|b| - 1 + 1] == ps[|b| - 1] + last;
      SumOfBoth(a, x, front, ps[|b| - 1]);
      OneMoreTerm(a + front, x + ps[|b| - 1], last);
      assert b == front + [last] && a + b == (a + front) + [last];
    }
  }

  function Products(a: Vec, b: Vec): Vec
    requires |a| == |b|
  {
    seq(|a|, i requires 0 <= i < |a| => a[i] * b[i])
  }

  lemma ProductsOfBoth(a: Vec, b: Vec, c: Vec, d: Vec)
    requires |a| == |b| && |c| == |d|
    ensures Products(a + c, b + d) == Products(a, b) + Products(c, d)
  {
    forall i | 0 <= i < |a| + |c| ensures Products(a + c, b + d)[i] == (Products(a, b) + Products(c, d))[i] {
      if i < |a| {
        assert (a + c)[i] == a[i] && (b + d)[i] == b[i];
      } else {
        assert (a + c)[i] == c[i - |a|] && (b + d)[i] == d[i - |a|];
      }
    }
  }

  lemma OneProduct(x: real, y: real, p: real)
    requires p == x * y
    ensures Products([x], [y]) == [p]
  {
    assert Products([x], [y])[0] == p;
  }

  lemma FirstProduct(a: Vec, b: Vec)
    requires |a| == |b| && a != []
    ensures Products(a, b) == [a[0] * b[0]] + Products(a[1..], b[1..])
  {
    var rest := Products(a[1..], b[1..]);
    forall i | 0 <= i < |a| ensures Products(a, b)[i] == ([a[0] * b[0]] + rest)[i] {
      if i > 0 {
        assert a[1..][i - 1] == a[i] && b[1..][i - 1] == b[i];
        assert rest[i - 1] == a[i] * b[i];
      }
    }
  }

  lemma FirstTerm(t: real, terms: Vec, total: real)
    requires SumsTo(terms, total)
    ensures SumsTo([t] + terms, t + total)
  {
    NoTerms();
    OneMoreTerm([], 0.0, t);
    assert [] + [t] == [t];
    SumOfBoth([t], 0.0 + t, terms, total);
  }

  /** The inner product adds up the products of the components. */
  lemma {:induction false} DotSums(a: Vec, b: Vec)
    requires |a| == |b|
    ensures SumsTo(Products(a, b), Dot(a, b))
  {
    if a == [] {
      NoTerms();
      assert Products(a, b) == [];
    } else {
      DotSums(a[1..], b[1..]);
      FirstProduct(a, b);
      FirstTerm(a[0] * b[0], Products(a[1..], b[1..]), Dot(a[1..], b[1..]));
    }
  }
}
