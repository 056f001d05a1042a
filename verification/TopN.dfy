/**
  The first n elements of a collection in a given order: what sorting and cutting leaves, independently
  of how the collection was listed or how often it was cut on the way. Also the lexicographic order of
  strings.
*/
module TopN {
  import opened StableSorting

  // ---------------------------------------------------------------- Strings

  predicate LexLess(a: string, b: string) {
    if b == "" then false
    else if a == "" then true
    else if a[0] != b[0] then a[0] < b[0]
    else LexLess(a[1..], b[1..])
  }

  /** The texts agree up to place k, and there the first ends or has the smaller character. */
  ghost predicate DifferAt(a: string, b: string, k: nat) {
    && k <= |a| && k < |b| && a[..k] == b[..k]
    && (k == |a| || a[k] < b[k])
  }

  lemma {:induction false} LexExactly(a: string, b: string)
    ensures LexLess(a, b) <==> exists k :: DifferAt(a, b, k)
  {
    if a == "" || b == "" {
      if b != "" { assert DifferAt(a, b, 0); }
    } else if a[0] != b[0] {
      if a[0] < b[0] { assert DifferAt(a, b, 0); }
      forall k: nat | DifferAt(a, b, k) ensures a[0] < b[0] {
        if k > 0 { assert a[..k][0] == b[..k][0]; }
      }
    } else {
      LexExactly(a[1..], b[1..]);
      forall k: nat | DifferAt(a[1..], b[1..], k) ensures DifferAt(a, b, k + 1) {
        assert a[..k + 1] == [a[0]] + a[1..][..k] && b[..k + 1] == [b[0]] + b[1..][..k];
      }
      forall k: nat | DifferAt(a, b, k) ensures k > 0 && DifferAt(a[1..], b[1..], k - 1) {
        assert a[..k][1..] == a[1..][..k - 1] && b[..k][1..] == b[1..][..k - 1];
      }
    }
  }

  lemma {:induction false} LexAsymmetric(a: string, b: string)
    ensures LexLess(a, b) ==> !LexLess(b, a)
  {
    if a != "" && b != "" && a[0] == b[0] {
      LexAsymmetric(a[1..], b[1..]);
    }
  }

  lemma {:induction false} LexTotal(a: string, b: string)
    ensures a == b || LexLess(a, b) || LexLess(b, a)
  {
    if a != "" && b != "" && a[0] == b[0] {
      LexTotal(a[1..], b[1..]);
      assert a == [a[0]] + a[1..] && b == [b[0]] + b[1..];
    }
  }

  lemma {:induction false} LexTransitive(a: string, b: string, c: string)
    requires LexLess(a, b) && LexLess(b, c)
    ensures LexLess(a, c)
  {
    if a != "" && a[0] == b[0] == c[0] {
      LexTransitive(a[1..], b[1..], c[1..]);
    }
  }

  /** "Not before" is transitive too. */
  lemma LexNotBefore(a: string, b: string, c: string)
    requires !LexLess(b, a) && !LexLess(c, b)
    ensures !LexLess(c, a)
  {
    LexTotal(a, b);
    LexTotal(b, c);
    LexAsymmetric(c, a);
    if a != b && b != c {
      LexTransitive(a, b, c);
    }
  }

  // ---------------------------------------------------------------- The first n

  function Min(a: nat, b: nat): nat { if a < b then a else b }

  /** w is in order, has n elements of `all` (or all there are), and nothing that was left out comes
      before anything that was kept. */
  ghost predicate IsTop<T>(w: seq<T>, all: multiset<T>, n: nat, less: (T, T) -> bool) {
    && Ordered(w, less)
    && |w| == Min(n, |all|)
    && multiset(w) <= all
    && forall x, y {:trigger less(x, y)} :: x in all - multiset(w) && y in w ==> !less(x, y)
  }

  /** Library sorting that need not keep ties in order. */
  method SortAny<T(!new)>(s: seq<T>, less: (T, T) -> bool) returns (r: seq<T>)
    requires StrictWeakOrder(less)
    ensures Ordered(r, less) && multiset(r) == multiset(s) && |r| == |s|
  {
    SortOrdered(s, less);
    SortPermutes(s, less);
    r := Sort(s, less);
  }

  lemma SplitMultiset<T>(r: seq<T>, n: nat)
    requires n <= |r|
    ensures multiset(r) == multiset(r[..n]) + multiset(r[n..])
  {
    assert r == r[..n] + r[n..];
  }

  lemma CutLeaves<T>(r: seq<T>, n: nat, x: T)
    requires n <= |r| && x in multiset(r) - multiset(r[..n])
    ensures x in r[n..]
  {
    SplitMultiset(r, n);
    assert multiset(r) - multiset(r[..n]) == multiset(r[n..]);
    assert x in multiset(r[n..]);
  }

  /** Sorting and cutting gives the first n. */
  lemma CutIsTop<T>(r: seq<T>, all: multiset<T>, n: nat, less: (T, T) -> bool)
    requires Ordered(r, less) && multiset(r) == all
    ensures IsTop(r[..Min(n, |r|)], all, n, less)
  {
    var k := Min(n, |r|);
    SplitMultiset(r, k);
    assert |multiset(r)| == |r|;
    forall x, y | x in all - multiset(r[..k]) && y in r[..k] ensures !less(x, y) {
      CutLeaves(r, k, x);
      var i :| 0 <= i < k && r[..k][i] == y;
      var j :| 0 <= j < |r| - k && r[k..][j] == x;
      assert r[i] == y && r[k + j] == x;
    }
  }

  /** Elements left out before the push stay behind whatever is kept after it. */
  lemma LeftOutStaysOut<T(!new)>(w: seq<T>, e: T, all: multiset<T>, w': seq<T>, n: nat, less: (T, T) -> bool, x: T,
                                 y: T)
    requires StrictWeakOrder(less) && IsTop(w, all, n, less) && IsTop(w', multiset(w) + multiset{e}, n, less)
    requires x in all - multiset(w) && y in w'
    ensures !less(x, y)
  {
    assert |all - multiset(w)| == |all| - |w|;
    assert |w| == n == |w'|;
    var dropped := multiset(w) + multiset{e} - multiset(w');
    assert |dropped| == 1;
    assert y in multiset(w');
    if y !in w {
      assert y == e;
      var d :| d in dropped;
      assert d in w;
      assert !less(d, y) && !less(x, d);
    }
  }

  lemma MultisetSteps<T>(w: multiset<T>, e: T, all: multiset<T>, w': multiset<T>, x: T)
    requires w <= all && w' <= w + multiset{e} && x in all + multiset{e} - w'
    ensures x in all - w || x in w + multiset{e} - w'
  {
  }

  /** Cutting as one goes: the first n of (the first n so far and one more) are the first n of all. */
  lemma TopPush<T(!new)>(w: seq<T>, e: T, all: multiset<T>, w': seq<T>, n: nat, less: (T, T) -> bool)
    requires StrictWeakOrder(less) && IsTop(w, all, n, less) && IsTop(w', multiset(w) + multiset{e}, n, less)
    ensures IsTop(w', all + multiset{e}, n, less)
  {
    forall x, y | x in all + multiset{e} - multiset(w') && y in w' ensures !less(x, y) {
      MultisetSteps(multiset(w), e, all, multiset(w'), x);
      if x in all - multiset(w) {
        LeftOutStaysOut(w, e, all, w', n, less, x, y);
      }
    }
  }

  // ---------------------------------------------------------------- Uniqueness

  /** No two different elements tie. */
  ghost predicate Total<T(!new)>(all: multiset<T>, less: (T, T) -> bool) {
    forall x, y :: x in all && y in all && x != y ==> less(x, y) || less(y, x)
  }

  lemma SameFirst<T(!new)>(r: seq<T>, q: seq<T>, less: (T, T) -> bool)
    requires Ordered(r, less) && Ordered(q, less) && r != [] && q != []
    requires r[0] in q && q[0] in r && Total(multiset(r), less)
    ensures r[0] == q[0]
  {
    assert r[0] in multiset(r) && q[0] in multiset(r);
  }

  lemma WithoutFirst<T(!new)>(r: seq<T>, less: (T, T) -> bool)
    requires r != [] && Ordered(r, less) && Total(multiset(r), less)
    ensures multiset(r[1..]) == multiset(r) - multiset{r[0]}
    ensures Ordered(r[1..], less) && Total(multiset(r[1..]), less)
  {
    assert r == [r[0]] + r[1..];
    assert multiset(r[1..]) <= multiset(r);
  }

  lemma {:induction false} OrderedSame<T(!new)>(r: seq<T>, q: seq<T>, less: (T, T) -> bool)
    requires Ordered(r, less) && Ordered(q, less)
    requires multiset(r) == multiset(q) && Total(multiset(r), less)
    ensures r == q
  {
    if r == [] || q == [] {
      assert |multiset(r)| == |r| && |multiset(q)| == |q|;
    } else {
      assert r[0] in multiset(q) && q[0] in multiset(r);
      SameFirst(r, q, less);
      WithoutFirst(r, less);
      WithoutFirst(q, less);
      OrderedSame(r[1..], q[1..], less);
      FirstAndRest(r);
      FirstAndRest(q);
    }
  }

  lemma FirstAndRest<T>(r: seq<T>)
    requires r != []
    ensures r == [r[0]] + r[1..]
  {
  }

  lemma NoLarger<T>(a: multiset<T>, b: multiset<T>)
    requires |a| == |b| && a <= b
    ensures a == b
  {
    assert |b - a| == 0;
    assert b == a + (b - a);
  }

  /** What one first-n keeps and the other leaves out cannot differ from what the other keeps and the one
      leaves out. */
  lemma Exchange<T(!new)>(w: seq<T>, v: seq<T>, all: multiset<T>, n: nat, less: (T, T) -> bool, x: T, y: T)
    requires IsTop(w, all, n, less) && IsTop(v, all, n, less) && Total(all, less)
    requires x in w && x in all - multiset(v) && y in v && y in all - multiset(w)
    ensures x == y
  {
    assert !less(y, x) && !less(x, y);
  }

  /** Of two different collections of one size, each has something more often than the other. */
  lemma Surplus<T>(a: multiset<T>, b: multiset<T>) returns (x: T, y: T)
    requires |a| == |b| && a != b
    ensures a[x] > b[x] && b[y] > a[y]
  {
    if a <= b { NoLarger(a, b); }
    if b <= a { NoLarger(b, a); }
    x :| a[x] > b[x];
    y :| b[y] > a[y];
  }

  lemma SurplusLeftOut<T>(w: seq<T>, v: seq<T>, all: multiset<T>, x: T)
    requires multiset(w) <= all && multiset(w)[x] > multiset(v)[x]
    ensures x in w && x in all - multiset(v)
  {
    assert x in multiset(w);
  }

  lemma TopMultiset<T(!new)>(w: seq<T>, v: seq<T>, all: multiset<T>, n: nat, less: (T, T) -> bool)
    requires IsTop(w, all, n, less) && IsTop(v, all, n, less) && Total(all, less)
    ensures multiset(w) == multiset(v)
  {
    if multiset(w) != multiset(v) {
      var x, y := Surplus(multiset(w), multiset(v));
      SurplusLeftOut(w, v, all, x);
      SurplusLeftOut(v, w, all, y);
      Exchange(w, v, all, n, less, x, y);
    }
  }

  lemma TopUnique<T(!new)>(w: seq<T>, v: seq<T>, all: multiset<T>, n: nat, less: (T, T) -> bool)
    requires IsTop(w, all, n, less) && IsTop(v, all, n, less) && Total(all, less)
    ensures w == v
  {
    TopMultiset(w, v, all, n, less);
    forall x, y | x in multiset(w) && y in multiset(w) && x != y ensures less(x, y) || less(y, x) {
      assert x in all && y in all;
    }
    OrderedSame(w, v, less);
  }
}
