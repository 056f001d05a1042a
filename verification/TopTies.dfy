/**
  Ties at the top. The first n of a set are one list exactly when nothing that ties with something else
  comes early enough to be among them; and for each element there is a list that has it as early, and one
  that has it as late, as its ties allow.
*/
module TopTies {
  import opened FiniteSets
  import opened StableSorting
  import opened Places
  import opened TopN

  predicate Tie<T>(x: T, y: T, less: (T, T) -> bool) {
    !less(x, y) && !less(y, x)
  }

  /** What comes strictly before x. */
  ghost function Before<T>(all: set<T>, x: T, less: (T, T) -> bool): set<T> {
    set y | y in all && less(y, x)
  }

  /** What does not come after x: what comes before it and what ties with it. */
  ghost function UpTo<T>(all: set<T>, x: T, less: (T, T) -> bool): set<T> {
    set y | y in all && !less(x, y)
  }

  ghost predicate IsTopOf<T>(w: seq<T>, all: set<T>, n: nat, less: (T, T) -> bool) {
    IsTop(w, multiset(all), n, less)
  }

  /** Nothing that ties with something else comes among the first n. */
  ghost predicate NoTieAtTop<T(!new)>(all: set<T>, n: nat, less: (T, T) -> bool) {
    forall x, y :: x in all && y in all && x != y && Tie(x, y, less) ==> |Before(all, x, less)| >= n
  }

  ghost predicate OneTop<T(!new)>(all: set<T>, n: nat, less: (T, T) -> bool) {
    forall w, v :: IsTopOf(w, all, n, less) && IsTopOf(v, all, n, less) ==> w == v
  }

  // ---------------------------------------------------------------- Lists of a set

  lemma TopDistinct<T>(w: seq<T>, all: set<T>, n: nat, less: (T, T) -> bool)
    requires IsTopOf(w, all, n, less)
    ensures Distinct(w) && Elements(w) <= all
  {
    forall i, j | 0 <= i < j < |w| ensures w[i] != w[j] {
      assert multiset(w)[w[i]] <= multiset(all)[w[i]] <= 1;
      if w[i] == w[j] {
        TwiceIfRepeated(w, i, j);
      }
    }
    forall x | x in w ensures x in all {
      assert x in multiset(w);
    }
  }

  lemma LeftOut<T>(w: seq<T>, all: set<T>, n: nat, less: (T, T) -> bool, x: T, y: T)
    requires IsTopOf(w, all, n, less) && x in all && x !in w && y in w
    ensures !less(x, y) && |w| == n
  {
    assert x !in multiset(w);
    assert x in multiset(all) - multiset(w);
    assert |multiset(all) - multiset(w)| == |all| - |w|;
  }

  lemma {:induction false} PrefixDistinct<T>(w: seq<T>, i: nat)
    requires Distinct(w) && i <= |w|
    ensures |Elements(w[..i])| == i
  {
    DistinctSize(w[..i]);
  }

  /** What comes strictly before an element of the list stands in front of it. */
  lemma BeforeInFront<T(!new)>(w: seq<T>, all: set<T>, n: nat, less: (T, T) -> bool, i: nat)
    requires StrictWeakOrder(less) && IsTopOf(w, all, n, less) && i < |w|
    ensures Before(all, w[i], less) <= Elements(w[..i]) && |Before(all, w[i], less)| <= i
  {
    forall x | x in all && less(x, w[i]) ensures x in w[..i] {
      if x !in w {
        LeftOut(w, all, n, less, x, w[i]);
      }
      var j :| 0 <= j < |w| && w[j] == x;
      assert j < i;
    }
    TopDistinct(w, all, n, less);
    PrefixDistinct(w, i);
    SubsetSize(Before(all, w[i], less), Elements(w[..i]));
  }

  // ---------------------------------------------------------------- No ties, one list

  lemma NotBefore<T(!new)>(w: seq<T>, v: seq<T>, all: set<T>, n: nat, less: (T, T) -> bool, i: nat)
    requires StrictWeakOrder(less) && IsTopOf(w, all, n, less) && IsTopOf(v, all, n, less)
    requires i < |w| == |v| && w[..i] == v[..i]
    ensures !less(v[i], w[i])
  {
    TopDistinct(v, all, n, less);
    assert v[i] in v;
    assert forall k :: 0 <= k < i ==> w[..i][k] == w[k] && v[..i][k] == v[k];
    if v[i] !in w {
      LeftOut(w, all, n, less, v[i], w[i]);
    } else {
      var j :| 0 <= j < |w| && w[j] == v[i];
      assert j >= i;
    }
  }

  lemma SameAt<T(!new)>(w: seq<T>, v: seq<T>, all: set<T>, n: nat, less: (T, T) -> bool, i: nat)
    requires StrictWeakOrder(less) && IsTopOf(w, all, n, less) && IsTopOf(v, all, n, less) && NoTieAtTop(all, n, less)
    requires i < |w| == |v| && w[..i] == v[..i]
    ensures w[i] == v[i]
  {
    NotBefore(w, v, all, n, less, i);
    NotBefore(v, w, all, n, less, i);
    BeforeInFront(w, all, n, less, i);
    TopDistinct(w, all, n, less);
    TopDistinct(v, all, n, less);
    assert w[i] in Elements(w) && v[i] in Elements(v);
  }

  lemma {:induction false} SamePrefix<T(!new)>(w: seq<T>, v: seq<T>, all: set<T>, n: nat, less: (T, T) -> bool, i: nat)
    requires StrictWeakOrder(less) && IsTopOf(w, all, n, less) && IsTopOf(v, all, n, less) && NoTieAtTop(all, n, less)
    requires i <= |w|
    ensures |v| == |w| && w[..i] == v[..i]
  {
    if i > 0 {
      SamePrefix(w, v, all, n, less, i - 1);
      SameAt(w, v, all, n, less, i - 1);
      assert w[..i] == w[..i - 1] + [w[i - 1]] && v[..i] == v[..i - 1] + [v[i - 1]];
    }
  }

  lemma NoTieOneTop<T(!new)>(all: set<T>, n: nat, less: (T, T) -> bool)
    requires StrictWeakOrder(less) && NoTieAtTop(all, n, less)
    ensures OneTop(all, n, less)
  {
    forall w, v | IsTopOf(w, all, n, less) && IsTopOf(v, all, n, less) ensures w == v {
      SamePrefix(w, v, all, n, less, |w|);
      assert w[..|w|] == w && v[..|v|] == v;
    }
  }

  // ---------------------------------------------------------------- Lists with chosen places

  lemma BeforeOneMore<T>(all: set<T>, z: T, x: T, less: (T, T) -> bool)
    requires z !in all
    ensures |Before(all + {z}, x, less)| == |Before(all, x, less)| + if less(z, x) then 1 else 0
  {
    assert Before(all + {z}, x, less) == Before(all, x, less) + if less(z, x) then {z} else {};
  }

  lemma {:induction false} CountIsSize<T>(s: seq<T>, x: T, less: (T, T) -> bool)
    requires Distinct(s)
    ensures CountLess(s, x, less) == |Before(Elements(s), x, less)|
  {
    if s != [] {
      var rest := s[1..];
      assert forall i :: 0 <= i < |rest| ==> rest[i] == s[i + 1];
      CountIsSize(rest, x, less);
      assert s[0] !in rest;
      BeforeOneMore(Elements(rest), s[0], x, less);
      assert Elements(s) == Elements(rest) + {s[0]};
    }
  }

  /** Sorting a listing of the set and cutting it. */
  lemma SortedListing<T(!new)>(s: seq<T>, all: set<T>, n: nat, less: (T, T) -> bool) returns (w: seq<T>)
    requires StrictWeakOrder(less) && Distinct(s) && Elements(s) == all
    ensures |Sort(s, less)| == |s| == |all| && w == Sort(s, less)[..Min(n, |s|)] && IsTopOf(w, all, n, less)
  {
    DistinctSize(s);
    SortOrdered(s, less);
    SortPermutes(s, less);
    CutIsTop(Sort(s, less), multiset(all), n, less);
    w := Sort(s, less)[..Min(n, |s|)];
  }

  lemma TopExists<T(!new)>(all: set<T>, n: nat, less: (T, T) -> bool) returns (w: seq<T>)
    requires StrictWeakOrder(less)
    ensures IsTopOf(w, all, n, less)
  {
    var s := Listing(all);
    w := SortedListing(s, all, n, less);
  }

  lemma BeforeWithout<T(!new)>(all: set<T>, less: (T, T) -> bool, x: T, without: set<T>)
    requires StrictWeakOrder(less) && x in all && forall y :: y in without ==> !less(y, x)
    ensures Before(all - without, x, less) == Before(all, x, less)
  {
  }

  /** Two elements that tie can stand one behind the other, in the given order. */
  lemma TopWithPair<T(!new)>(all: set<T>, n: nat, less: (T, T) -> bool, x: T, y: T) returns (w: seq<T>, c: nat)
    requires StrictWeakOrder(less) && x in all && y in all && x != y && Tie(x, y, less)
    requires |Before(all, x, less)| < n
    ensures IsTopOf(w, all, n, less) && c == |Before(all, x, less)| < |w| && w[c] == x
    ensures c + 1 < n ==> c + 1 < |w| && w[c + 1] == y
  {
    var rest := Listing(all - {x, y});
    assert x !in Elements(rest) && y !in Elements(rest);
    var s := [x, y] + rest;
    assert Elements(s) == {x, y} + Elements(rest);
    w := SortedListing(s, all, n, less);
    c := |Before(all, x, less)|;
    PairPlaces(s, rest, x, y, less);
    BeforeWithout(all, less, x, {x, y});
    BeforeWithout(all, less, y, {x, y});
    SameBefore(all, less, x, y);
    CountIsSize(rest, x, less);
    CountIsSize(rest, y, less);
  }

  lemma SameBefore<T(!new)>(all: set<T>, less: (T, T) -> bool, x: T, y: T)
    requires StrictWeakOrder(less) && Tie(x, y, less)
    ensures Before(all, x, less) == Before(all, y, less)
  {
    forall z ensures less(z, x) <==> less(z, y) {
    }
  }

  lemma PairPlaces<T(!new)>(s: seq<T>, rest: seq<T>, x: T, y: T, less: (T, T) -> bool)
    requires StrictWeakOrder(less) && s == [x, y] + rest && Tie(x, y, less)
    ensures CountLess(rest, x, less) < |Sort(s, less)| == |s| && Sort(s, less)[CountLess(rest, x, less)] == x
    ensures CountLess(rest, y, less) + 1 < |s| && Sort(s, less)[CountLess(rest, y, less) + 1] == y
  {
    SortPlaces(s, 0, less);
    SortPlaces(s, 1, less);
    assert s[1..] == [y] + rest && ([y] + rest)[1..] == rest;
    FirstCount(s, |s|, less);
    assert s[1..|s|] == s[1..];
    AheadShift(s, 1, |s|, less);
    FirstCount(s[1..], |s| - 1, less);
    assert s[1..][1..|s| - 1] == rest;
  }

  lemma UpToOneMore<T>(all: set<T>, z: T, x: T, less: (T, T) -> bool)
    requires z !in all
    ensures |UpTo(all + {z}, x, less)| == |UpTo(all, x, less)| + if less(x, z) then 0 else 1
  {
    assert UpTo(all + {z}, x, less) == UpTo(all, x, less) + if less(x, z) then {} else {z};
  }

  lemma {:induction false} NotAfterCount<T>(s: seq<T>, x: T, less: (T, T) -> bool, n: nat)
    requires n < |s| && s[|s| - 1] == x && Distinct(s[..n])
    ensures AheadCount(s, |s| - 1, n, less) == |UpTo(Elements(s[..n]), x, less)|
  {
    if n > 0 {
      var front := s[..n - 1];
      assert s[..n] == front + [s[n - 1]] && front == s[..n][..n - 1];
      NotAfterCount(s, x, less, n - 1);
      assert s[n - 1] !in front;
      assert Elements(s[..n]) == Elements(front) + {s[n - 1]};
      UpToOneMore(Elements(front), s[n - 1], x, less);
    }
  }

  /** An element can be left out if what comes before it and what ties with it are more than n. */
  lemma TopWithout<T(!new)>(all: set<T>, n: nat, less: (T, T) -> bool, x: T) returns (w: seq<T>)
    requires StrictWeakOrder(less) && x in all && |UpTo(all, x, less)| > n
    ensures IsTopOf(w, all, n, less) && x !in w
  {
    var rest := Listing(all - {x});
    assert x !in Elements(rest);
    var s := rest + [x];
    assert Elements(s) == Elements(rest) + {x} && s[..|rest|] == rest;
    w := SortedListing(s, all, n, less);
    SortPlaces(s, |rest|, less);
    NotAfterCount(s, x, less, |rest|);
    UpToOneMore(Elements(rest), x, x, less);
    SortedDistinct(s, less);
    NotInFront(Sort(s, less), Place(s, |rest|, less), |w|);
  }

  lemma NotInFront<T>(r: seq<T>, p: nat, n: nat)
    requires Distinct(r) && n <= p < |r|
    ensures r[p] !in r[..n]
  {
  }

  lemma SortedDistinct<T>(s: seq<T>, less: (T, T) -> bool)
    requires Distinct(s)
    ensures Distinct(Sort(s, less))
  {
    DistinctSize(s);
    SortPermutes(s, less);
    var r := Sort(s, less);
    forall i, j | 0 <= i < j < |r| ensures r[i] != r[j] {
      assert multiset(r)[r[i]] <= 1;
      if r[i] == r[j] {
        TwiceIfRepeated(r, i, j);
      }
    }
  }

  /** An element that cannot be left out is in every list. */
  lemma TopHas<T(!new)>(w: seq<T>, all: set<T>, n: nat, less: (T, T) -> bool, x: T)
    requires StrictWeakOrder(less) && IsTopOf(w, all, n, less) && x in all && |UpTo(all, x, less)| <= n
    ensures x in w
  {
    TopDistinct(w, all, n, less);
    DistinctSize(w);
    if x !in w {
      forall y | y in w ensures y in UpTo(all, x, less) {
        LeftOut(w, all, n, less, x, y);
        assert y in Elements(w);
      }
      SubsetSize(Elements(w) + {x}, UpTo(all, x, less));
      if w != [] {
        LeftOut(w, all, n, less, x, w[0]);
      } else {
        EmptyTop(w, all, n, less, x);
      }
    }
  }

  lemma EmptyTop<T>(w: seq<T>, all: set<T>, n: nat, less: (T, T) -> bool, x: T)
    requires IsTopOf(w, all, n, less) && w == [] && x in all
    ensures n == 0
  {
    SubsetSize({x}, all);
  }

  /** What has n elements before it comes after every list. */
  lemma AfterTop<T(!new)>(w: seq<T>, all: set<T>, n: nat, less: (T, T) -> bool, x: T, y: T)
    requires StrictWeakOrder(less) && IsTopOf(w, all, n, less) && |Before(all, x, less)| >= n && y in w
    ensures less(y, x)
  {
    TopDistinct(w, all, n, less);
    DistinctSize(w);
    var rest := Elements(w) - {y};
    assert |rest| == |w| - 1 < n;
    if Before(all, x, less) <= rest {
      SubsetSize(Before(all, x, less), rest);
    }
    var z :| z in Before(all, x, less) && z !in rest;
    if z != y {
      LeftOut(w, all, n, less, z, y);
    }
  }

  /** Adding to a list's own elements what comes after all of them leaves it the first n. */
  lemma TopAmong<T(!new)>(w: seq<T>, all: set<T>, n: nat, less: (T, T) -> bool, more: set<T>)
    requires StrictWeakOrder(less) && IsTopOf(w, all, n, less)
    requires forall x, y :: x in more && y in w ==> less(y, x)
    requires more != {} ==> |w| == n
    ensures IsTopOf(w, Elements(w) + more, n, less)
  {
    TopDistinct(w, all, n, less);
    DistinctSize(w);
    SubsetSize(Elements(w), Elements(w) + more);
    assert multiset(w) <= multiset(Elements(w) + more);
    forall x, y | x in multiset(Elements(w) + more) - multiset(w) && y in w ensures !less(x, y) {
      assert x !in multiset(w);
      assert x in more;
    }
    assert more == {} ==> Elements(w) + more == Elements(w);
  }

  // ---------------------------------------------------------------- One list, exactly

  /** The first n of a set are one list exactly if nothing that ties with something else comes among them. */
  lemma OneTopExactly<T(!new)>(all: set<T>, n: nat, less: (T, T) -> bool)
    requires StrictWeakOrder(less)
    ensures OneTop(all, n, less) <==> NoTieAtTop(all, n, less)
  {
    if NoTieAtTop(all, n, less) {
      NoTieOneTop(all, n, less);
    } else {
      var x, y :| x in all && y in all && x != y && Tie(x, y, less) && |Before(all, x, less)| < n;
      SameBefore(all, less, x, y);
      var w, c := TopWithPair(all, n, less, x, y);
      var v, d := TopWithPair(all, n, less, y, x);
      assert w[c] != v[c];
    }
  }
}
