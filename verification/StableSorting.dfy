/**
  Stable sorting by a strict weak order, as the library sorts of Go (`sort.SliceStable`) and Rust
  (`sort_by`) provide it, and the facts that pin its result down: it is ordered, it is a permutation,
  elements that tie keep their order, and nothing else has these properties.
*/
module StableSorting {

  /** `less` is a strict order in which "neither is less" is transitive. */
  ghost predicate StrictWeakOrder<T(!new)>(less: (T, T) -> bool) {
    && (forall x, y :: less(x, y) ==> !less(y, x))
    && (forall x, y, z :: !less(y, x) && !less(z, y) ==> !less(z, x))
  }

  ghost predicate Ordered<T>(s: seq<T>, less: (T, T) -> bool) {
    forall i, j :: 0 <= i < j < |s| ==> !less(s[j], s[i])
  }

  function Insert<T>(x: T, s: seq<T>, less: (T, T) -> bool): seq<T> {
    if s == [] then [x]
    else if less(s[0], x) then [s[0]] + Insert(x, s[1..], less)
    else [x] + s
  }

  function Sort<T>(s: seq<T>, less: (T, T) -> bool): seq<T> {
    if s == [] then [] else Insert(s[0], Sort(s[1..], less), less)
  }

  /** The elements of s that tie with x, in order. */
  function Ties<T>(s: seq<T>, x: T, less: (T, T) -> bool): seq<T> {
    if s == [] then []
    else if !less(s[0], x) && !less(x, s[0]) then [s[0]] + Ties(s[1..], x, less)
    else Ties(s[1..], x, less)
  }

  // ---------------------------------------------------------------- Permutation

  lemma {:induction false} InsertLength<T>(x: T, s: seq<T>, less: (T, T) -> bool)
    ensures |Insert(x, s, less)| == |s| + 1
  {
    if s != [] && less(s[0], x) {
      InsertLength(x, s[1..], less);
    }
  }

  lemma {:induction false} InsertPermutes<T>(x: T, s: seq<T>, less: (T, T) -> bool)
    ensures multiset(Insert(x, s, less)) == multiset(s) + multiset{x}
  {
    if s != [] {
      assert s == [s[0]] + s[1..];
      if less(s[0], x) {
        InsertPermutes(x, s[1..], less);
      }
    }
  }

  lemma {:induction false} SortPermutes<T>(s: seq<T>, less: (T, T) -> bool)
    ensures multiset(Sort(s, less)) == multiset(s)
    ensures |Sort(s, less)| == |s|
  {
    if s != [] {
      assert s == [s[0]] + s[1..];
      SortPermutes(s[1..], less);
      InsertPermutes(s[0], Sort(s[1..], less), less);
    }
    assert |multiset(Sort(s, less))| == |multiset(s)|;
  }

  lemma SortKeepsMembers<T>(s: seq<T>, less: (T, T) -> bool, x: T)
    ensures x in Sort(s, less) <==> x in s
  {
    SortPermutes(s, less);
    assert x in multiset(Sort(s, less)) <==> x in multiset(s);
  }

  lemma TwiceIfRepeated<T>(s: seq<T>, i: nat, j: nat)
    requires i < j < |s| && s[i] == s[j]
    ensures multiset(s)[s[i]] >= 2
  {
    assert s == s[..j] + [s[j]] + s[j + 1..];
    assert s[..j][i] == s[i];
    assert s[i] in multiset(s[..j]);
  }

  // ---------------------------------------------------------------- Order

  lemma {:induction false} InsertOrdered<T(!new)>(x: T, s: seq<T>, less: (T, T) -> bool)
    requires StrictWeakOrder(less) && Ordered(s, less)
    ensures Ordered(Insert(x, s, less), less)
  {
    if s != [] && less(s[0], x) {
      InsertOrdered(x, s[1..], less);
      var r := Insert(x, s[1..], less);
      forall j | 0 <= j < |r| ensures !less(r[j], s[0]) {
        InsertPermutes(x, s[1..], less);
        assert r[j] in multiset(r);
        assert r[j] == x || r[j] in s[1..];
      }
    }
  }

  lemma {:induction false} SortOrdered<T(!new)>(s: seq<T>, less: (T, T) -> bool)
    requires StrictWeakOrder(less)
    ensures Ordered(Sort(s, less), less)
  {
    if s != [] {
      SortOrdered(s[1..], less);
      InsertOrdered(s[0], Sort(s[1..], less), less);
    }
  }

  // ---------------------------------------------------------------- Stability

  lemma {:induction false} InsertStable<T(!new)>(y: T, s: seq<T>, x: T, less: (T, T) -> bool)
    requires StrictWeakOrder(less)
    ensures Ties(Insert(y, s, less), x, less) == Ties([y] + s, x, less)
  {
    assert ([y] + s)[1..] == s;
    if s != [] && less(s[0], y) {
      InsertStable(y, s[1..], x, less);
      assert Insert(y, s, less)[1..] == Insert(y, s[1..], less);
      assert ([y] + s[1..])[1..] == s[1..];
    }
  }

  lemma {:induction false} SortStable<T(!new)>(s: seq<T>, x: T, less: (T, T) -> bool)
    requires StrictWeakOrder(less)
    ensures Ties(Sort(s, less), x, less) == Ties(s, x, less)
  {
    if s != [] {
      SortStable(s[1..], x, less);
      var r := Sort(s[1..], less);
      InsertStable(s[0], r, x, less);
      assert ([s[0]] + r)[1..] == r;
    }
  }

  // ---------------------------------------------------------------- Uniqueness

  lemma {:induction false} TiesMembers<T>(s: seq<T>, x: T, less: (T, T) -> bool, y: T)
    ensures y in Ties(s, x, less) <==> y in s && !less(y, x) && !less(x, y)
  {
    if s != [] {
      TiesMembers(s[1..], x, less, y);
      assert s == [s[0]] + s[1..];
    }
  }

  lemma TiesAtHead<T(!new)>(s: seq<T>, x: T, less: (T, T) -> bool)
    requires StrictWeakOrder(less) && s != [] && !less(s[0], x) && !less(x, s[0])
    ensures Ties(s, x, less) != [] && Ties(s, x, less)[0] == s[0]
  {
  }

  lemma TiesOfTail<T>(s: seq<T>, x: T, less: (T, T) -> bool)
    requires s != []
    ensures Ties(s[1..], x, less) ==
            if !less(s[0], x) && !less(x, s[0]) then Ties(s, x, less)[1..] else Ties(s, x, less)
  {
  }

  /** An ordered sequence is determined by its tie classes. */
  lemma {:induction false} OrderedUnique<T(!new)>(r: seq<T>, q: seq<T>, less: (T, T) -> bool)
    requires StrictWeakOrder(less) && Ordered(r, less) && Ordered(q, less)
    requires forall x :: Ties(r, x, less) == Ties(q, x, less)
    ensures r == q
  {
    if r == [] || q == [] {
      if r != [] { TiesAtHead(r, r[0], less); }
      if q != [] { TiesAtHead(q, q[0], less); }
    } else {
      SameHead(r, q, less);
      forall x ensures Ties(r[1..], x, less) == Ties(q[1..], x, less) {
        TiesOfTail(r, x, less);
        TiesOfTail(q, x, less);
      }
      OrderedUnique(r[1..], q[1..], less);
      assert r == [r[0]] + r[1..] && q == [q[0]] + q[1..];
    }
  }

  lemma SameHead<T(!new)>(r: seq<T>, q: seq<T>, less: (T, T) -> bool)
    requires StrictWeakOrder(less) && Ordered(r, less) && Ordered(q, less) && r != [] && q != []
    requires forall x :: Ties(r, x, less) == Ties(q, x, less)
    ensures r[0] == q[0]
  {
    TiesAtHead(r, r[0], less);
    TiesMembers(r, r[0], less, r[0]);
    TiesMembers(q, r[0], less, r[0]);
    TiesAtHead(q, q[0], less);
    TiesMembers(q, q[0], less, q[0]);
    TiesMembers(r, q[0], less, q[0]);
    TiesAtHead(q, r[0], less);
  }

  /** The stable sort is the only ordered sequence with the tie classes of its input. */
  lemma SortUnique<T(!new)>(s: seq<T>, r: seq<T>, less: (T, T) -> bool)
    requires StrictWeakOrder(less) && Ordered(r, less)
    requires forall x :: Ties(r, x, less) == Ties(s, x, less)
    ensures r == Sort(s, less)
  {
    SortOrdered(s, less);
    forall x ensures Ties(Sort(s, less), x, less) == Ties(r, x, less) {
      SortStable(s, x, less);
    }
    OrderedUnique(r, Sort(s, less), less);
  }
}
