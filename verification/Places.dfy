/**
  Where a stable sort puts each element: behind everything that is less, and behind what ties with it
  and came first.
*/
module Places {
  import opened StableSorting

  /** Element j goes before element i. */
  predicate Ahead<T>(s: seq<T>, j: nat, i: nat, less: (T, T) -> bool)
    requires i < |s| && j < |s|
  {
    if j < i then !less(s[i], s[j]) else j > i && less(s[j], s[i])
  }

  /** How many of the first n elements go before element i. */
  function AheadCount<T>(s: seq<T>, i: nat, n: nat, less: (T, T) -> bool): nat
    requires i < |s| && n <= |s|
  {
    if n == 0 then 0 else AheadCount(s, i, n - 1, less) + if Ahead(s, n - 1, i, less) then 1 else 0
  }

  /** The place of element i after sorting. */
  function Place<T>(s: seq<T>, i: nat, less: (T, T) -> bool): nat
    requires i < |s|
  {
    AheadCount(s, i, |s|, less)
  }

  /** How many elements are less than x. */
  function CountLess<T>(s: seq<T>, x: T, less: (T, T) -> bool): nat {
    if s == [] then 0 else (if less(s[0], x) then 1 else 0) + CountLess(s[1..], x, less)
  }

  lemma {:induction false} AheadShift<T>(s: seq<T>, i: nat, n: nat, less: (T, T) -> bool)
    requires 0 < i < |s| && 0 < n <= |s|
    ensures AheadCount(s, i, n, less) == AheadCount(s[1..], i - 1, n - 1, less) + if less(s[i], s[0]) then 0 else 1
  {
    if n > 1 {
      AheadShift(s, i, n - 1, less);
    } else {
      assert AheadCount(s, i, 0, less) == 0;
    }
  }

  lemma {:induction false} FirstCount<T>(s: seq<T>, n: nat, less: (T, T) -> bool)
    requires 0 < n <= |s|
    ensures AheadCount(s, 0, n, less) == CountLess(s[1..n], s[0], less)
  {
    if n > 1 {
      FirstCount(s, n - 1, less);
      assert s[1..n] == s[1..n - 1] + [s[n - 1]];
      CountLessAppend(s[1..n - 1], s[n - 1], s[0], less);
    } else {
      assert AheadCount(s, 0, 0, less) == 0;
    }
  }

  lemma {:induction false} CountLessAppend<T>(s: seq<T>, y: T, x: T, less: (T, T) -> bool)
    ensures CountLess(s + [y], x, less) == CountLess(s, x, less) + if less(y, x) then 1 else 0
  {
    if s == [] {
      assert s + [y] == [y];
      assert CountLess([y][1..], x, less) == 0;
    } else {
      CountLessAppend(s[1..], y, x, less);
      assert (s + [y])[1..] == s[1..] + [y];
    }
  }

  lemma {:induction false} CountLessInsert<T>(y: T, s: seq<T>, x: T, less: (T, T) -> bool)
    ensures CountLess(Insert(y, s, less), x, less) == CountLess(s, x, less) + if less(y, x) then 1 else 0
  {
    if s == [] {
      assert CountLess([y][1..], x, less) == 0;
    } else if less(s[0], y) {
      CountLessInsert(y, s[1..], x, less);
      assert Insert(y, s, less)[1..] == Insert(y, s[1..], less);
    } else {
      assert ([y] + s)[1..] == s;
    }
  }

  lemma {:induction false} CountLessSort<T>(s: seq<T>, x: T, less: (T, T) -> bool)
    ensures CountLess(Sort(s, less), x, less) == CountLess(s, x, less)
  {
    if s != [] {
      CountLessSort(s[1..], x, less);
      CountLessInsert(s[0], Sort(s[1..], less), x, less);
    }
  }

  /** Where insertion puts the new element and moves the others. */
  lemma {:induction false} InsertPlaces<T(!new)>(x: T, s: seq<T>, less: (T, T) -> bool, p: nat)
    requires StrictWeakOrder(less) && Ordered(s, less) && p < |s|
    ensures |Insert(x, s, less)| == |s| + 1
    ensures Insert(x, s, less)[p + if less(s[p], x) then 0 else 1] == s[p]
  {
    if less(s[0], x) {
      if p > 0 {
        InsertPlaces(x, s[1..], less, p - 1);
      } else {
        InsertLength(x, s[1..], less);
      }
    } else {
      assert !less(s[p], x) by { if p > 0 { assert !less(s[p], s[0]); } }
    }
  }

  lemma {:induction false} CountNone<T>(s: seq<T>, x: T, less: (T, T) -> bool)
    requires forall j :: 0 <= j < |s| ==> !less(s[j], x)
    ensures CountLess(s, x, less) == 0
  {
    if s != [] {
      CountNone(s[1..], x, less);
    }
  }

  lemma {:induction false} InsertedPlace<T(!new)>(x: T, s: seq<T>, less: (T, T) -> bool)
    requires StrictWeakOrder(less) && Ordered(s, less)
    ensures CountLess(s, x, less) < |Insert(x, s, less)| && Insert(x, s, less)[CountLess(s, x, less)] == x
  {
    if s != [] && less(s[0], x) {
      InsertedPlace(x, s[1..], less);
    } else {
      forall j | 0 <= j < |s| ensures !less(s[j], x) {
        if j > 0 { assert !less(s[j], s[0]); }
      }
      CountNone(s, x, less);
    }
  }

  lemma {:induction false} SortLength<T>(s: seq<T>, less: (T, T) -> bool)
    ensures |Sort(s, less)| == |s|
  {
    if s != [] {
      SortLength(s[1..], less);
      InsertLength(s[0], Sort(s[1..], less), less);
    }
  }

  lemma FirstPlace<T(!new)>(s: seq<T>, less: (T, T) -> bool)
    requires StrictWeakOrder(less) && s != []
    ensures Place(s, 0, less) < |Sort(s, less)|
    ensures Sort(s, less)[Place(s, 0, less)] == s[0]
  {
    SortOrdered(s[1..], less);
    FirstCount(s, |s|, less);
    assert s[1..|s|] == s[1..];
    CountLessSort(s[1..], s[0], less);
    InsertedPlace(s[0], Sort(s[1..], less), less);
  }

  lemma LaterPlace<T(!new)>(s: seq<T>, i: nat, p: nat, r: seq<T>, less: (T, T) -> bool)
    requires StrictWeakOrder(less) && 0 < i < |s| && p == Place(s[1..], i - 1, less)
    requires Ordered(r, less) && p < |r| && r[p] == s[i]
    ensures Place(s, i, less) < |Insert(s[0], r, less)|
    ensures Insert(s[0], r, less)[Place(s, i, less)] == s[i]
  {
    AheadShift(s, i, |s|, less);
    InsertPlaces(s[0], r, less, p);
  }

  /** The stable sort puts every element at its place. */
  lemma {:induction false} SortPlaces<T(!new)>(s: seq<T>, i: nat, less: (T, T) -> bool)
    requires StrictWeakOrder(less) && i < |s|
    ensures Place(s, i, less) < |Sort(s, less)| == |s|
    ensures Sort(s, less)[Place(s, i, less)] == s[i]
  {
    SortLength(s, less);
    if i == 0 {
      FirstPlace(s, less);
    } else {
      SortPlaces(s[1..], i - 1, less);
      SortOrdered(s[1..], less);
      LaterPlace(s, i, Place(s[1..], i - 1, less), Sort(s[1..], less), less);
    }
  }

  /** An element that is replaced by one no less ahead does not fall back. */
  lemma {:induction false} AheadMonotone<T>(s: seq<T>, t: seq<T>, i: nat, n: nat, less: (T, T) -> bool)
    requires |s| == |t| && i < |s| && n <= |s| && forall j :: 0 <= j < |s| && j != i ==> t[j] == s[j]
    requires forall y :: y in s ==> (less(y, t[i]) ==> less(y, s[i])) && (less(s[i], y) ==> less(t[i], y))
    ensures AheadCount(t, i, n, less) <= AheadCount(s, i, n, less)
  {
    if n > 0 {
      AheadMonotone(s, t, i, n - 1, less);
      assert s[n - 1] in s;
    }
  }
}
