/**
  Finite sets: their subsets, and lists that hold each element once.
*/
module FiniteSets {

  ghost predicate Distinct<T>(s: seq<T>) {
    forall i, j :: 0 <= i < j < |s| ==> s[i] != s[j]
  }

  ghost function Elements<T>(s: seq<T>): set<T> {
    set x | x in s
  }

  lemma {:induction false} DistinctSize<T>(s: seq<T>)
    requires Distinct(s)
    ensures |Elements(s)| == |s| && multiset(s) == multiset(Elements(s))
  {
    if s != [] {
      var front, last := s[..|s| - 1], s[|s| - 1];
      assert s == front + [last];
      DistinctSize(front);
      assert last !in front;
      assert Elements(s) == Elements(front) + {last};
    }
  }

  lemma {:induction false} Listing<T>(all: set<T>) returns (s: seq<T>)
    ensures Distinct(s) && Elements(s) == all
  {
    if all == {} {
      s := [];
    } else {
      var x :| x in all;
      var r := Listing(all - {x});
      assert x !in Elements(r);
      s := [x] + r;
      assert Elements(s) == Elements(r) + {x};
    }
  }

  lemma {:induction false} SubsetSize<T>(a: set<T>, b: set<T>)
    requires a <= b
    ensures |a| <= |b|
  {
    if a != {} {
      var x :| x in a;
      SubsetSize(a - {x}, b - {x});
    }
  }
}
