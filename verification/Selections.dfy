/**
  Selections of a list: the elements that meet a condition, each as often as it is listed and in order.
*/
module Selections {

  /** The positions rise and hold just what is to be kept. */
  ghost predicate Positions<T(!new)>(s: seq<T>, keep: T -> bool, ix: seq<int>) {
    && (forall j, k :: 0 <= j < k < |ix| ==> ix[j] < ix[k])
    && (forall k :: 0 <= k < |ix| ==> 0 <= ix[k] < |s|)
    && (forall i :: 0 <= i < |s| ==> (i in ix <==> keep(s[i])))
  }

  ghost predicate SelectedAt<T(!new)>(s: seq<T>, r: seq<T>, keep: T -> bool, ix: seq<int>) {
    Positions(s, keep, ix) && |ix| == |r| && forall k :: 0 <= k < |ix| ==> r[k] == s[ix[k]]
  }

  ghost predicate Selected<T(!new)>(s: seq<T>, r: seq<T>, keep: T -> bool) {
    exists ix :: SelectedAt(s, r, keep, ix)
  }

  lemma SelectedNone<T(!new)>(keep: T -> bool)
    ensures Selected([], [], keep)
  {
    assert SelectedAt([], [], keep, []);
  }

  lemma PositionsNext<T(!new)>(s: seq<T>, keep: T -> bool, ix: seq<int>, x: T)
    requires Positions(s, keep, ix)
    ensures Positions(s + [x], keep, if keep(x) then ix + [|s|] else ix)
  {
    var ix' := if keep(x) then ix + [|s|] else ix;
    forall i | 0 <= i < |s + [x]| ensures i in ix' <==> keep((s + [x])[i]) {
      assert i in ix' <==> i in ix || (i == |s| && keep(x));
    }
  }

  lemma ElementsNext<T(!new)>(s: seq<T>, r: seq<T>, keep: T -> bool, ix: seq<int>, x: T)
    requires SelectedAt(s, r, keep, ix)
    ensures keep(x) ==> SelectedAt(s + [x], r + [x], keep, ix + [|s|])
    ensures !keep(x) ==> SelectedAt(s + [x], r, keep, ix)
  {
    PositionsNext(s, keep, ix, x);
    forall k | 0 <= k < |ix| ensures (s + [x])[ix[k]] == r[k] {
      assert 0 <= ix[k] < |s|;
    }
  }

  lemma SelectedNext<T(!new)>(s: seq<T>, r: seq<T>, keep: T -> bool, x: T)
    requires Selected(s, r, keep)
    ensures Selected(s + [x], r + if keep(x) then [x] else [], keep)
  {
    var ix :| SelectedAt(s, r, keep, ix);
    ElementsNext(s, r, keep, ix, x);
    assert r + [] == r;
  }
}
