/**
  White space, trimming and blank text, over the space characters of either Go or ECMAScript.
*/
module Text {

  /** `unicode.IsSpace` of Go. */
  predicate GoSpace(c: char) {
    c == '\U{85}' || CommonSpace(c)
  }

  /** The white space and line terminators that ECMAScript's `trim` removes. */
  predicate JsSpace(c: char) {
    c == '\U{FEFF}' || CommonSpace(c)
  }

  /** What Python's `str.strip` removes. */
  predicate PySpace(c: char) {
    c == '\U{85}' || '\U{1C}' <= c <= '\U{1F}' || CommonSpace(c)
  }

  predicate CommonSpace(c: char) {
    || '\t' <= c <= '\r' || c == ' ' || c == '\U{A0}' || c == '\U{1680}'
    || '\U{2000}' <= c <= '\U{200A}' || c == '\U{2028}' || c == '\U{2029}'
    || c == '\U{202F}' || c == '\U{205F}' || c == '\U{3000}'
  }

  function TrimLeft(s: string, space: char -> bool): string {
    if s != [] && space(s[0]) then TrimLeft(s[1..], space) else s
  }

  function TrimRight(s: string, space: char -> bool): string {
    if s != [] && space(s[|s| - 1]) then TrimRight(s[..|s| - 1], space) else s
  }

  function Trim(s: string, space: char -> bool): string {
    TrimRight(TrimLeft(s, space), space)
  }

  /** Neither end is white space. */
  predicate Trimmed(s: string, space: char -> bool) {
    s != [] ==> !space(s[0]) && !space(s[|s| - 1])
  }

  predicate Blank(s: string, space: char -> bool) {
    forall i :: 0 <= i < |s| ==> space(s[i])
  }

  lemma {:induction false} TrimLeftCuts(s: string, space: char -> bool) returns (n: nat)
    ensures n <= |s| && TrimLeft(s, space) == s[n..] && Blank(s[..n], space)
    ensures n < |s| ==> !space(s[n])
  {
    if s != [] && space(s[0]) {
      var k := TrimLeftCuts(s[1..], space);
      n := k + 1;
      assert forall i :: 0 < i < n ==> s[..n][i] == s[1..][..k][i - 1];
    } else {
      n := 0;
    }
  }

  lemma {:induction false} TrimRightCuts(s: string, space: char -> bool) returns (n: nat)
    ensures n <= |s| && TrimRight(s, space) == s[..n] && Blank(s[n..], space)
    ensures n > 0 ==> !space(s[n - 1])
  {
    if s != [] && space(s[|s| - 1]) {
      var t := s[..|s| - 1];
      n := TrimRightCuts(t, space);
      forall i | 0 <= i < |s| - n ensures space(s[n..][i]) {
        if i < |t| - n {
          assert t[n..][i] == s[n..][i];
        }
      }
    } else {
      n := |s|;
    }
  }

  /** Trimming removes white space from both ends and nothing more. */
  lemma TrimCuts(s: string, space: char -> bool) returns (i: nat, j: nat)
    ensures i <= j <= |s| && Trim(s, space) == s[i..j]
    ensures Blank(s[..i], space) && Blank(s[j..], space) && Trimmed(s[i..j], space)
    ensures Trimmed(Trim(s, space), space)
  {
    i := TrimLeftCuts(s, space);
    var k := TrimRightCuts(s[i..], space);
    j := i + k;
    assert s[i..][k..] == s[j..];
  }

  lemma {:induction false} TrimBlank(s: string, space: char -> bool)
    ensures Trim(s, space) == "" <==> Blank(s, space)
  {
    var i, j := TrimCuts(s, space);
    if i == j {
      assert s == s[..i] + s[j..];
    } else {
      assert !space(s[i..j][0]);
      assert s[i..j][0] == s[i];
    }
  }

  lemma TrimOfTrimmed(s: string, space: char -> bool)
    requires Trimmed(s, space)
    ensures Trim(s, space) == s
  {
  }
}
