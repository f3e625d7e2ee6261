/**
 * The Python `str` operations the converter relies on: `lower()`, `upper()`,
 * `rfind()` of one character, and the ordering `sorted` uses on strings.
 * Case mapping is modelled for ASCII letters only.
 */
module PyStrings {

  predicate IsAsciiUpper(ch: char) { 'A' <= ch <= 'Z' }

  predicate IsAsciiLower(ch: char) { 'a' <= ch <= 'z' }

  function LowerChar(ch: char): char
  {
    if IsAsciiUpper(ch) then (ch as int + 32) as char else ch
  }

  function UpperChar(ch: char): char
  {
    if IsAsciiLower(ch) then (ch as int - 32) as char else ch
  }

  /** `s.lower()`: every character lowered; no upper-case letter remains and other characters stay. */
  function Lower(s: string): (r: string)
    ensures |r| == |s|
    ensures forall i :: 0 <= i < |r| ==> !IsAsciiUpper(r[i])
    ensures forall i :: 0 <= i < |s| && !IsAsciiUpper(s[i]) ==> r[i] == s[i]
  {
    seq(|s|, i requires 0 <= i < |s| => LowerChar(s[i]))
  }

  /** `s.upper()`: every character raised; no lower-case letter remains and other characters stay. */
  function Upper(s: string): (r: string)
    ensures |r| == |s|
    ensures forall i :: 0 <= i < |r| ==> !IsAsciiLower(r[i])
    ensures forall i :: 0 <= i < |s| && !IsAsciiLower(s[i]) ==> r[i] == s[i]
  {
    seq(|s|, i requires 0 <= i < |s| => UpperChar(s[i]))
  }

  /** `upper()` undoes `lower()` on text that holds no lower-case letter. */
  lemma UpperOfLower(s: string)
    requires forall i :: 0 <= i < |s| ==> !IsAsciiLower(s[i])
    ensures Upper(Lower(s)) == s
  {
    var r := Upper(Lower(s));
    forall i | 0 <= i < |s|
      ensures r[i] == s[i]
    {
      UpperOfLowerChar(s[i]);
    }
  }

  lemma UpperOfLowerChar(ch: char)
    requires !IsAsciiLower(ch)
    ensures UpperChar(LowerChar(ch)) == ch
  {
    if IsAsciiUpper(ch) {
      assert LowerChar(ch) as int == ch as int + 32;
    }
  }

  /**
   * `s.rfind(c)`: the highest index holding `c`, or -1 when `c` does not occur.
   */
  function RFind(s: string, c: char): (i: int)
    ensures -1 <= i < |s|
    ensures 0 <= i ==> s[i] == c
    ensures forall j :: i < j < |s| ==> s[j] != c
  {
    if |s| == 0 then -1
    else if s[|s| - 1] == c then |s| - 1
    else RFind(s[..|s| - 1], c)
  }

  /** `rfind` is determined by its contract: the last index holding `c`, or -1. */
  lemma RFindIs(s: string, c: char, k: int)
    requires -1 <= k < |s|
    requires 0 <= k ==> s[k] == c
    requires forall j :: k < j < |s| ==> s[j] != c
    ensures RFind(s, c) == k
  {
  }

  /** The last occurrence in a concatenation lies in the right part when the right part has one... */
  lemma RFindConcatRight(a: string, b: string, c: char)
    requires exists k :: 0 <= k < |b| && b[k] == c
    ensures RFind(a + b, c) == |a| + RFind(b, c)
  {
    var s := a + b;
    var j := RFind(b, c);
    assert 0 <= j by {
      var k :| 0 <= k < |b| && b[k] == c;
      assert k <= j;
    }
    assert s[|a| + j] == c;
    assert forall m :: |a| + j < m < |s| ==> s[m] != c by {
      forall m | |a| + j < m < |s|
        ensures s[m] != c
      {
        assert s[m] == b[m - |a|];
      }
    }
    assert RFind(s, c) == |a| + j by { RFindIs(s, c, |a| + j); }
  }

  /** ... and is the left part's when the right part has none. */
  lemma RFindConcatLeft(a: string, b: string, c: char)
    requires c !in b
    ensures RFind(a + b, c) == RFind(a, c)
  {
    var s := a + b;
    var j := RFind(a, c);
    forall m | j < m < |s|
      ensures s[m] != c
    {
      if m < |a| {
        assert s[m] == a[m];
      } else {
        assert s[m] == b[m - |a|];
      }
    }
    if 0 <= j {
      assert s[j] == a[j];
    }
    RFindIs(s, c, j);
  }

  /** Python's string comparison `a < b`: by code point, a proper prefix first. */
  predicate StrLess(a: string, b: string)
    ensures StrLess(a, b) ==> a != b
  {
    if a == [] then b != []
    else if b == [] then false
    else if a[0] != b[0] then a[0] < b[0]
    else StrLess(a[1..], b[1..])
  }

  /** The order is asymmetric: of two strings, at most one is less than the other. */
  lemma {:induction false} StrLessAsymmetric(a: string, b: string)
    requires StrLess(a, b)
    ensures !StrLess(b, a)
  {
    if a != [] && b != [] && a[0] == b[0] {
      StrLessAsymmetric(a[1..], b[1..]);
    }
  }
}
