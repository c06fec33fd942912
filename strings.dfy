/** ASCII case folding and substring search on strings. */
module Strings {

  /** Lower-cases an ASCII upper-case letter and leaves every other character alone. */
  function Lower(c: char): (d: char)
    ensures 'A' <= c <= 'Z' ==> 'a' <= d <= 'z' && d as int == c as int + 32
    ensures !('A' <= c <= 'Z') ==> d == c
  {
    if 'A' <= c <= 'Z' then (c as int + 32) as char else c
  }

  function LowerCase(s: string): (r: string)
    ensures |r| == |s|
    ensures forall i :: 0 <= i < |s| ==> r[i] == Lower(s[i])
  {
    seq(|s|, i requires 0 <= i < |s| => Lower(s[i]))
  }

  /** `pat` occurs in `text` starting at position `i`. */
  predicate OccursAt(pat: string, text: string, i: int)
  {
    0 <= i && i + |pat| <= |text| && text[i..i + |pat|] == pat
  }

  /** `pat` occurs somewhere in `text` (not anchored at either end). */
  predicate Contains(text: string, pat: string)
  {
    exists i :: 0 <= i <= |text| - |pat| && OccursAt(pat, text, i)
  }

  /** `pat` occurs in `text` when ASCII letters are compared without regard to case. */
  predicate ContainsIgnoringCase(text: string, pat: string)
  {
    Contains(LowerCase(text), LowerCase(pat))
  }

  /**
   * `pat` matches at offset `i` of `text`, ignoring case, exactly when each of
   * its characters equals the character of `text` it lies over, once both are lower-cased.
   */
  lemma OccursAtIgnoringCase(pat: string, text: string, i: int)
    ensures OccursAt(LowerCase(pat), LowerCase(text), i) <==>
      0 <= i && i + |pat| <= |text| && forall j :: 0 <= j < |pat| ==> Lower(text[i + j]) == Lower(pat[j])
  {
    if 0 <= i && i + |pat| <= |text| {
      var lt, lp := LowerCase(text), LowerCase(pat);
      if forall j :: 0 <= j < |pat| ==> Lower(text[i + j]) == Lower(pat[j]) {
        assert forall j :: 0 <= j < |lp| ==> lt[i..i + |lp|][j] == lp[j];
      } else {
        var j :| 0 <= j < |pat| && Lower(text[i + j]) != Lower(pat[j]);
        assert lt[i..i + |lp|][j] != lp[j];
      }
    }
  }

  /** An exact occurrence is also a match ignoring case. */
  lemma ContainsIsContainsIgnoringCase(text: string, pat: string)
    requires Contains(text, pat)
    ensures ContainsIgnoringCase(text, pat)
  {
    var i :| 0 <= i <= |text| - |pat| && OccursAt(pat, text, i);
    forall j | 0 <= j < |pat|
      ensures Lower(text[i + j]) == Lower(pat[j])
    {
      assert pat[j] == text[i..i + |pat|][j];
    }
    OccursAtIgnoringCase(pat, text, i);
  }

  /** A match is not anchored: "abc" is found in the middle of "xAbCx". */
  lemma UnanchoredIgnoringCase()
    ensures ContainsIgnoringCase("xAbCx", "abc")
    ensures !ContainsIgnoringCase("ab", "abc")
  {
    assert LowerCase("xAbCx") == "xabcx";
    assert LowerCase("abc") == "abc";
    assert OccursAt("abc", "xabcx", 1);
  }
}
