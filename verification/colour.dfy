/**
 * The colour validator that gates recomputing the heat-map palette: the regular
 * expression `^#([0-9a-f]{3}){1,2}$` with the case-insensitive flag.
 */
module Colour {

  /** One character of the class `[0-9a-f]` under the case-insensitive flag. */
  predicate IsHexDigit(c: char) {
    '0' <= c <= '9' || 'a' <= c <= 'f' || 'A' <= c <= 'F'
  }

  /** `s` is exactly `n` repetitions of the group `[0-9a-f]{3}`. */
  predicate HexGroups(s: string, n: nat)
    decreases n
  {
    if n == 0 then s == []
    else |s| >= 3 && IsHexDigit(s[0]) && IsHexDigit(s[1]) && IsHexDigit(s[2]) && HexGroups(s[3..], n - 1)
  }

  /** The whole pattern: `#`, then the group repeated once or twice, then the end. */
  predicate MatchesHexCheck(s: string) {
    |s| >= 1 && s[0] == '#' && (HexGroups(s[1..], 1) || HexGroups(s[1..], 2))
  }

  /** `n` groups of three hex digits are exactly `3n` hex digits. */
  lemma {:induction false} HexGroupsShape(s: string, n: nat)
    ensures HexGroups(s, n) <==> |s| == 3 * n && forall i :: 0 <= i < |s| ==> IsHexDigit(s[i])
    decreases n
  {
    if n > 0 && |s| >= 3 {
      HexGroupsShape(s[3..], n - 1);
      assert forall i :: 3 <= i < |s| ==> s[i] == s[3..][i - 3];
    }
  }

  /** The validator accepts exactly `#` followed by three or six hex digits, in either case. */
  lemma HexCheckShape(s: string)
    ensures MatchesHexCheck(s) <==>
      |s| >= 1 && s[0] == '#' && (|s| == 4 || |s| == 7) && forall i :: 1 <= i < |s| ==> IsHexDigit(s[i])
  {
    if |s| >= 1 {
      HexGroupsShape(s[1..], 1);
      HexGroupsShape(s[1..], 2);
      assert forall i :: 1 <= i < |s| ==> s[i] == s[1..][i - 1];
    }
  }

  /** The palette's default colours pass; a four-digit or unprefixed colour does not. */
  lemma HexCheckExamples()
    ensures MatchesHexCheck("#fc4c02") && MatchesHexCheck("#EEEEEE") && MatchesHexCheck("#abc")
    ensures !MatchesHexCheck("#abcd") && !MatchesHexCheck("fc4c02") && !MatchesHexCheck("#ggg")
  {
    HexCheckShape("#abcd");
    HexCheckShape("#ggg");
    assert !IsHexDigit('g');
    assert "#ggg"[1] == 'g';
  }
}
