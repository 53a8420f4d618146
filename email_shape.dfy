// The e-mail address test shared by the server's `/send-email` handler and
// the browser client: `/^[^\s@]+@[^\s@]+\.[^\s@]+$/`.

module EmailShape {

  import opened JsText

  /** A character the class `[^\s@]` matches. */
  predicate AddressChar(c: char)
  {
    !IsJsWhitespace(c) && c != '@'
  }

  /** The regular expression read as positions: an `@` at `at` and a `.` at
      `dot`, with at least one character before the `@`, between the two and
      after the `.`, and every other character in `[^\s@]`. */
  predicate MatchesAt(s: string, at: int, dot: int)
  {
    0 < at && at + 1 < dot < |s| - 1 && s[at] == '@' && s[dot] == '.'
    && forall k :: 0 <= k < |s| && k != at ==> AddressChar(s[k])
  }

  ghost predicate EmailPattern(s: string)
  {
    exists at, dot :: MatchesAt(s, at, dot)
  }

  /** The test as a scan: one `@`, not first, no white space anywhere, and a
      `.` strictly inside the part after the `@`. */
  predicate IsValidEmail(s: string)
  {
    var at := IndexOf(s, '@');
    at > 0
    && (forall k :: 0 <= k < |s| ==> !IsJsWhitespace(s[k]))
    && var domain := s[at + 1..];
       '@' !in domain && |domain| >= 3 && '.' in domain[1..|domain| - 1]
  }

  /** The scan accepts exactly the strings the regular expression matches. */
  lemma ValidEmailIffPattern(s: string)
    ensures IsValidEmail(s) <==> EmailPattern(s)
  {
    var at := IndexOf(s, '@');
    if IsValidEmail(s) {
      var domain := s[at + 1..];
      var inner := domain[1..|domain| - 1];
      var j :| 0 <= j < |inner| && inner[j] == '.';
      var dot := at + 2 + j;
      assert s[dot] == '.';
      forall k | 0 <= k < |s| && k != at
        ensures AddressChar(s[k])
      {
        if k > at {
          assert s[k] == domain[k - at - 1];
        }
      }
      assert MatchesAt(s, at, dot);
    }
    if EmailPattern(s) {
      var a, d :| MatchesAt(s, a, d);
      IndexOfUnique(s, '@', a);
      var domain := s[a + 1..];
      assert domain[d - a - 1] == '.';
      assert domain[1..|domain| - 1][d - a - 2] == '.';
      forall k | 0 <= k < |domain|
        ensures domain[k] != '@'
      {
        assert domain[k] == s[a + 1 + k];
      }
    }
  }

  /** Two `@`s are never accepted. */
  lemma TwoAtsRejected(s: string, i: int, j: int)
    requires 0 <= i < j < |s| && s[i] == '@' && s[j] == '@'
    ensures !IsValidEmail(s)
  {
    var at := IndexOf(s, '@');
    if at >= 0 {
      assert s[at + 1..][j - at - 1] == '@';
    }
  }
}
