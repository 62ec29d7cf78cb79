/** The two fixed regular expressions of the ticket validator, each written as
    the predicate its pattern denotes, and a structural description of what the
    email pattern accepts. */
module Patterns {
  import opened Text

  /** `\d` in a pattern without the `u` flag: an ASCII decimal digit. */
  predicate IsAsciiDigit(c: char) {
    '0' <= c <= '9'
  }

  /** `/^\d{10}$/.test(s)`: exactly ten characters, all ASCII digits. */
  predicate MatchesPhone(s: string) {
    |s| == 10 && forall k | 0 <= k < |s| :: IsAsciiDigit(s[k])
  }

  /** The character class `[^\s@]`. */
  predicate IsAddressChar(c: char) {
    !IsWs(c) && c != '@'
  }

  predicate AllAddressChars(s: string) {
    forall k | 0 <= k < |s| :: IsAddressChar(s[k])
  }

  /** `/^[^\s@]+@[^\s@]+\.[^\s@]+$/.test(s)`: `s` is a non-empty run of
      `[^\s@]`, an `@`, a non-empty run, a `.`, and a final non-empty run. The
      match positions of `@` and `.` are the bound variables. */
  predicate MatchesEmail(s: string) {
    exists at, dot | 0 < at < |s| && at + 1 < dot < |s| - 1 ::
      && s[at] == '@' && s[dot] == '.'
      && AllAddressChars(s[..at])
      && AllAddressChars(s[at + 1..dot])
      && AllAddressChars(s[dot + 1..])
  }

  /** A domain with a `.` that is neither its first nor its last character. */
  predicate HasInnerDot(domain: string) {
    exists k | 0 < k < |domain| - 1 :: domain[k] == '.'
  }

  /** The address shape in plain terms: no white space, exactly one `@`, a
      non-empty local part before it, and a domain after it with an inner `.`. */
  predicate EmailShape(s: string) {
    && NoWs(s)
    && Count(s, '@') == 1
    && exists at | 0 <= at < |s| && s[at] == '@' :: 0 < at && HasInnerDot(s[at + 1..])
  }

  /** The email pattern accepts exactly the strings of the described shape. */
  lemma {:induction false} EmailPatternIsShape(s: string)
    ensures MatchesEmail(s) <==> EmailShape(s)
  {
    if MatchesEmail(s) {
      var at, dot :| 0 < at < |s| && at + 1 < dot < |s| - 1
        && s[at] == '@' && s[dot] == '.'
        && AllAddressChars(s[..at])
        && AllAddressChars(s[at + 1..dot])
        && AllAddressChars(s[dot + 1..]);
      MatchIsAddressCharsBut(s, at, dot);
      CountOneAt(s, '@', at);
      assert s[at + 1..][dot - at - 1] == '.';
      assert HasInnerDot(s[at + 1..]);
    }
    if EmailShape(s) {
      var at :| 0 <= at < |s| && s[at] == '@' && 0 < at && HasInnerDot(s[at + 1..]);
      var k :| 0 < k < |s[at + 1..]| - 1 && s[at + 1..][k] == '.';
      CountOneAt(s, '@', at);
      ShapeRunsAreAddressChars(s, at, at + 1 + k);
    }
  }

  /** In a match, every position other than the `@` holds a `[^\s@]` character. */
  lemma {:induction false} MatchIsAddressCharsBut(s: string, at: int, dot: int)
    requires 0 < at < |s| && at + 1 < dot < |s| - 1
    requires s[at] == '@' && s[dot] == '.'
    requires AllAddressChars(s[..at]) && AllAddressChars(s[at + 1..dot]) && AllAddressChars(s[dot + 1..])
    ensures forall k | 0 <= k < |s| && k != at :: IsAddressChar(s[k])
    ensures NoWs(s)
  {
    forall k | 0 <= k < |s| && k != at ensures IsAddressChar(s[k]) {
      if k < at {
        assert s[k] == s[..at][k];
      } else if k < dot {
        assert s[k] == s[at + 1..dot][k - at - 1];
      } else if k > dot {
        assert s[k] == s[dot + 1..][k - dot - 1];
      }
    }
    assert !IsWs(s[at]);
  }

  /** The three runs cut out by the only `@` and an inner `.` are `[^\s@]` runs. */
  lemma {:induction false} ShapeRunsAreAddressChars(s: string, at: int, dot: int)
    requires 0 < at < |s| && at + 1 < dot < |s| - 1
    requires s[at] == '@' && s[dot] == '.'
    requires NoWs(s)
    requires forall k | 0 <= k < |s| && k != at :: s[k] != '@'
    ensures AllAddressChars(s[..at]) && AllAddressChars(s[at + 1..dot]) && AllAddressChars(s[dot + 1..])
  {
    var local, middle, last := s[..at], s[at + 1..dot], s[dot + 1..];
    forall j | 0 <= j < |local| ensures IsAddressChar(local[j]) {
      assert local[j] == s[j];
    }
    forall j | 0 <= j < |middle| ensures IsAddressChar(middle[j]) {
      assert middle[j] == s[at + 1 + j];
    }
    forall j | 0 <= j < |last| ensures IsAddressChar(last[j]) {
      assert last[j] == s[dot + 1 + j];
    }
  }
}
