/** The ECMAScript string primitives the validator relies on: the white-space
    set shared by `String.prototype.trim` and the regular-expression class `\s`,
    trimming itself, and counting occurrences of a character. */
module Text {

  /** ECMAScript WhiteSpace (ECMA-262 clause 12.2: TAB, VT, FF, ZWNBSP and every
      code point of category Zs) together with LineTerminator (clause 12.3: LF,
      CR, LS, PS). Both `trim` and `\s` use exactly this set. */
  predicate IsWs(c: char) {
    || c == '\t' || c == '\U{000B}' || c == '\U{000C}' || c == '\U{FEFF}'
    || c == ' ' || c == '\U{00A0}' || c == '\U{1680}' || ('\U{2000}' <= c <= '\U{200A}')
    || c == '\U{202F}' || c == '\U{205F}' || c == '\U{3000}'
    || c == '\n' || c == '\r' || c == '\U{2028}' || c == '\U{2029}'
  }

  predicate AllWs(s: string) {
    forall k | 0 <= k < |s| :: IsWs(s[k])
  }

  predicate NoWs(s: string) {
    forall k | 0 <= k < |s| :: !IsWs(s[k])
  }

  /** Drops the leading white space: what is removed is all white space, and
      what is kept is a suffix that does not start with white space. */
  function TrimStart(s: string): (r: string)
    ensures |r| <= |s| && r == s[|s| - |r|..]
    ensures AllWs(s[..|s| - |r|])
    ensures r == [] || !IsWs(r[0])
    decreases |s|
  {
    if |s| > 0 && IsWs(s[0]) then
      var r := TrimStart(s[1..]);
      DropFirstWs(s, r);
      r
    else s
  }

  /** Trimming the rest of a string that starts with white space trims the string. */
  lemma {:induction false} DropFirstWs(s: string, r: string)
    requires |s| > 0 && IsWs(s[0])
    requires |r| <= |s[1..]| && r == s[1..][|s[1..]| - |r|..]
    requires AllWs(s[1..][..|s[1..]| - |r|])
    ensures |r| <= |s| && r == s[|s| - |r|..]
    ensures AllWs(s[..|s| - |r|])
  {
    var rest, n := s[1..], |s| - |r|;
    assert rest[|rest| - |r|..] == s[n..];
    forall k | 0 <= k < n ensures IsWs(s[..n][k]) {
      if k > 0 {
        assert s[..n][k] == rest[..|rest| - |r|][k - 1];
      }
    }
  }

  /** Drops the trailing white space: what is removed is all white space, and
      what is kept is a prefix that does not end with white space. */
  function TrimEnd(s: string): (r: string)
    ensures |r| <= |s| && r == s[..|r|]
    ensures AllWs(s[|r|..])
    ensures r == [] || !IsWs(r[|r| - 1])
    decreases |s|
  {
    if |s| > 0 && IsWs(s[|s| - 1]) then
      var r := TrimEnd(s[..|s| - 1]);
      DropLastWs(s, r);
      r
    else s
  }

  /** Trimming the rest of a string that ends with white space trims the string. */
  lemma {:induction false} DropLastWs(s: string, r: string)
    requires |s| > 0 && IsWs(s[|s| - 1])
    requires |r| <= |s[..|s| - 1]| && r == s[..|s| - 1][..|r|]
    requires AllWs(s[..|s| - 1][|r|..])
    ensures |r| <= |s| && r == s[..|r|]
    ensures AllWs(s[|r|..])
  {
    var rest := s[..|s| - 1];
    assert rest[..|r|] == s[..|r|];
    forall k | 0 <= k < |s| - |r| ensures IsWs(s[|r|..][k]) {
      if k < |s| - 1 - |r| {
        assert s[|r|..][k] == rest[|r|..][k];
      }
    }
  }

  /** `String.prototype.trim`: the result neither starts nor ends with white
      space, and it is empty exactly when the input is all white space. */
  function Trim(s: string): (r: string)
    ensures r != [] ==> !IsWs(r[0]) && !IsWs(r[|r| - 1])
    ensures r == [] <==> AllWs(s)
  {
    TrimEnds(s);
    TrimEmpty(s);
    TrimEnd(TrimStart(s))
  }

  /** What `trim` removes is white space on both sides of its result. */
  lemma {:induction false} TrimIsUnpadding(s: string)
    ensures exists pre, post :: AllWs(pre) && AllWs(post) && s == pre + Trim(s) + post
  {
    TrimPadding(s);
  }

  lemma {:induction false} TrimPadding(s: string)
    ensures exists pre, post :: AllWs(pre) && AllWs(post) && s == pre + TrimEnd(TrimStart(s)) + post
  {
    var t := TrimStart(s);
    var r := TrimEnd(t);
    SliceGlue(s, t, r);
    var pre, post := s[..|s| - |t|], t[|r|..];
    assert AllWs(pre) && AllWs(post) && s == pre + r + post;
  }

  /** A suffix `t` of `s` and a prefix `r` of `t` cut `s` into three pieces. */
  lemma {:induction false} SliceGlue(s: string, t: string, r: string)
    requires |t| <= |s| && t == s[|s| - |t|..]
    requires |r| <= |t| && r == t[..|r|]
    ensures s == s[..|s| - |t|] + r + t[|r|..]
  {
    assert s == s[..|s| - |t|] + t;
    assert t == r + t[|r|..];
  }

  lemma {:induction false} TrimEnds(s: string)
    ensures var r := TrimEnd(TrimStart(s));
      r != [] ==> !IsWs(r[0]) && !IsWs(r[|r| - 1])
  {
    var t := TrimStart(s);
    var r := TrimEnd(t);
    assert r != [] ==> r[0] == t[0];
  }

  lemma {:induction false} TrimEmpty(s: string)
    ensures TrimEnd(TrimStart(s)) == [] <==> AllWs(s)
  {
    if AllWs(s) {
      AllWsTrimStartEmpty(s);
      assert TrimEnd([]) == [];
    }
    if TrimEnd(TrimStart(s)) == [] {
      TrimEmptyAllWs(s);
    }
  }

  lemma {:induction false} TrimEmptyAllWs(s: string)
    requires TrimEnd(TrimStart(s)) == []
    ensures AllWs(s)
  {
    var t := TrimStart(s);
    assert AllWs(t) by {
      assert AllWs(t[0..]);
      assert t[0..] == t;
    }
    AllWsSuffixSplit(s, t);
  }

  /** A string is all white space when a suffix and what precedes it are. */
  lemma {:induction false} AllWsSuffixSplit(s: string, t: string)
    requires |t| <= |s| && t == s[|s| - |t|..]
    requires AllWs(s[..|s| - |t|]) && AllWs(t)
    ensures AllWs(s)
  {
    AllWsSplit(s, |s| - |t|);
  }


  lemma {:induction false} AllWsSplit(s: string, i: int)
    requires 0 <= i <= |s|
    requires AllWs(s[..i]) && AllWs(s[i..])
    ensures AllWs(s)
  {
    forall k | 0 <= k < |s| ensures IsWs(s[k]) {
      if k < i {
        assert s[k] == s[..i][k];
      } else {
        assert s[k] == s[i..][k - i];
      }
    }
  }

  lemma {:induction false} AllWsConcat(a: string, b: string)
    requires AllWs(a) && AllWs(b)
    ensures AllWs(a + b)
  {
    forall k | 0 <= k < |a + b| ensures IsWs((a + b)[k]) {
      if k < |a| {
        assert (a + b)[k] == a[k];
      } else {
        assert (a + b)[k] == b[k - |a|];
      }
    }
  }

  lemma {:induction false} AllWsTrimStartEmpty(s: string)
    requires AllWs(s)
    ensures TrimStart(s) == []
  {
  }

  /** Leading white space in front of a string does not change where trimming
      its start lands. */
  lemma {:induction false} TrimStartSkipsPadding(pre: string, s: string)
    requires AllWs(pre)
    ensures TrimStart(pre + s) == TrimStart(s)
    decreases |pre|
  {
    if pre != [] {
      assert (pre + s)[0] == pre[0];
      assert (pre + s)[1..] == pre[1..] + s;
      TrimStartSkipsPadding(pre[1..], s);
    } else {
      assert pre + s == s;
    }
  }

  /** Trailing white space after a string does not change where trimming its
      end lands. */
  lemma {:induction false} TrimEndSkipsPadding(s: string, post: string)
    requires AllWs(post)
    ensures TrimEnd(s + post) == TrimEnd(s)
    decreases |post|
  {
    if post != [] {
      var n := |post| - 1;
      assert (s + post)[|s + post| - 1] == post[n];
      assert (s + post)[..|s + post| - 1] == s + post[..n];
      TrimEndSkipsPadding(s, post[..n]);
    } else {
      assert s + post == s;
    }
  }

  lemma {:induction false} TrimStartThenTrailingPadding(s: string, post: string)
    requires AllWs(post)
    ensures TrimEnd(TrimStart(s + post)) == TrimEnd(TrimStart(s))
  {
    var t := TrimStart(s);
    var i := |s| - |t|;
    var lead := s[..i];
    if t == [] {
      assert TrimEnd(t) == [];
      TrimEmptyAllWs(s);
      AllWsConcat(s, post);
      AllWsTrimStartEmpty(s + post);
    } else {
      var kept := t + post;
      assert s + post == lead + kept by {
        assert s == lead + t;
      }
      TrimStartSkipsPadding(lead, kept);
      assert TrimStart(kept) == kept;
      TrimEndSkipsPadding(t, post);
    }
  }


  /** White space added on either side of a string is invisible to `trim`. */
  lemma {:induction false} TrimIgnoresPadding(pre: string, s: string, post: string)
    requires AllWs(pre) && AllWs(post)
    ensures Trim(pre + s + post) == Trim(s)
  {
    var padded, tail := pre + s + post, s + post;
    assert padded == pre + tail;
    TrimStartSkipsPadding(pre, tail);
    TrimStartThenTrailingPadding(s, post);
    calc {
      Trim(padded);
      TrimEnd(TrimStart(padded));
      TrimEnd(TrimStart(tail));
      TrimEnd(TrimStart(s));
      Trim(s);
    }
  }

  /** Trimming twice is trimming once. */
  lemma {:induction false} TrimIdempotent(s: string)
    ensures Trim(Trim(s)) == Trim(s)
  {
    var r := Trim(s);
    TrimIsUnpadding(s);
    var pre, post :| AllWs(pre) && AllWs(post) && s == pre + r + post;
    TrimIgnoresPadding(pre, r, post);
  }

  /** Number of occurrences of `c` in `s`. */
  function Count(s: string, c: char): nat {
    if s == [] then 0 else (if s[0] == c then 1 else 0) + Count(s[1..], c)
  }

  lemma {:induction false} CountZero(s: string, c: char)
    ensures Count(s, c) == 0 <==> forall k | 0 <= k < |s| :: s[k] != c
  {
    if s != [] {
      CountZero(s[1..], c);
      assert forall k | 1 <= k < |s| :: s[k] == s[1..][k - 1];
    }
  }

  /** With `c` at index `i`, it occurs exactly once exactly when no other index
      holds it. */
  lemma {:induction false} CountOneAt(s: string, c: char, i: int)
    requires 0 <= i < |s| && s[i] == c
    ensures Count(s, c) == 1 <==> forall k | 0 <= k < |s| && k != i :: s[k] != c
  {
    assert forall k | 1 <= k < |s| :: s[k] == s[1..][k - 1];
    if i == 0 {
      CountZero(s[1..], c);
    } else {
      CountOneAt(s[1..], c, i - 1);
      if s[0] == c {
        CountZero(s[1..], c);
        assert s[1..][i - 1] == c;
      }
    }
  }
}
