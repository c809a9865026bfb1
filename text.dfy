/** Strings as the bot handles them: sequences of Unicode characters, and
    Python's `str.strip()` with no argument, which removes leading and
    trailing whitespace as `str.isspace` defines it. */
module Text {

  type String = seq<char>

  /** The characters Python's `str.isspace` accepts: the ASCII controls
      TAB..CR and FS..US, SPACE, NEL, NO-BREAK SPACE, and the Unicode
      space separators and line/paragraph separators. */
  predicate IsSpace(c: char) {
    ('\t' <= c <= '\r') || ('\U{1C}' <= c <= ' ') ||
    c == '\U{85}' || c == '\U{A0}' || c == '\U{1680}' ||
    ('\U{2000}' <= c <= '\U{200A}') ||
    c == '\U{2028}' || c == '\U{2029}' || c == '\U{202F}' ||
    c == '\U{205F}' || c == '\U{3000}'
  }

  /** The same 29 characters, listed one by one. */
  const Whitespace: String :=
    "\t\n\U{0B}\U{0C}\r\U{1C}\U{1D}\U{1E}\U{1F} \U{85}\U{A0}\U{1680}" +
    "\U{2000}\U{2001}\U{2002}\U{2003}\U{2004}\U{2005}\U{2006}\U{2007}\U{2008}\U{2009}\U{200A}" +
    "\U{2028}\U{2029}\U{202F}\U{205F}\U{3000}"

  /** The ranges of `IsSpace` are exactly the listed characters. */
  lemma IsSpaceListed(c: char)
    ensures IsSpace(c) <==> c in Whitespace
  {
  }

  predicate AllSpace(s: String) {
    forall k :: 0 <= k < |s| ==> IsSpace(s[k])
  }

  predicate StartsWith(s: String, prefix: String) {
    |prefix| <= |s| && s[..|prefix|] == prefix
  }

  predicate EndsWith(s: String, suffix: String) {
    |suffix| <= |s| && s[|s| - |suffix|..] == suffix
  }

  /** `s.strip()`: drop whitespace from either end until neither end is
      whitespace. */
  function Strip(s: String): (r: String)
    ensures |r| <= |s|
    ensures r == [] || (!IsSpace(r[0]) && !IsSpace(r[|r| - 1]))
  {
    if s == [] then []
    else if IsSpace(s[0]) then Strip(s[1..])
    else if IsSpace(s[|s| - 1]) then Strip(s[..|s| - 1])
    else s
  }

  /** Whitespace followed by whitespace is whitespace. */
  lemma AllSpaceConcat(a: String, b: String)
    requires AllSpace(a) && AllSpace(b)
    ensures AllSpace(a + b)
  {
    forall k | 0 <= k < |a + b| ensures IsSpace((a + b)[k]) {
      if k >= |a| { assert (a + b)[k] == b[k - |a|]; }
    }
  }

  /** One more whitespace character in front keeps the split. */
  lemma SplitConsSpace(c: char, t: String, pre: String, r: String, post: String)
    requires IsSpace(c) && t == pre + r + post && AllSpace(pre) && AllSpace(post)
    ensures [c] + t == ([c] + pre) + r + post && AllSpace([c] + pre)
  {
    AllSpaceConcat([c], pre);
  }

  /** One more whitespace character at the back keeps the split. */
  lemma SplitSnocSpace(t: String, c: char, pre: String, r: String, post: String)
    requires IsSpace(c) && t == pre + r + post && AllSpace(pre) && AllSpace(post)
    ensures t + [c] == pre + r + (post + [c]) && AllSpace(post + [c])
  {
    AllSpaceConcat(post, [c]);
  }

  /** What `Strip` removes is exactly the whitespace at both ends: `s` is
      some whitespace, then the stripped text, then some whitespace. */
  lemma {:induction false} StripIsMiddle(s: String)
    ensures exists pre, post :: s == pre + Strip(s) + post && AllSpace(pre) && AllSpace(post)
  {
    var r := Strip(s);
    var none: String := [];
    if s == [] {
      assert s == none + r + none && AllSpace(none);
    } else if IsSpace(s[0]) {
      var t := s[1..];
      assert r == Strip(t) && s == [s[0]] + t;
      StripIsMiddle(t);
      var pre, post :| t == pre + r + post && AllSpace(pre) && AllSpace(post);
      SplitConsSpace(s[0], t, pre, r, post);
    } else if IsSpace(s[|s| - 1]) {
      var t := s[..|s| - 1];
      assert r == Strip(t) && s == t + [s[|s| - 1]];
      StripIsMiddle(t);
      var pre, post :| t == pre + r + post && AllSpace(pre) && AllSpace(post);
      SplitSnocSpace(t, s[|s| - 1], pre, r, post);
    } else {
      assert r == s;
      assert s == none + r + none && AllSpace(none);
    }
  }

  /** Stripping is empty exactly when the text is only whitespace. */
  lemma {:induction false} StripEmptyIff(s: String)
    ensures Strip(s) == [] <==> AllSpace(s)
  {
    if s == [] {
    } else if IsSpace(s[0]) {
      StripEmptyIff(s[1..]);
      assert AllSpace(s) <==> AllSpace(s[1..]) by {
        assert forall k :: 0 < k < |s| ==> s[k] == s[1..][k - 1];
      }
    } else if IsSpace(s[|s| - 1]) {
      StripEmptyIff(s[..|s| - 1]);
      assert AllSpace(s) <==> AllSpace(s[..|s| - 1]) by {
        assert forall k :: 0 <= k < |s| - 1 ==> s[k] == s[..|s| - 1][k];
      }
    }
  }

  /** Stripping twice is stripping once. */
  lemma StripIdempotent(s: String)
    ensures Strip(Strip(s)) == Strip(s)
  {
  }
}
