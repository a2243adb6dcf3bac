/** Python's argument-less `str.strip()`, over an explicit whitespace set. */
module Text {

  /** The characters Python's `str.isspace()` accepts: the ASCII controls
      tab, line feed, vertical tab, form feed, carriage return, the file,
      group, record and unit separators, the space, and the Unicode
      separators and spaces (NEL, no-break space, ogham space mark,
      en quad .. hair space, line and paragraph separators, narrow no-break,
      medium mathematical and ideographic space). */
  predicate IsWhitespace(c: char) {
    var n := c as int;
    (9 <= n <= 13) || (28 <= n <= 32) || n == 0x85 || n == 0xA0 || n == 0x1680
    || (0x2000 <= n <= 0x200A) || n == 0x2028 || n == 0x2029 || n == 0x202F
    || n == 0x205F || n == 0x3000
  }

  predicate AllWhitespace(s: string) {
    forall i :: 0 <= i < |s| ==> IsWhitespace(s[i])
  }

  /** Neither starts nor ends with whitespace (vacuously so when empty). */
  predicate Trimmed(s: string) {
    s != [] ==> !IsWhitespace(s[0]) && !IsWhitespace(s[|s| - 1])
  }

  /** `s.lstrip()`: `s` without its leading whitespace. */
  function TrimStart(s: string): string {
    if s != [] && IsWhitespace(s[0]) then TrimStart(s[1..]) else s
  }

  /** `s.rstrip()`: `s` without its trailing whitespace. */
  function TrimEnd(s: string): string {
    if s != [] && IsWhitespace(s[|s| - 1]) then TrimEnd(s[..|s| - 1]) else s
  }

  /** `s.strip()`: `s` without its leading and trailing whitespace. */
  function Strip(s: string): string {
    TrimEnd(TrimStart(s))
  }

  /** `TrimStart` keeps a suffix of `s`, cuts off only whitespace, and what
      it keeps does not start with whitespace. */
  lemma {:induction false} TrimStartIsSuffix(s: string)
    ensures |TrimStart(s)| <= |s|
    ensures TrimStart(s) == s[|s| - |TrimStart(s)|..]
    ensures AllWhitespace(s[..|s| - |TrimStart(s)|])
    ensures TrimStart(s) != [] ==> !IsWhitespace(TrimStart(s)[0])
  {
    if s != [] && IsWhitespace(s[0]) {
      TrimStartIsSuffix(s[1..]);
      var cut := |s| - |TrimStart(s)|;
      assert s[..cut] == [s[0]] + s[1..][..cut - 1];
    }
  }

  /** `TrimEnd` keeps a prefix of `s`, cuts off only whitespace, and what
      it keeps does not end with whitespace. */
  lemma {:induction false} TrimEndIsPrefix(s: string)
    ensures |TrimEnd(s)| <= |s|
    ensures TrimEnd(s) == s[..|TrimEnd(s)|]
    ensures AllWhitespace(s[|TrimEnd(s)|..])
    ensures TrimEnd(s) != [] ==> !IsWhitespace(TrimEnd(s)[|TrimEnd(s)| - 1])
  {
    if s != [] && IsWhitespace(s[|s| - 1]) {
      var init := s[..|s| - 1];
      TrimEndIsPrefix(init);
      var keep := |TrimEnd(s)|;
      assert s[keep..] == init[keep..] + [s[|s| - 1]];
      assert init[..keep] == s[..keep];
    }
  }

  /** What `Strip` keeps: the contiguous piece of `s` after its leading
      whitespace. Everything cut off on either side is whitespace, and the
      piece neither starts nor ends with whitespace. */
  lemma StripIsTrimmed(s: string)
    ensures |TrimStart(s)| <= |s|
    ensures var lo, r := |s| - |TrimStart(s)|, Strip(s);
      && lo + |r| <= |s|
      && r == s[lo..lo + |r|]
      && AllWhitespace(s[..lo])
      && AllWhitespace(s[lo + |r|..])
      && Trimmed(r)
  {
    var lo, rest := |s| - |TrimStart(s)|, TrimStart(s);
    TrimStartIsSuffix(s);
    TrimEndIsPrefix(rest);
    var r := Strip(s);
    assert rest[..|r|] == s[lo..lo + |r|];
    assert rest[|r|..] == s[lo + |r|..];
    if r != [] {
      assert r[0] == rest[0];
    }
  }

  /** `TrimStart` removes a whitespace prefix and stops at the first other character. */
  lemma {:induction false} TrimStartPadded(lead: string, t: string)
    requires AllWhitespace(lead)
    requires t == [] || !IsWhitespace(t[0])
    ensures TrimStart(lead + t) == t
  {
    if lead == [] {
      assert lead + t == t;
    } else {
      assert (lead + t)[1..] == lead[1..] + t;
      TrimStartPadded(lead[1..], t);
    }
  }

  /** `TrimEnd` removes a whitespace suffix and stops at the last other character. */
  lemma {:induction false} TrimEndPadded(t: string, trail: string)
    requires AllWhitespace(trail)
    requires t == [] || !IsWhitespace(t[|t| - 1])
    ensures TrimEnd(t + trail) == t
  {
    if trail == [] {
      assert t + trail == t;
    } else {
      var init := trail[..|trail| - 1];
      assert (t + trail)[..|t + trail| - 1] == t + init;
      TrimEndPadded(t, init);
    }
  }

  /** A text padded by whitespace on both sides strips to the text itself,
      provided the text neither starts nor ends with whitespace; in
      particular an all-whitespace string strips to the empty string. */
  lemma StripPadded(lead: string, text: string, trail: string)
    requires AllWhitespace(lead) && AllWhitespace(trail)
    requires Trimmed(text)
    ensures Strip(lead + text + trail) == text
  {
    if text == [] {
      var blank := lead + trail;
      assert lead + text + trail == blank + [];
      assert AllWhitespace(blank) by {
        forall i | |lead| <= i < |blank| ensures IsWhitespace(blank[i]) {
          assert blank[i] == trail[i - |lead|];
        }
      }
      TrimStartPadded(blank, []);
    } else {
      assert lead + text + trail == lead + (text + trail);
      assert (text + trail)[0] == text[0];
      TrimStartPadded(lead, text + trail);
      TrimEndPadded(text, trail);
    }
  }

  /** Stripping twice is stripping once. */
  lemma StripIdempotent(s: string)
    ensures Strip(Strip(s)) == Strip(s)
  {
    var r := Strip(s);
    StripIsTrimmed(s);
    StripPadded([], r, []);
    assert [] + r + [] == r;
  }
}
