/** String normalisation used when building lookup keys: Python's `str.strip()`
    and `str.replace('"', "''")`. */
module Text {

  /** The characters for which Python 3's `str.isspace()` holds; `strip()` with
      no argument removes exactly these from both ends. */
  predicate IsWhitespace(c: char) {
    ('\t' <= c <= '\r') || ('\U{1C}' <= c <= ' ') || c == '\U{85}' || c == '\U{A0}'
    || c == '\U{1680}' || ('\U{2000}' <= c <= '\U{200A}') || c == '\U{2028}'
    || c == '\U{2029}' || c == '\U{202F}' || c == '\U{205F}' || c == '\U{3000}'
  }

  /** Neither end of `s` is whitespace. */
  predicate IsStripped(s: string) {
    s == [] || (!IsWhitespace(s[0]) && !IsWhitespace(s[|s| - 1]))
  }

  /** `s` with its leading whitespace removed: a suffix of `s` that is empty or
      starts with a character that is not whitespace. */
  function TrimStart(s: string): (r: string)
    ensures |r| <= |s| && r == s[|s| - |r|..]
    ensures r == [] || !IsWhitespace(r[0])
  {
    if s != [] && IsWhitespace(s[0]) then TrimStart(s[1..]) else s
  }

  /** Everything `TrimStart` removes is whitespace. */
  lemma {:induction false} TrimStartRemovesWhitespace(s: string)
    ensures forall k :: 0 <= k < |s| - |TrimStart(s)| ==> IsWhitespace(s[k])
    decreases |s|
  {
    if s != [] && IsWhitespace(s[0]) {
      TrimStartRemovesWhitespace(s[1..]);
      assert forall k :: 1 <= k < |s| ==> s[k] == s[1..][k - 1];
    }
  }

  /** `s` with its trailing whitespace removed: a prefix of `s` that is empty or
      ends with a character that is not whitespace. */
  function TrimEnd(s: string): (r: string)
    ensures |r| <= |s| && r == s[..|r|]
    ensures r == [] || !IsWhitespace(r[|r| - 1])
  {
    if s != [] && IsWhitespace(s[|s| - 1]) then TrimEnd(s[..|s| - 1]) else s
  }

  /** Everything `TrimEnd` removes is whitespace. */
  lemma {:induction false} TrimEndRemovesWhitespace(s: string)
    ensures forall k :: |TrimEnd(s)| <= k < |s| ==> IsWhitespace(s[k])
    decreases |s|
  {
    if s != [] && IsWhitespace(s[|s| - 1]) {
      TrimEndRemovesWhitespace(s[..|s| - 1]);
    }
  }

  /** Number of whitespace characters `Strip` removes from the front of `s`. */
  function LeadingWhitespace(s: string): nat {
    |s| - |TrimStart(s)|
  }

  /** Python's `s.strip()`. */
  function Strip(s: string): (r: string)
    ensures |r| <= |s|
  {
    TrimEnd(TrimStart(s))
  }

  /** The result of `Strip` has no whitespace at either end. */
  lemma {:induction false} StripIsStripped(s: string)
    ensures IsStripped(Strip(s))
  {
    var t := TrimStart(s);
    var r := TrimEnd(t);
    assert r != [] ==> r[0] == t[0];
  }

  /** What `Strip` keeps is the slice of `s` after its leading whitespace. */
  lemma {:induction false} StripSlice(s: string)
    ensures var lw, r := LeadingWhitespace(s), Strip(s);
            lw + |r| <= |s| && r == s[lw..lw + |r|]
  {
    var t := TrimStart(s);
    var lw := |s| - |t|;
    assert TrimEnd(t) == s[lw..][..|TrimEnd(t)|];
  }

  /** Everything `Strip` removes after what it keeps is whitespace. */
  lemma {:induction false} StripTrailing(s: string)
    ensures forall k :: LeadingWhitespace(s) + |Strip(s)| <= k < |s| ==> IsWhitespace(s[k])
  {
    var t := TrimStart(s);
    var lw := |s| - |t|;
    TrimEndRemovesWhitespace(t);
    forall k | lw + |TrimEnd(t)| <= k < |s|
      ensures IsWhitespace(s[k])
    {
      assert s[k] == t[k - lw];
    }
  }

  /** `Strip` keeps a slice of `s` and removes only whitespace, from both ends. */
  lemma {:induction false} StripRemovesOnlyWhitespace(s: string)
    ensures var lw, r := LeadingWhitespace(s), Strip(s);
            && lw + |r| <= |s|
            && r == s[lw..lw + |r|]
            && (forall k :: 0 <= k < lw ==> IsWhitespace(s[k]))
            && (forall k :: lw + |r| <= k < |s| ==> IsWhitespace(s[k]))
  {
    StripSlice(s);
    TrimStartRemovesWhitespace(s);
    StripTrailing(s);
  }

  /** A string with no whitespace at either end is its own strip; with
      `StripIsStripped`, stripping twice is stripping once. */
  lemma {:induction false} StripStripped(s: string)
    requires IsStripped(s)
    ensures Strip(s) == s
  {
  }

  /** Python's `s.replace('"', "''")`: every double quote becomes two single
      quotes, so the result has no double quote and a string without one is left
      as it is. */
  function ReplaceQuotes(s: string): (r: string)
    ensures '"' !in r
    ensures '"' !in s ==> r == s
  {
    if s == [] then []
    else (if s[0] == '"' then "''" else [s[0]]) + ReplaceQuotes(s[1..])
  }

  /** The character `ReplaceQuotes` puts at an end of the result for the character
      `c` at that end of its input. */
  function QuoteEnd(c: char): char {
    if c == '"' then '\'' else c
  }

  /** Replacing a double quote at an end does not put whitespace there. */
  lemma {:induction false} QuoteEndNotWhitespace(c: char)
    requires !IsWhitespace(c)
    ensures !IsWhitespace(QuoteEnd(c))
  {
  }

  /** `ReplaceQuotes` maps the first and the last character of a non-empty input to
      the first and the last character of its result. */
  lemma {:induction false} ReplaceQuotesEnds(s: string)
    ensures var r := ReplaceQuotes(s);
            s != [] ==> r != [] && r[0] == QuoteEnd(s[0]) && r[|r| - 1] == QuoteEnd(s[|s| - 1])
    decreases |s|
  {
    if |s| > 1 {
      ReplaceQuotesEnds(s[1..]);
    }
  }

  /** The key under which a wizard turn is indexed: stripped, then quotes
      replaced. Such a key has no double quote. */
  function NormalizeKey(text: string): (r: string)
    ensures '"' !in r
  {
    ReplaceQuotes(Strip(text))
  }

  /** Replacing quotes keeps a string free of whitespace at both ends. */
  lemma {:induction false} ReplaceQuotesKeepsStripped(t: string)
    requires IsStripped(t)
    ensures IsStripped(ReplaceQuotes(t))
  {
    if t != [] {
      ReplaceQuotesEnds(t);
      QuoteEndNotWhitespace(t[0]);
      QuoteEndNotWhitespace(t[|t| - 1]);
    }
  }

  /** A key built by `NormalizeKey` has no whitespace at either end. */
  lemma {:induction false} NormalizeKeyIsStripped(text: string)
    ensures IsStripped(NormalizeKey(text))
  {
    StripIsStripped(text);
    ReplaceQuotesKeepsStripped(Strip(text));
  }

  /** `[s.strip() for s in v]`. */
  function StripAll(v: seq<string>): seq<string> {
    seq(|v|, i requires 0 <= i < |v| => Strip(v[i]))
  }
}
