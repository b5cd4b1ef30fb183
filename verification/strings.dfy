/** `identy::strings::trim_whitespace` (Identy/Identy_string.cxx). */
module Strings {
  import opened Bytes

  /** The characters listed in `WHITESPACE_CHARS`: space, tab, carriage return, line feed. */
  predicate IsWhitespace(c: Char8) {
    c == ' ' || c == '\t' || c == '\r' || c == '\n'
  }

  predicate AllWhitespace(s: seq<Char8>) {
    forall i :: 0 <= i < |s| ==> IsWhitespace(s[i])
  }

  /** `s.find_first_not_of(WHITESPACE_CHARS)`, with `None` for `npos`. */
  function FindFirstNotOf(s: seq<Char8>): (r: Option<nat>)
    ensures r.Some? ==> r.value < |s| && !IsWhitespace(s[r.value]) && AllWhitespace(s[..r.value])
    ensures r.None? <==> AllWhitespace(s)
  {
    if s == [] then None
    else if !IsWhitespace(s[0]) then Some(0)
    else match FindFirstNotOf(s[1..])
      case None => None
      case Some(k) =>
        assert s[..k + 1] == [s[0]] + s[1..][..k];
        Some(k + 1)
  }

  /** `s.find_last_not_of(WHITESPACE_CHARS)`, with `None` for `npos`. */
  function FindLastNotOf(s: seq<Char8>): (r: Option<nat>)
    ensures r.Some? ==> r.value < |s| && !IsWhitespace(s[r.value]) && AllWhitespace(s[r.value + 1..])
    ensures r.None? <==> AllWhitespace(s)
  {
    if s == [] then None
    else if !IsWhitespace(s[|s| - 1]) then Some(|s| - 1)
    else match FindLastNotOf(s[..|s| - 1])
      case None => None
      case Some(k) =>
        assert s[k + 1..] == s[..|s| - 1][k + 1..] + [s[|s| - 1]];
        Some(k)
  }

  /** `trim_whitespace`: the view between the first and the last non-whitespace
      character, or the empty view when there is none. */
  function TrimWhitespace(s: seq<Char8>): (r: seq<Char8>)
    ensures |r| <= |s|
    ensures r == [] <==> AllWhitespace(s)
    ensures r != [] ==> !IsWhitespace(r[0]) && !IsWhitespace(r[|r| - 1])
  {
    var first := FindFirstNotOf(s);
    if first.None? then []
    else
      var last := FindLastNotOf(s);
      s[first.value..last.value + 1]
  }

  /** The result is a contiguous piece of the input, and what was cut on either
      side is whitespace only: the characters kept inside are never touched. */
  lemma TrimIsInfix(s: seq<Char8>) returns (start: nat)
    ensures start + |TrimWhitespace(s)| <= |s|
    ensures s[start..start + |TrimWhitespace(s)|] == TrimWhitespace(s)
    ensures AllWhitespace(s[..start])
    ensures AllWhitespace(s[start + |TrimWhitespace(s)|..])
  {
    var first := FindFirstNotOf(s);
    start := if first.None? then |s| else first.value;
  }

  /** A string that already begins and ends with a character outside the four
      (a letter, NUL, '\v', '\f' or a non-ASCII byte) is returned unchanged. */
  lemma TrimKeepsNonWhitespaceEdges(s: seq<Char8>)
    requires |s| > 0 && !IsWhitespace(s[0]) && !IsWhitespace(s[|s| - 1])
    ensures TrimWhitespace(s) == s
  {
    assert FindFirstNotOf(s) == Some(0);
    assert FindLastNotOf(s) == Some(|s| - 1);
  }

  /** Trimming twice gives what trimming once gives. */
  lemma TrimIdempotent(s: seq<Char8>)
    ensures TrimWhitespace(TrimWhitespace(s)) == TrimWhitespace(s)
  {
    var r := TrimWhitespace(s);
    if r != [] {
      TrimKeepsNonWhitespaceEdges(r);
    }
  }

  /** '\v', '\f' and NUL are not among the trimmed characters. */
  lemma ControlCharactersAreKept(c: Char8)
    requires c == '\U{0B}' || c == '\U{0C}' || c == '\0'
    ensures TrimWhitespace([c]) == [c]
  {
    TrimKeepsNonWhitespaceEdges([c]);
  }
}
