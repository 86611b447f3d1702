/**
 * The two Foundation string operations the quote normaliser relies on:
 * `trimmingCharacters(in: .whitespacesAndNewlines)` and `capitalized`.
 * Both work here on Unicode scalar values (Dafny `char`s).
 */
module FoundationText {

  /** Membership in `CharacterSet.whitespacesAndNewlines`: the Unicode White_Space code points. */
  predicate IsWhitespace(c: char) {
    || c == ' '
    || ('\t' <= c <= '\r')          // tab, line feed, vertical tab, form feed, carriage return
    || c == '\U{0085}' || c == '\U{00A0}' || c == '\U{1680}'
    || ('\U{2000}' <= c <= '\U{200A}')
    || c == '\U{2028}' || c == '\U{2029}' || c == '\U{202F}' || c == '\U{205F}' || c == '\U{3000}'
  }

  /** Every character of `s` is whitespace (in particular the empty string). */
  predicate Blank(s: string) {
    forall k :: 0 <= k < |s| ==> IsWhitespace(s[k])
  }

  /** Non-empty, and neither starts nor ends with whitespace: the shape trimming produces. */
  predicate IsTrimmedNonEmpty(s: string) {
    s != [] && !IsWhitespace(s[0]) && !IsWhitespace(s[|s| - 1])
  }

  /**
   * `trimmingCharacters(in: .whitespacesAndNewlines)`: drops whitespace from
   * the front and from the back until neither end is whitespace.
   */
  function Trim(s: string): (r: string)
    ensures |r| <= |s|
    ensures r == [] <==> Blank(s)
    ensures r != [] ==> IsTrimmedNonEmpty(r)
    decreases |s|
  {
    if s == [] then s
    else if IsWhitespace(s[0]) then
      assert Blank(s) <==> Blank(s[1..]) by { BlankTail(s); }
      Trim(s[1..])
    else if IsWhitespace(s[|s| - 1]) then
      assert Blank(s) <==> Blank(s[..|s| - 1]) by { BlankFront(s); }
      Trim(s[..|s| - 1])
    else s
  }

  /** A string starting with whitespace is blank exactly when the rest of it is. */
  lemma BlankTail(s: string)
    requires s != [] && IsWhitespace(s[0])
    ensures Blank(s) <==> Blank(s[1..])
  {
  }

  /** A string ending with whitespace is blank exactly when the rest of it is. */
  lemma BlankFront(s: string)
    requires s != [] && IsWhitespace(s[|s| - 1])
    ensures Blank(s) <==> Blank(s[..|s| - 1])
  {
  }

  /** Blankness of a concatenation is blankness of both parts. */
  lemma BlankConcat(a: string, b: string)
    ensures Blank(a + b) <==> Blank(a) && Blank(b)
  {
    if Blank(a + b) {
      forall k | 0 <= k < |a| ensures IsWhitespace(a[k]) { assert (a + b)[k] == a[k]; }
      forall k | 0 <= k < |b| ensures IsWhitespace(b[k]) { assert (a + b)[|a| + k] == b[k]; }
    }
  }

  /** How many characters trimming removes from the front of `s`. */
  function TrimOffset(s: string): (i: nat)
    ensures i <= |s|
    decreases |s|
  {
    if s == [] then 0
    else if IsWhitespace(s[0]) then 1 + TrimOffset(s[1..])
    else if IsWhitespace(s[|s| - 1]) then TrimOffset(s[..|s| - 1])
    else 0
  }

  /** `r` is the part of `s` starting at `i`, with only whitespace before and after it. */
  predicate IsInnerSlice(s: string, i: nat, r: string) {
    && i + |r| <= |s|
    && r == s[i..i + |r|]
    && Blank(s[..i])
    && Blank(s[i + |r|..])
  }

  /** An inner slice of the tail of `s` is one of `s` when `s` starts with whitespace. */
  lemma InnerSliceFront(s: string, i: nat, r: string)
    requires s != [] && IsWhitespace(s[0]) && IsInnerSlice(s[1..], i, r)
    ensures IsInnerSlice(s, i + 1, r)
  {
    var t := s[1..];
    assert s[..i + 1] == [s[0]] + t[..i];
    BlankConcat([s[0]], t[..i]);
    assert s[i + 1 + |r|..] == t[i + |r|..];
  }

  /** An inner slice of the front of `s` is one of `s` when `s` ends with whitespace. */
  lemma InnerSliceBack(s: string, i: nat, r: string)
    requires s != [] && IsWhitespace(s[|s| - 1]) && IsInnerSlice(s[..|s| - 1], i, r)
    ensures IsInnerSlice(s, i, r)
  {
    var t := s[..|s| - 1];
    assert s[i + |r|..] == t[i + |r|..] + [s[|s| - 1]];
    BlankConcat(t[i + |r|..], [s[|s| - 1]]);
  }

  /**
   * The trimmed string is the part of `s` between a blank prefix and a blank
   * suffix: only surrounding whitespace is removed.
   */
  lemma {:induction false} TrimIsInnerSlice(s: string)
    ensures IsInnerSlice(s, TrimOffset(s), Trim(s))
    decreases |s|
  {
    if s == [] {
      assert s[..0] == [] && s[0..] == [];
    } else if IsWhitespace(s[0]) {
      TrimIsInnerSlice(s[1..]);
      InnerSliceFront(s, TrimOffset(s[1..]), Trim(s[1..]));
    } else if IsWhitespace(s[|s| - 1]) {
      TrimIsInnerSlice(s[..|s| - 1]);
      InnerSliceBack(s, TrimOffset(s[..|s| - 1]), Trim(s[..|s| - 1]));
    } else {
      assert s[..0] == [] && s[|s|..] == [] && s[0..|s|] == s;
    }
  }

  /** A string that is already trimmed and non-empty is its own trim. */
  lemma TrimOfTrimmed(s: string)
    requires IsTrimmedNonEmpty(s)
    ensures Trim(s) == s
  {
  }

  /** Trimming an already trimmed string changes nothing. */
  lemma TrimIdempotent(s: string)
    ensures Trim(Trim(s)) == Trim(s)
  {
  }

  /** ASCII upper-casing of one character; every other character is left alone. */
  function ToUpper(c: char): (u: char)
    ensures u == c || ('a' <= c <= 'z' && 'A' <= u <= 'Z')
  {
    if 'a' <= c <= 'z' then (c as int - 32) as char else c
  }

  /** ASCII lower-casing of one character; every other character is left alone. */
  function ToLower(c: char): (l: char)
    ensures l == c || ('A' <= c <= 'Z' && 'a' <= l <= 'z')
  {
    if 'A' <= c <= 'Z' then (c as int + 32) as char else c
  }

  /**
   * `String.capitalized`, scanning left to right: the first character of each
   * word is upper-cased and the rest lower-cased, a word starting at the
   * beginning of the string or right after a whitespace character.
   * `atWordStart` says whether the first character of `s` starts a word.
   */
  function CapitalizeFrom(s: string, atWordStart: bool): (r: string)
    ensures |r| == |s|
    ensures |s| > 0 ==> r[0] == (if atWordStart then ToUpper(s[0]) else ToLower(s[0]))
    ensures forall k :: 0 < k < |s| ==>
      r[k] == (if IsWhitespace(s[k - 1]) then ToUpper(s[k]) else ToLower(s[k]))
    decreases |s|
  {
    if s == [] then []
    else
      var head := if atWordStart then ToUpper(s[0]) else ToLower(s[0]);
      var tail := CapitalizeFrom(s[1..], IsWhitespace(s[0]));
      [head] + tail
  }

  /** `String.capitalized`. */
  function Capitalized(s: string): (r: string)
    ensures |r| == |s|
  {
    CapitalizeFrom(s, true)
  }

  /** Capitalizing changes letters only: whitespace, `-` and `_` stay where they were. */
  lemma CapitalizedKeepsNonLetters(s: string)
    ensures |Capitalized(s)| == |s|
    ensures forall k :: 0 <= k < |s| ==> (IsWhitespace(Capitalized(s)[k]) <==> IsWhitespace(s[k]))
    ensures forall k :: 0 <= k < |s| ==> (Capitalized(s)[k] == '-' <==> s[k] == '-')
    ensures forall k :: 0 <= k < |s| ==> (Capitalized(s)[k] == '_' <==> s[k] == '_')
  {
    var r := Capitalized(s);
    forall k | 0 <= k < |s|
      ensures r[k] == ToUpper(s[k]) || r[k] == ToLower(s[k])
    {
      assert r == CapitalizeFrom(s, true);
      if k > 0 {
        assert r[k] == (if IsWhitespace(s[k - 1]) then ToUpper(s[k]) else ToLower(s[k]));
      }
    }
  }

  /** A capitalized trimmed string is still trimmed and non-empty. */
  lemma CapitalizedKeepsTrimmed(s: string)
    requires IsTrimmedNonEmpty(s)
    ensures IsTrimmedNonEmpty(Capitalized(s))
  {
    CapitalizedKeepsNonLetters(s);
  }

  /** Capitalizing twice is capitalizing once. */
  lemma CapitalizedIdempotent(s: string)
    ensures Capitalized(Capitalized(s)) == Capitalized(s)
  {
    var c := Capitalized(s);
    CapitalizedKeepsNonLetters(s);
    var cc := Capitalized(c);
    forall k | 0 <= k < |s| ensures cc[k] == c[k] {
      if k > 0 {
        assert IsWhitespace(c[k - 1]) <==> IsWhitespace(s[k - 1]);
      }
    }
  }
}
