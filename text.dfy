/**
 * The few string operations of Python's `str` that the pipeline relies on:
 * the substring test `pat in s`, `lower()` (restricted to ASCII letters),
 * `strip()` (restricted to ASCII whitespace) and `replace(pat, "")`.
 */
module Text {

  /** No string is listed twice. */
  predicate NoDuplicates(words: seq<string>) {
    forall i, j :: 0 <= i < j < |words| ==> words[i] != words[j]
  }

  /** `pat` occurs at the very start of `s`. */
  predicate IsPrefix(pat: string, s: string) {
    |pat| <= |s| && s[..|pat|] == pat
  }

  /** Python's `pat in s`: `pat` occurs as a contiguous piece of `s`. */
  predicate Contains(s: string, pat: string)
    decreases |s|
  {
    IsPrefix(pat, s) || (|s| > 0 && Contains(s[1..], pat))
  }

  /** The empty string occurs in every string (Python: `"" in s` is True). */
  lemma EmptyOccursEverywhere(s: string)
    ensures Contains(s, "")
  {
    assert IsPrefix("", s);
  }

  /** A piece of `a` is still a piece of `a + b`. */
  lemma {:induction false} ContainsInLeft(a: string, b: string, pat: string)
    requires Contains(a, pat)
    ensures Contains(a + b, pat)
  {
    if IsPrefix(pat, a) {
      assert (a + b)[..|pat|] == a[..|pat|];
    } else {
      ContainsInLeft(a[1..], b, pat);
      assert (a + b)[1..] == a[1..] + b;
    }
  }

  /** A piece of `b` is still a piece of `a + b`. */
  lemma {:induction false} ContainsInRight(a: string, b: string, pat: string)
    requires Contains(b, pat)
    ensures Contains(a + b, pat)
  {
    if a == [] {
      assert a + b == b;
    } else {
      ContainsInRight(a[1..], b, pat);
      assert (a + b)[1..] == a[1..] + b;
    }
  }

  /** ASCII case folding of one character. */
  function LowerChar(c: char): char {
    if 'A' <= c <= 'Z' then (c as int + 32) as char else c
  }

  /** Python's `s.lower()`, on ASCII letters. */
  function ToLower(s: string): (r: string)
    ensures |r| == |s|
    decreases |s|
  {
    if s == [] then [] else [LowerChar(s[0])] + ToLower(s[1..])
  }

  /** Lowering distributes over concatenation. */
  lemma {:induction false} ToLowerAppend(a: string, b: string)
    ensures ToLower(a + b) == ToLower(a) + ToLower(b)
  {
    if a != [] {
      assert (a + b)[1..] == a[1..] + b;
      ToLowerAppend(a[1..], b);
    } else {
      assert a + b == b;
    }
  }

  /** Lowering an already lowered string changes nothing. */
  lemma {:induction false} ToLowerIdempotent(s: string)
    ensures ToLower(ToLower(s)) == ToLower(s)
  {
    if s != [] {
      ToLowerIdempotent(s[1..]);
    }
  }

  /** Python's `str.isspace()` on one character, restricted to ASCII. */
  predicate IsSpace(c: char) {
    c == ' ' || c == '\t' || c == '\n' || c == '\r' || c == '\U{000B}' || c == '\U{000C}'
    || ('\U{001C}' <= c <= '\U{001F}')
  }

  /** The number of whitespace characters `s` starts with. */
  function LeadingSpaces(s: string): (n: nat)
    ensures n <= |s|
    ensures forall i :: 0 <= i < n ==> IsSpace(s[i])
    ensures n < |s| ==> !IsSpace(s[n])
    decreases |s|
  {
    if s != [] && IsSpace(s[0]) then 1 + LeadingSpaces(s[1..]) else 0
  }

  /** Python's `s.rstrip()`: drops the longest all-whitespace suffix. */
  function TrimEnd(s: string): (r: string)
    ensures |r| <= |s| && r == s[..|r|]
    ensures forall i :: |r| <= i < |s| ==> IsSpace(s[i])
    ensures r != [] ==> !IsSpace(r[|r| - 1])
    decreases |s|
  {
    if s != [] && IsSpace(s[|s| - 1]) then TrimEnd(s[..|s| - 1]) else s
  }

  /**
   * Python's `s.strip()`: the result is the slice of `s` after its leading
   * whitespace, with only whitespace after it, and it neither starts nor
   * ends with whitespace.
   */
  function Strip(s: string): (r: string)
    ensures LeadingSpaces(s) + |r| <= |s|
    ensures r == s[LeadingSpaces(s)..LeadingSpaces(s) + |r|]
    ensures forall i :: LeadingSpaces(s) + |r| <= i < |s| ==> IsSpace(s[i])
    ensures r != [] ==> !IsSpace(r[0]) && !IsSpace(r[|r| - 1])
  {
    var n := LeadingSpaces(s);
    var t := s[n..];
    var r := TrimEnd(t);
    assert forall i | n + |r| <= i < |s| :: IsSpace(s[i]) by {
      forall i | n + |r| <= i < |s| ensures IsSpace(s[i]) {
        assert s[i] == t[i - n];
      }
    }
    assert r != [] ==> r[0] == s[n];
    r
  }

  /** `s.strip()` is empty exactly when `s` is nothing but whitespace. */
  lemma StripEmptyIffBlank(s: string)
    ensures Strip(s) == [] <==> forall i :: 0 <= i < |s| ==> IsSpace(s[i])
  {
    var r := Strip(s);
    if r != [] {
      assert s[LeadingSpaces(s)] == r[0];
    }
  }

  /** Stripping a stripped string changes nothing. */
  lemma StripIdempotent(s: string)
    ensures Strip(Strip(s)) == Strip(s)
  {
    var r := Strip(s);
    if r != [] {
      assert LeadingSpaces(r) == 0;
      assert TrimEnd(r) == r;
    }
  }

  /**
   * Python's `s.replace(pat, "")`: one left-to-right pass that drops each
   * non-overlapping occurrence of `pat` it meets.
   */
  function DeleteAll(s: string, pat: string): (r: string)
    requires pat != []
    ensures |r| <= |s|
    ensures !Contains(s, pat) ==> r == s
    decreases |s|
  {
    if IsPrefix(pat, s) then DeleteAll(s[|pat|..], pat)
    else if s == [] then []
    else [s[0]] + DeleteAll(s[1..], pat)
  }
}
