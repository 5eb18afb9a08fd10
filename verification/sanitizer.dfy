/** The path sanitiser of the uploads service: `name.replace(/[^a-z0-9\-_]/gi, '_').toLowerCase()`. */
module Sanitizer {

  /** Characters a sanitised name is made of: `[a-z0-9_-]`. */
  predicate IsSafeChar(c: char) {
    'a' <= c <= 'z' || '0' <= c <= '9' || c == '-' || c == '_'
  }

  /** Characters the case-insensitive class `[a-z0-9\-_]` matches, so the
      replacement leaves them alone. Without the `u` flag JavaScript folds case
      only between ASCII letters here, so these are exactly the ASCII letters,
      digits, `-` and `_`. */
  predicate IsKeptChar(c: char) {
    IsSafeChar(c) || 'A' <= c <= 'Z'
  }

  /** `toLowerCase` on the characters that can reach it (the replacement has
      already turned everything else into `_`). */
  function ToLowerAscii(c: char): char {
    if 'A' <= c <= 'Z' then (c as int + 32) as char else c
  }

  /** A character of the Basic Multilingual Plane: one UTF-16 code unit. */
  predicate IsBmpChar(c: char) {
    c as int <= 0xFFFF
  }

  /** A string all of whose characters are one UTF-16 code unit long. */
  predicate IsBmp(s: string) {
    forall i :: 0 <= i < |s| ==> IsBmpChar(s[i])
  }

  /** The number of UTF-16 code units of a character: two for a surrogate pair. */
  function CodeUnits(c: char): nat {
    if IsBmpChar(c) then 1 else 2
  }

  /** JavaScript's `length`: the number of UTF-16 code units of the string. */
  function Utf16Length(s: string): (n: nat)
    ensures |s| <= n <= 2 * |s|
    ensures IsBmp(s) ==> n == |s|
  {
    if |s| == 0 then 0 else CodeUnits(s[0]) + Utf16Length(s[1..])
  }

  /** The replacement of one character. The regular expression has no `u`
      flag, so it matches UTF-16 code units: a character outside the Basic
      Multilingual Plane is two unmatched surrogates and becomes `__`. */
  function ReplaceChar(c: char): (r: string)
    ensures |r| == CodeUnits(c)
  {
    if IsKeptChar(c) then [c] else if IsBmpChar(c) then "_" else "__"
  }

  /** The regular-expression replacement step: one output character per code
      unit, the kept ones as they were and every other one `_`. */
  function ReplaceUnsafe(name: string): (r: string)
    ensures |r| == Utf16Length(name)
    ensures forall i :: 0 <= i < |r| ==> IsKeptChar(r[i]) || r[i] == '_'
    ensures IsBmp(name) ==>
              forall i :: 0 <= i < |name| ==> r[i] == if IsKeptChar(name[i]) then name[i] else '_'
  {
    if |name| == 0 then ""
    else
      var head, rest := ReplaceChar(name[0]), ReplaceUnsafe(name[1..]);
      assert forall i :: 0 <= i < |head| ==> IsKeptChar(head[i]) || head[i] == '_';
      assert IsBmp(name) ==> IsBmp(name[1..]) && |head| == 1;
      head + rest
  }

  /** The replacement works character by character, so it distributes over concatenation. */
  lemma {:induction false} ReplaceUnsafeConcat(a: string, b: string)
    ensures ReplaceUnsafe(a + b) == ReplaceUnsafe(a) + ReplaceUnsafe(b)
  {
    if |a| == 0 {
      assert a + b == b;
    } else {
      assert (a + b)[0] == a[0];
      assert (a + b)[1..] == a[1..] + b;
      ReplaceUnsafeConcat(a[1..], b);
    }
  }

  /** The lower-casing step. */
  function LowerCase(s: string): (r: string)
    ensures |r| == |s|
  {
    seq(|s|, i requires 0 <= i < |s| => ToLowerAscii(s[i]))
  }

  /** sanitizeName: every output character is in `[a-z0-9_-]`, and there is one
      per UTF-16 code unit of the input. On a name inside the Basic Multilingual
      Plane that is one per character: ASCII letters are lower-cased, other
      kept characters stay, and every other character becomes `_`. */
  function SanitizeName(name: string): (r: string)
    ensures |r| == Utf16Length(name)
    ensures IsSafeName(r)
    ensures IsBmp(name) ==> |r| == |name| && forall i :: 0 <= i < |r| ==>
              r[i] == (if IsKeptChar(name[i]) then ToLowerAscii(name[i]) else '_')
  {
    LowerCase(ReplaceUnsafe(name))
  }

  /** A name made only of safe characters. */
  predicate IsSafeName(s: string) {
    forall i :: 0 <= i < |s| ==> IsSafeChar(s[i])
  }

  /** Only the empty name sanitises to the empty segment. */
  lemma SanitizeEmptyIff(name: string)
    ensures SanitizeName(name) == "" <==> name == ""
  {
    assert |SanitizeName(name)| >= |name|;
  }

  /** Sanitising a concatenation sanitises each part. */
  lemma SanitizeConcat(a: string, b: string)
    ensures SanitizeName(a + b) == SanitizeName(a) + SanitizeName(b)
  {
    ReplaceUnsafeConcat(a, b);
  }

  /** Sanitising one character: a kept character is lower-cased, and any
      other becomes one `_` per UTF-16 code unit, so `_` inside the Basic
      Multilingual Plane and `__` outside it. With `SanitizeConcat` this fixes
      the sanitised form of every name. */
  lemma SanitizeChar(c: char)
    ensures SanitizeName([c]) ==
            if IsKeptChar(c) then [ToLowerAscii(c)] else seq(CodeUnits(c), _ => '_')
  {
    assert ReplaceUnsafe([c]) == ReplaceChar(c) + ReplaceUnsafe([c][1..]);
  }

  /** The fixed points of the sanitiser are exactly the names over `[a-z0-9_-]`. */
  lemma SanitizeFixedPoints(name: string)
    ensures SanitizeName(name) == name <==> IsSafeName(name)
  {
    if IsSafeName(name) {
      assert IsBmp(name);
      assert forall i :: 0 <= i < |name| ==> SanitizeName(name)[i] == name[i];
    }
  }

  /** Sanitising twice is sanitising once. */
  lemma SanitizeIdempotent(name: string)
    ensures SanitizeName(SanitizeName(name)) == SanitizeName(name)
  {
    SanitizeFixedPoints(SanitizeName(name));
  }

  /** The sanitiser is not injective: "Q1" and "q1" give the same folder name. */
  lemma SanitizeCollides()
    ensures "Q1" != "q1" && SanitizeName("Q1") == SanitizeName("q1") == "q1"
  {
    assert SanitizeName("Q1")[0] == 'q';
    assert SanitizeName("q1")[0] == 'q';
  }

  /** A sanitised name has no path separator and no dot, so it can never be
      `"."`, `".."` or span several directories. */
  lemma SanitizedIsPlainSegment(name: string)
    ensures '/' !in SanitizeName(name) && '.' !in SanitizeName(name)
    ensures SanitizeName(name) != "." && SanitizeName(name) != ".."
  {
    var r := SanitizeName(name);
    assert forall i :: 0 <= i < |r| ==> r[i] != '/' && r[i] != '.';
    assert '.' in "." && '.' in "..";
  }

  /** The decimal form of a number (a user id) passes through unchanged. */
  lemma SanitizeKeepsDigits(s: string)
    requires forall i :: 0 <= i < |s| ==> '0' <= s[i] <= '9' || s[i] == '-'
    ensures SanitizeName(s) == s
  {
    SanitizeFixedPoints(s);
  }
}
