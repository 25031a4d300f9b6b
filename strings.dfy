/**
 The string primitives the chunker and the routes rely on, with JavaScript's
 meaning: whitespace is the set `\s` matches and `trim()` removes, lengths are
 counted in UTF-16 code units, `toLowerCase` is modelled on ASCII letters,
 `includes` is substring search and `join` puts a separator between parts.
 */
module Strings {

  /** JavaScript's WhiteSpace and LineTerminator code points: exactly the
      characters `\s` matches in a regular expression and `trim()` removes. */
  predicate IsSpace(c: char) {
    c == '\t' || c == '\n' || c == '\U{000B}' || c == '\U{000C}' || c == '\r' || c == ' '
    || c == '\U{00A0}' || c == '\U{1680}' || ('\U{2000}' <= c && c <= '\U{200A}')
    || c == '\U{2028}' || c == '\U{2029}' || c == '\U{202F}' || c == '\U{205F}'
    || c == '\U{3000}' || c == '\U{FEFF}'
  }

  /** The sentence-ending punctuation `[.!?]` of the chunker's split pattern. */
  predicate IsTerminal(c: char) {
    c == '.' || c == '!' || c == '?'
  }

  /** A string made of whitespace only (the empty string included). */
  predicate IsBlank(s: string) {
    forall i :: 0 <= i < |s| ==> IsSpace(s[i])
  }

  /** `toLowerCase` on one character, for the ASCII letters. */
  function ToLower(c: char): char {
    if 'A' <= c <= 'Z' then (c as int + 32) as char else c
  }

  function Lower(s: string): string {
    seq(|s|, i requires 0 <= i < |s| => ToLower(s[i]))
  }

  /** JavaScript's `length`: code points above U+FFFF are surrogate pairs, two units each. */
  function CodeUnits(s: string): nat {
    if s == [] then 0 else (if s[0] as int > 0xFFFF then 2 else 1) + CodeUnits(s[1..])
  }

  function TrimStart(s: string): string {
    if s != [] && IsSpace(s[0]) then TrimStart(s[1..]) else s
  }

  function TrimEnd(s: string): string {
    if s != [] && IsSpace(s[|s| - 1]) then TrimEnd(s[..|s| - 1]) else s
  }

  /** `trim()`: whitespace removed from both ends. */
  function Trim(s: string): string {
    TrimEnd(TrimStart(s))
  }

  predicate IsPrefix(p: string, s: string) {
    |p| <= |s| && s[..|p|] == p
  }

  /** `s.includes(w)`: w occurs in s at some position. */
  predicate IsSubstring(w: string, s: string)
    decreases |s|
  {
    IsPrefix(w, s) || (s != [] && IsSubstring(w, s[1..]))
  }

  /** `parts.join(sep)`. */
  function Join(parts: seq<string>, sep: string): string {
    if |parts| == 0 then []
    else if |parts| == 1 then parts[0]
    else parts[0] + sep + Join(parts[1..], sep)
  }

  // ---------------------------------------------------------------------------
  // Lemmas

  /** Lower-casing never turns a character into whitespace or out of it. */
  lemma LowerKeepsSpaces(s: string)
    ensures forall i :: 0 <= i < |s| ==> (IsSpace(Lower(s)[i]) <==> IsSpace(s[i]))
  {
  }

  /** Lower-casing twice is lower-casing once. */
  lemma LowerIdempotent(s: string)
    ensures Lower(Lower(s)) == Lower(s)
  {
  }

  /** Every character counts for one or two units, so the unit count is between |s| and 2|s|. */
  lemma {:induction false} CodeUnitsBounds(s: string)
    ensures |s| <= CodeUnits(s) <= 2 * |s|
  {
    if s != [] {
      CodeUnitsBounds(s[1..]);
    }
  }

  lemma {:induction false} TrimStartEmptyIffBlank(s: string)
    ensures TrimStart(s) == [] <==> IsBlank(s)
  {
    if s != [] && IsSpace(s[0]) {
      TrimStartEmptyIffBlank(s[1..]);
      assert IsBlank(s) <==> IsBlank(s[1..]) by {
        if IsBlank(s[1..]) {
          forall i | 0 <= i < |s| ensures IsSpace(s[i]) {
            if i > 0 { assert s[i] == s[1..][i - 1]; }
          }
        }
      }
    }
  }

  lemma {:induction false} TrimEndKeepsFirst(s: string)
    requires s != [] && !IsSpace(s[0])
    ensures TrimEnd(s) != [] && TrimEnd(s)[0] == s[0]
  {
    if IsSpace(s[|s| - 1]) {
      TrimEndKeepsFirst(s[..|s| - 1]);
    }
  }

  /** `s.trim().length` is zero exactly when s is whitespace only. */
  lemma {:induction false} TrimEmptyIffBlank(s: string)
    ensures CodeUnits(Trim(s)) == 0 <==> IsBlank(s)
  {
    TrimStartEmptyIffBlank(s);
    var t := TrimStart(s);
    if t != [] {
      TrimStartFirst(s);
      TrimEndKeepsFirst(t);
      CodeUnitsBounds(Trim(s));
    }
  }

  lemma {:induction false} TrimStartFirst(s: string)
    requires TrimStart(s) != []
    ensures !IsSpace(TrimStart(s)[0])
  {
    if s != [] && IsSpace(s[0]) {
      TrimStartFirst(s[1..]);
    }
  }

  /** An occurrence stays an occurrence when text is put in front. */
  lemma {:induction false} SubstringAfter(w: string, a: string, t: string)
    requires IsSubstring(w, t)
    ensures IsSubstring(w, a + t)
  {
    if a == [] {
      assert a + t == t;
    } else {
      SubstringAfter(w, a[1..], t);
      assert (a + t)[1..] == a[1..] + t;
    }
  }

  /** A prefix of an occurring string occurs too. */
  lemma {:induction false} PrefixOfSubstring(p: string, q: string, t: string)
    requires IsPrefix(p, q) && IsSubstring(q, t)
    ensures IsSubstring(p, t)
  {
    if IsPrefix(q, t) {
      assert t[..|p|] == q[..|p|];
    } else {
      PrefixOfSubstring(p, q, t[1..]);
    }
  }

  /** Every part occurs in the joined string. */
  lemma {:induction false} JoinContainsParts(parts: seq<string>, sep: string, i: nat)
    requires i < |parts|
    ensures IsSubstring(parts[i], Join(parts, sep))
  {
    if |parts| > 1 {
      if i == 0 {
        assert IsPrefix(parts[0], Join(parts, sep));
      } else {
        JoinContainsParts(parts[1..], sep, i - 1);
        SubstringAfter(parts[i], parts[0] + sep, Join(parts[1..], sep));
      }
    } else {
      assert IsPrefix(parts[0], Join(parts, sep));
    }
  }
}
