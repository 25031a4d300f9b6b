/**
 `String.prototype.split` for the two regular expressions the core uses:
   - `/(?<=[.!?])\s+/` (the chunker): cut at every whitespace run whose
     preceding character is `.`, `!` or `?`;
   - `/\s+/` (the keyword filter): cut at every whitespace run.
 Both patterns match a whole (maximal) run of whitespace, so a separator is
 never followed by more whitespace. The split function keeps the separators it
 drops, so that the lemmas below can say the split loses nothing else.
 */
module Splitting {
  import opened Strings

  datatype Pattern = EveryWhitespaceRun | WhitespaceAfterTerminal

  /** The strings `split` returns (`parts`), and the separators it removed between them. */
  datatype Pieces = Pieces(parts: seq<string>, seps: seq<string>)

  /** Length of the whitespace run at the start of s. */
  function SpaceRun(s: string): (k: nat)
    ensures k <= |s|
    ensures forall i :: 0 <= i < k ==> IsSpace(s[i])
    ensures k == |s| || !IsSpace(s[k])
  {
    if s != [] && IsSpace(s[0]) then 1 + SpaceRun(s[1..]) else 0
  }

  /** Whether the pattern matches at a whitespace character, given whether the
      character before it (in the original string) is sentence-ending. */
  predicate CutsHere(pattern: Pattern, afterTerminal: bool) {
    pattern == EveryWhitespaceRun || afterTerminal
  }

  /** Splits s, where `afterTerminal` says whether the character just before s
      in the whole string is `.`, `!` or `?` (false at the very start). */
  function SplitFrom(s: string, pattern: Pattern, afterTerminal: bool): (r: Pieces)
    ensures |r.parts| == |r.seps| + 1
    decreases |s|
  {
    if s == [] then Pieces([[]], [])
    else if IsSpace(s[0]) && CutsHere(pattern, afterTerminal) then
      var k := SpaceRun(s);
      var rest := SplitFrom(s[k..], pattern, false);
      Pieces([[]] + rest.parts, [s[..k]] + rest.seps)
    else
      var rest := SplitFrom(s[1..], pattern, IsTerminal(s[0]));
      Pieces([[s[0]] + rest.parts[0]] + rest.parts[1..], rest.seps)
  }

  /** `s.split(pattern)`, separators kept aside. */
  function Split(s: string, pattern: Pattern): Pieces {
    SplitFrom(s, pattern, false)
  }

  /** Puts the separators back between the parts. */
  function Interleave(parts: seq<string>, seps: seq<string>): string
    requires |parts| == |seps| + 1
  {
    if seps == [] then parts[0] else parts[0] + seps[0] + Interleave(parts[1..], seps[1..])
  }

  /** s contains no place where the sentence pattern matches. */
  predicate NoSentenceBreak(s: string) {
    forall j :: 0 <= j < |s| - 1 ==> !(IsTerminal(s[j]) && IsSpace(s[j + 1]))
  }

  // ---------------------------------------------------------------------------
  // What the split keeps and what it drops

  lemma InterleaveFirst(c: char, parts: seq<string>, seps: seq<string>)
    requires |parts| == |seps| + 1
    ensures Interleave([[c] + parts[0]] + parts[1..], seps) == [c] + Interleave(parts, seps)
  {
    var parts' := [[c] + parts[0]] + parts[1..];
    assert parts'[1..] == parts[1..];
  }

  lemma InterleaveCut(sep: string, parts: seq<string>, seps: seq<string>)
    requires |parts| == |seps| + 1
    ensures Interleave([[]] + parts, [sep] + seps) == sep + Interleave(parts, seps)
  {
    assert ([[]] + parts)[1..] == parts;
    assert ([sep] + seps)[1..] == seps;
    assert [] + sep == sep;
  }

  /** Nothing is lost: the parts with the separators put back are the input. */
  lemma {:induction false} SplitRebuilds(s: string, pattern: Pattern, afterTerminal: bool)
    ensures var r := SplitFrom(s, pattern, afterTerminal); Interleave(r.parts, r.seps) == s
  {
    if s != [] {
      if IsSpace(s[0]) && CutsHere(pattern, afterTerminal) {
        var k := SpaceRun(s);
        SplitRebuilds(s[k..], pattern, false);
        var rest := SplitFrom(s[k..], pattern, false);
        assert SplitFrom(s, pattern, afterTerminal) == Pieces([[]] + rest.parts, [s[..k]] + rest.seps);
        InterleaveCut(s[..k], rest.parts, rest.seps);
        assert s[..k] + s[k..] == s;
      } else {
        SplitRebuilds(s[1..], pattern, IsTerminal(s[0]));
        var rest := SplitFrom(s[1..], pattern, IsTerminal(s[0]));
        assert SplitFrom(s, pattern, afterTerminal) == Pieces([[s[0]] + rest.parts[0]] + rest.parts[1..], rest.seps);
        InterleaveFirst(s[0], rest.parts, rest.seps);
        assert [s[0]] + s[1..] == s;
      }
    }
  }

  /** The first part starts with the first character of s, unless it is empty. */
  lemma {:induction false} FirstPartStartsInput(s: string, pattern: Pattern, afterTerminal: bool)
    ensures var r := SplitFrom(s, pattern, afterTerminal);
      r.parts[0] == [] || (s != [] && r.parts[0][0] == s[0])
  {
  }

  /** Every separator is a non-empty run of whitespace that is maximal: the part after
      it is empty (end of input) or does not start with whitespace. */
  predicate SeparatorsAreRuns(r: Pieces)
    requires |r.parts| == |r.seps| + 1
  {
    forall i :: 0 <= i < |r.seps| ==>
      r.seps[i] != [] && IsBlank(r.seps[i])
      && (r.parts[i + 1] == [] || !IsSpace(r.parts[i + 1][0]))
  }

  lemma {:induction false} SeparatorsAreMaximalRuns(s: string, pattern: Pattern, afterTerminal: bool)
    ensures SeparatorsAreRuns(SplitFrom(s, pattern, afterTerminal))
  {
    var r := SplitFrom(s, pattern, afterTerminal);
    if s != [] {
      if IsSpace(s[0]) && CutsHere(pattern, afterTerminal) {
        var k := SpaceRun(s);
        SeparatorsAreMaximalRuns(s[k..], pattern, false);
        FirstPartStartsInput(s[k..], pattern, false);
        var rest := SplitFrom(s[k..], pattern, false);
        forall i | 0 <= i < |r.seps|
          ensures r.seps[i] != [] && IsBlank(r.seps[i])
            && (r.parts[i + 1] == [] || !IsSpace(r.parts[i + 1][0]))
        {
          if i > 0 {
            assert r.seps[i] == rest.seps[i - 1] && r.parts[i + 1] == rest.parts[i];
          }
        }
      } else {
        SeparatorsAreMaximalRuns(s[1..], pattern, IsTerminal(s[0]));
        var rest := SplitFrom(s[1..], pattern, IsTerminal(s[0]));
        forall i | 0 <= i < |r.seps|
          ensures r.seps[i] != [] && IsBlank(r.seps[i])
            && (r.parts[i + 1] == [] || !IsSpace(r.parts[i + 1][0]))
        {
          assert r.seps[i] == rest.seps[i] && r.parts[i + 1] == rest.parts[i + 1];
        }
      }
    }
  }

  /** With the sentence pattern, every part followed by a separator ends in `.`, `!` or `?`
      (the first part may be empty only when the text before s already ended a sentence). */
  predicate PartsEndInTerminal(r: Pieces, afterTerminal: bool)
    requires |r.parts| == |r.seps| + 1
  {
    forall i :: 0 <= i < |r.seps| ==>
      (i == 0 && afterTerminal && r.parts[0] == [])
      || (r.parts[i] != [] && IsTerminal(r.parts[i][|r.parts[i]| - 1]))
  }

  lemma {:induction false} SentencePartsEndInTerminal(s: string, afterTerminal: bool)
    ensures PartsEndInTerminal(SplitFrom(s, WhitespaceAfterTerminal, afterTerminal), afterTerminal)
  {
    var r := SplitFrom(s, WhitespaceAfterTerminal, afterTerminal);
    if s != [] {
      if IsSpace(s[0]) && afterTerminal {
        var k := SpaceRun(s);
        SentencePartsEndInTerminal(s[k..], false);
        var rest := SplitFrom(s[k..], WhitespaceAfterTerminal, false);
        assert r == Pieces([[]] + rest.parts, [s[..k]] + rest.seps);
        EndInTerminalAfterCut(s[..k], rest, r, afterTerminal);
      } else {
        var t := IsTerminal(s[0]);
        SentencePartsEndInTerminal(s[1..], t);
        var rest := SplitFrom(s[1..], WhitespaceAfterTerminal, t);
        assert r == Pieces([[s[0]] + rest.parts[0]] + rest.parts[1..], rest.seps);
        EndInTerminalAfterKeep(s[0], rest, r, afterTerminal);
      }
    }
  }

  /** A cut at the start: an empty first part, then the parts of the rest. */
  lemma EndInTerminalAfterCut(sep: string, rest: Pieces, r: Pieces, afterTerminal: bool)
    requires afterTerminal && |rest.parts| == |rest.seps| + 1
    requires PartsEndInTerminal(rest, false)
    requires r == Pieces([[]] + rest.parts, [sep] + rest.seps)
    ensures PartsEndInTerminal(r, afterTerminal)
  {
    forall i | 0 < i < |r.seps|
      ensures r.parts[i] != [] && IsTerminal(r.parts[i][|r.parts[i]| - 1])
    {
      assert r.parts[i] == rest.parts[i - 1];
    }
  }

  /** A character kept at the start: it is put in front of the first part of the rest. */
  lemma EndInTerminalAfterKeep(c: char, rest: Pieces, r: Pieces, afterTerminal: bool)
    requires |rest.parts| == |rest.seps| + 1
    requires PartsEndInTerminal(rest, IsTerminal(c))
    requires r == Pieces([[c] + rest.parts[0]] + rest.parts[1..], rest.seps)
    ensures PartsEndInTerminal(r, afterTerminal)
  {
    forall i | 0 <= i < |r.seps|
      ensures r.parts[i] != [] && IsTerminal(r.parts[i][|r.parts[i]| - 1])
    {
      if i == 0 {
        var p := r.parts[0];
        assert p == [c] + rest.parts[0];
        if rest.parts[0] == [] {
          assert p[|p| - 1] == c;
        } else {
          assert p[|p| - 1] == rest.parts[0][|rest.parts[0]| - 1];
        }
      } else {
        assert r.parts[i] == rest.parts[i];
      }
    }
  }

  /** With the sentence pattern no part contains a place where the pattern matches,
      so every such place was cut; after a sentence end the first part does not start
      with whitespace. */
  predicate PartsUnbroken(r: Pieces, afterTerminal: bool)
    requires |r.parts| == |r.seps| + 1
  {
    (forall i :: 0 <= i < |r.parts| ==> NoSentenceBreak(r.parts[i]))
    && (afterTerminal ==> r.parts[0] == [] || !IsSpace(r.parts[0][0]))
  }

  lemma {:induction false} SentencePartsUnbroken(s: string, afterTerminal: bool)
    ensures PartsUnbroken(SplitFrom(s, WhitespaceAfterTerminal, afterTerminal), afterTerminal)
  {
    var r := SplitFrom(s, WhitespaceAfterTerminal, afterTerminal);
    if s != [] {
      if IsSpace(s[0]) && afterTerminal {
        var k := SpaceRun(s);
        SentencePartsUnbroken(s[k..], false);
        var rest := SplitFrom(s[k..], WhitespaceAfterTerminal, false);
        forall i | 0 <= i < |r.parts| ensures NoSentenceBreak(r.parts[i]) {
          if i > 0 {
            assert r.parts[i] == rest.parts[i - 1];
          }
        }
      } else {
        SentencePartsUnbroken(s[1..], IsTerminal(s[0]));
        var rest := SplitFrom(s[1..], WhitespaceAfterTerminal, IsTerminal(s[0]));
        var p := r.parts[0];
        var q := rest.parts[0];
        assert p == [s[0]] + q;
        assert NoSentenceBreak(q);
        forall j | 0 <= j < |p| - 1 ensures !(IsTerminal(p[j]) && IsSpace(p[j + 1])) {
          if j > 0 {
            assert p[j] == q[j - 1] && p[j + 1] == q[j];
          } else {
            assert p[1] == q[0];
          }
        }
        forall i | 0 <= i < |r.parts| ensures NoSentenceBreak(r.parts[i]) {
          if i > 0 {
            assert r.parts[i] == rest.parts[i];
          }
        }
      }
    }
  }

  /** With the word pattern no part contains whitespace at all. */
  predicate PartsWithoutSpace(r: Pieces) {
    forall i, j :: 0 <= i < |r.parts| && 0 <= j < |r.parts[i]| ==> !IsSpace(r.parts[i][j])
  }

  lemma {:induction false} WordPartsHaveNoSpace(s: string, afterTerminal: bool)
    ensures PartsWithoutSpace(SplitFrom(s, EveryWhitespaceRun, afterTerminal))
  {
    var r := SplitFrom(s, EveryWhitespaceRun, afterTerminal);
    if s != [] {
      if IsSpace(s[0]) {
        var k := SpaceRun(s);
        WordPartsHaveNoSpace(s[k..], false);
        var rest := SplitFrom(s[k..], EveryWhitespaceRun, false);
        forall i, j | 0 <= i < |r.parts| && 0 <= j < |r.parts[i]| ensures !IsSpace(r.parts[i][j]) {
          assert i > 0 && r.parts[i] == rest.parts[i - 1];
        }
      } else {
        WordPartsHaveNoSpace(s[1..], IsTerminal(s[0]));
        var rest := SplitFrom(s[1..], EveryWhitespaceRun, IsTerminal(s[0]));
        forall i, j | 0 <= i < |r.parts| && 0 <= j < |r.parts[i]| ensures !IsSpace(r.parts[i][j]) {
          if i > 0 {
            assert r.parts[i] == rest.parts[i];
          } else if j > 0 {
            assert r.parts[0][j] == rest.parts[0][j - 1];
          }
        }
      }
    }
  }

  // ---------------------------------------------------------------------------
  // Special inputs

  /** A string without any sentence break comes back whole, as a single part. */
  lemma {:induction false} UnbrokenTextIsOnePart(s: string, afterTerminal: bool)
    requires NoSentenceBreak(s)
    requires afterTerminal ==> s == [] || !IsSpace(s[0])
    ensures SplitFrom(s, WhitespaceAfterTerminal, afterTerminal) == Pieces([s], [])
  {
    if s != [] {
      UnbrokenTextIsOnePart(s[1..], IsTerminal(s[0]));
      assert [s[0]] + s[1..] == s;
    }
  }

  predicate AllBlank(parts: seq<string>) {
    forall p :: p in parts ==> IsBlank(p)
  }

  /** Splitting whitespace yields whitespace only. */
  lemma {:induction false} BlankSplitsIntoBlanks(s: string, pattern: Pattern, afterTerminal: bool)
    requires IsBlank(s)
    ensures AllBlank(SplitFrom(s, pattern, afterTerminal).parts)
  {
    var r := SplitFrom(s, pattern, afterTerminal);
    if s != [] {
      if IsSpace(s[0]) && CutsHere(pattern, afterTerminal) {
        var k := SpaceRun(s);
        BlankSplitsIntoBlanks(s[k..], pattern, false);
        var rest := SplitFrom(s[k..], pattern, false);
        assert r.parts == [[]] + rest.parts;
      } else {
        assert IsSpace(s[0]) && IsBlank(s[1..]);
        BlankSplitsIntoBlanks(s[1..], pattern, IsTerminal(s[0]));
        var rest := SplitFrom(s[1..], pattern, IsTerminal(s[0]));
        assert r.parts == [[s[0]] + rest.parts[0]] + rest.parts[1..];
        BlankAfterKeep(s[0], rest.parts, r.parts);
      }
    }
  }

  /** A whitespace character put in front of the first of some blank parts keeps them blank. */
  lemma BlankAfterKeep(c: char, rest: seq<string>, parts: seq<string>)
    requires IsSpace(c) && rest != [] && AllBlank(rest)
    requires parts == [[c] + rest[0]] + rest[1..]
    ensures AllBlank(parts)
  {
    forall p | p in parts ensures IsBlank(p) {
      var i :| 0 <= i < |parts| && parts[i] == p;
      if i == 0 {
        assert rest[0] in rest;
      } else {
        assert p == rest[i];
      }
    }
  }

  /** With the word pattern, leading whitespace produces an empty first part. */
  lemma LeadingSpaceGivesEmptyWord(s: string)
    requires s != [] && IsSpace(s[0])
    ensures Split(s, EveryWhitespaceRun).parts[0] == []
  {
  }

  /** With the word pattern, trailing whitespace produces an empty last part. */
  lemma {:induction false} TrailingSpaceGivesEmptyWord(s: string, afterTerminal: bool)
    requires s != [] && IsSpace(s[|s| - 1])
    ensures var r := SplitFrom(s, EveryWhitespaceRun, afterTerminal); r.parts[|r.parts| - 1] == []
  {
    if IsSpace(s[0]) {
      var k := SpaceRun(s);
      if k < |s| {
        TrailingSpaceGivesEmptyWord(s[k..], false);
      }
    } else {
      TrailingSpaceGivesEmptyWord(s[1..], IsTerminal(s[0]));
    }
  }
}
