/** The few Python string operations the toolkit relies on, for a one-character separator:
    `str.split`, `str.join`, `str.upper`, `str.startswith`, `str.endswith`, a list's last
    element `parts[-1]`, and the case-insensitive match that `$regex` with option `i` performs
    (taken here as a literal substring match). Case mapping covers ASCII letters only. */
module Strings {

  /** Number of occurrences of `c` in `s`. */
  function Count(s: string, c: char): nat
  {
    if s == [] then 0 else (if s[0] == c then 1 else 0) + Count(s[1..], c)
  }

  /** `s.split(sep)`: the pieces between separators, never an empty list. */
  function Split(s: string, sep: char): (parts: seq<string>)
    ensures |parts| == Count(s, sep) + 1
  {
    if s == [] then [""]
    else
      var rest := Split(s[1..], sep);
      if s[0] == sep then [""] + rest
      else [[s[0]] + rest[0]] + rest[1..]
  }

  /** No piece of a split holds the separator. */
  lemma {:induction false} SplitPiecesFree(s: string, sep: char)
    ensures forall i :: 0 <= i < |Split(s, sep)| ==> sep !in Split(s, sep)[i]
  {
    if s != [] {
      SplitPiecesFree(s[1..], sep);
      var rest := Split(s[1..], sep);
      if s[0] != sep {
        var parts := [[s[0]] + rest[0]] + rest[1..];
        forall i | 0 <= i < |parts| ensures sep !in parts[i] {
          if i > 0 { assert parts[i] == rest[i]; }
        }
      }
    }
  }

  /** `sep.join(parts)`. */
  function Join(parts: seq<string>, sep: char): string
  {
    if |parts| == 0 then ""
    else if |parts| == 1 then parts[0]
    else parts[0] + [sep] + Join(parts[1..], sep)
  }

  /** Joining the pieces of a split gives back the string. */
  lemma {:induction false} JoinSplit(s: string, sep: char)
    ensures Join(Split(s, sep), sep) == s
  {
    if s != [] {
      var rest := Split(s[1..], sep);
      JoinSplit(s[1..], sep);
      if s[0] == sep {
        assert Split(s, sep) == [""] + rest;
        assert Join([""] + rest, sep) == "" + [sep] + Join(rest, sep) by {
          assert ([""] + rest)[1..] == rest;
        }
      } else if |rest| == 1 {
        assert Split(s, sep) == [[s[0]] + rest[0]];
      } else {
        var parts := [[s[0]] + rest[0]] + rest[1..];
        assert Split(s, sep) == parts;
        assert parts[1..] == rest[1..];
        assert Join(rest, sep) == rest[0] + [sep] + Join(rest[1..], sep);
      }
    }
  }

  /** A string without the separator splits into itself alone. */
  lemma {:induction false} SplitNoSep(s: string, sep: char)
    requires sep !in s
    ensures Split(s, sep) == [s]
  {
    if s != [] {
      SplitNoSep(s[1..], sep);
      assert [s[0]] + s[1..] == s;
    }
  }

  /** Splitting distributes over a separator: split(a + sep + b) == split(a) + split(b). */
  lemma {:induction false} SplitAppend(a: string, b: string, sep: char)
    ensures Split(a + [sep] + b, sep) == Split(a, sep) + Split(b, sep)
  {
    var s := a + [sep] + b;
    if a == [] {
      assert s[1..] == b;
    } else {
      assert s[1..] == a[1..] + [sep] + b;
      SplitAppend(a[1..], b, sep);
      if a[0] == sep {
        assert [""] + (Split(a[1..], sep) + Split(b, sep)) == ([""] + Split(a[1..], sep)) + Split(b, sep);
      } else {
        GlueFirstPiece(a[0], Split(a[1..], sep), Split(b, sep));
      }
    }
  }

  /** Gluing a character onto the first piece commutes with appending more pieces. */
  lemma GlueFirstPiece(c: char, ra: seq<string>, rb: seq<string>)
    requires ra != []
    ensures [[c] + (ra + rb)[0]] + (ra + rb)[1..] == ([[c] + ra[0]] + ra[1..]) + rb
  {
    assert (ra + rb)[1..] == ra[1..] + rb;
  }

  /** A separator-free piece followed by the separator splits off as one piece. */
  lemma SplitAfterPiece(p: string, rest: string, sep: char)
    requires sep !in p
    ensures Split(p + [sep] + rest, sep) == [p] + Split(rest, sep)
  {
    SplitAppend(p, rest, sep);
    SplitNoSep(p, sep);
  }

  /** Splitting the join of separator-free pieces gives the pieces back. */
  lemma {:induction false} SplitJoin(parts: seq<string>, sep: char)
    requires |parts| >= 1
    requires forall i :: 0 <= i < |parts| ==> sep !in parts[i]
    ensures Split(Join(parts, sep), sep) == parts
  {
    if |parts| == 1 {
      SplitNoSep(parts[0], sep);
    } else {
      SplitJoin(parts[1..], sep);
      SplitNoSep(parts[0], sep);
      SplitAppend(parts[0], Join(parts[1..], sep), sep);
      assert [parts[0]] + parts[1..] == parts;
    }
  }

  /** Joining a concatenation puts one separator between the two joins. */
  lemma {:induction false} JoinAppend(a: seq<string>, b: seq<string>, sep: char)
    requires |a| >= 1 && |b| >= 1
    ensures Join(a + b, sep) == Join(a, sep) + [sep] + Join(b, sep)
  {
    if |a| == 1 {
      assert (a + b)[1..] == b;
    } else {
      JoinAppend(a[1..], b, sep);
      assert (a + b)[1..] == a[1..] + b;
    }
  }

  predicate StartsWith(s: string, prefix: string)
  {
    |prefix| <= |s| && s[..|prefix|] == prefix
  }

  predicate EndsWith(s: string, suffix: string)
  {
    |suffix| <= |s| && s[|s| - |suffix|..] == suffix
  }

  /** `s.split(sep)[-1]`: the longest suffix of `s` without the separator. */
  function LastSegment(s: string, sep: char): (r: string)
    ensures sep !in r
    ensures EndsWith(s, r)
    ensures |r| < |s| ==> s[|s| - |r| - 1] == sep
  {
    if s == [] then []
    else if s[|s| - 1] == sep then []
    else
      var r' := LastSegment(s[..|s| - 1], sep);
      SuffixStep(s, r');
      NotInSnoc(r', s[|s| - 1], sep);
      r' + [s[|s| - 1]]
  }

  /** A suffix of all but the last character, extended by that character, is a suffix; the
      character before it is the one before the shorter suffix. */
  lemma SuffixStep(s: string, r: string)
    requires s != [] && EndsWith(s[..|s| - 1], r)
    ensures EndsWith(s, r + [s[|s| - 1]])
    ensures |r| + 1 < |s| ==> s[|s| - |r| - 2] == s[..|s| - 1][|s| - 1 - |r| - 1]
  {
    var t := s[..|s| - 1];
    assert s == t + [s[|s| - 1]];
    assert s[|s| - |r| - 1..] == t[|t| - |r|..] + [s[|s| - 1]];
  }

  lemma NotInSnoc(r: string, c: char, sep: char)
    requires sep !in r && c != sep
    ensures sep !in r + [c]
  {
  }

  /** LastSegment is indeed the last element of Split. */
  lemma LastSegmentIsLastPiece(s: string, sep: char)
    ensures var parts := Split(s, sep); LastSegment(s, sep) == parts[|parts| - 1]
  {
    var r := LastSegment(s, sep);
    if |r| == |s| {
      assert s == r;
      SplitNoSep(s, sep);
    } else {
      var x := s[..|s| - |r| - 1];
      assert s == x + [sep] + r;
      SplitAppend(x, r, sep);
      SplitNoSep(r, sep);
    }
  }

  /** A separator-free suffix ends `s` exactly when it ends the last segment of `s`. */
  lemma EndsWithLastSegment(s: string, suffix: string, sep: char)
    requires sep !in suffix
    ensures EndsWith(s, suffix) <==> EndsWith(LastSegment(s, sep), suffix)
  {
    var r := LastSegment(s, sep);
    if EndsWith(s, suffix) && |suffix| > |r| {
      assert false;
    }
    if EndsWith(r, suffix) {
      assert s[|s| - |suffix|..] == r[|r| - |suffix|..];
    }
  }

  /** A separator-free suffix ends a + sep + b exactly when it ends b. */
  lemma EndsWithAfterSep(a: string, b: string, suffix: string, sep: char)
    requires sep !in suffix
    ensures EndsWith(a + [sep] + b, suffix) <==> EndsWith(b, suffix)
  {
    var s := a + [sep] + b;
    assert s[|s| - |b| - 1] == sep;
    if |b| < |suffix| <= |s| {
      assert s[|s| - |suffix|..][|suffix| - |b| - 1] == sep;
    }
    if EndsWith(b, suffix) {
      assert s[|s| - |suffix|..] == b[|b| - |suffix|..];
    }
  }

  function UpperChar(c: char): char
  {
    if 'a' <= c <= 'z' then (c as int - 32) as char else c
  }

  function LowerChar(c: char): char
  {
    if 'A' <= c <= 'Z' then (c as int + 32) as char else c
  }

  /** `s.upper()` restricted to ASCII letters. */
  function Upper(s: string): (r: string)
    ensures |r| == |s|
    ensures forall i :: 0 <= i < |s| ==> r[i] == UpperChar(s[i])
  {
    if s == [] then [] else [UpperChar(s[0])] + Upper(s[1..])
  }

  function Lower(s: string): (r: string)
    ensures |r| == |s|
    ensures forall i :: 0 <= i < |s| ==> r[i] == LowerChar(s[i])
  {
    if s == [] then [] else [LowerChar(s[0])] + Lower(s[1..])
  }

  /** Lower-casing twice is lower-casing once. */
  lemma LowerIdempotent(s: string)
    ensures Lower(Lower(s)) == Lower(s)
  {
    assert forall i :: 0 <= i < |s| ==> Lower(Lower(s))[i] == Lower(s)[i];
  }

  /** An ASCII capital `up` is the upper case of exactly itself and its lower-case letter. */
  lemma UpperCharIff(c: char, up: char)
    requires 'A' <= up <= 'Z'
    ensures UpperChar(c) == up <==> c == up || c as int == up as int + 32
  {
  }

  /** `s.upper() == "READY"` holds exactly for the five-letter spellings of "ready" in any mix
      of cases. */
  lemma UpperIsReady(s: string)
    ensures Upper(s) == "READY" <==>
            |s| == 5 && forall i :: 0 <= i < 5 ==> s[i] == "READY"[i] || s[i] == "ready"[i]
  {
    var up := "READY";
    var low := "ready";
    assert forall i :: 0 <= i < 5 ==> 'A' <= up[i] <= 'Z' && low[i] as int == up[i] as int + 32;
    if |s| == 5 {
      forall i | 0 <= i < 5
        ensures UpperChar(s[i]) == up[i] <==> s[i] == up[i] || s[i] == low[i]
      {
        UpperCharIff(s[i], up[i]);
      }
      assert Upper(s) == up <==> forall i :: 0 <= i < 5 ==> Upper(s)[i] == up[i];
    }
  }

  /** Case-insensitive containment of `pattern` in `text` (the `$regex` match with option `i`,
      for a pattern without metacharacters). */
  predicate ContainsIgnoreCase(text: string, pattern: string)
  {
    exists i :: 0 <= i <= |text| - |pattern| && MatchesAt(text, pattern, i)
  }

  /** `pattern` occurs in `text` at offset `i`, ignoring case. */
  predicate MatchesAt(text: string, pattern: string, i: int)
    requires 0 <= i <= |text| - |pattern|
  {
    Lower(text[i..i + |pattern|]) == Lower(pattern)
  }
}
