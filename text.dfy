/** Python's string built-ins that the timelapse application relies on:
    `sep.join`, `str.split(sep)`, `str.replace(old, new)` and `str.strip()`,
    all on code-point strings. */
module Text {

  /** `sep.join(parts)`. */
  function Join(parts: seq<string>, sep: string): string
  {
    if |parts| == 0 then ""
    else if |parts| == 1 then parts[0]
    else parts[0] + sep + Join(parts[1..], sep)
  }

  /** `pat` occurs in `s` starting at index `i`. */
  predicate OccursAt(s: string, pat: string, i: nat)
  {
    i + |pat| <= |s| && s[i..i + |pat|] == pat
  }

  /** `pat in s` for a non-empty `pat`. */
  predicate Contains(s: string, pat: string)
  {
    exists i: nat | i <= |s| :: OccursAt(s, pat, i)
  }

  /** `s.split(pat)` for a non-empty separator: the pieces between the
      non-overlapping occurrences of `pat`, found from left to right. */
  function SplitOn(s: string, pat: string): (pieces: seq<string>)
    requires |pat| > 0
    ensures |pieces| > 0
    ensures |pieces[0]| <= |s| && pieces[0] == s[..|pieces[0]|]
    decreases |s|
  {
    if |s| < |pat| then [s]
    else if s[..|pat|] == pat then [""] + SplitOn(s[|pat|..], pat)
    else
      var rest := SplitOn(s[1..], pat);
      [[s[0]] + rest[0]] + rest[1..]
  }

  /** `s.replace(pat, rep)` for a non-empty `pat`: every non-overlapping
      occurrence, found from left to right, is replaced. */
  function ReplaceAll(s: string, pat: string, rep: string): string
    requires |pat| > 0
    decreases |s|
  {
    if |s| < |pat| then s
    else if s[..|pat|] == pat then rep + ReplaceAll(s[|pat|..], pat, rep)
    else [s[0]] + ReplaceAll(s[1..], pat, rep)
  }

  lemma JoinCons(x: string, rest: seq<string>, sep: string)
    requires |rest| > 0
    ensures Join([x] + rest, sep) == x + sep + Join(rest, sep)
  {
    assert ([x] + rest)[1..] == rest;
  }

  lemma {:induction false} JoinConcat(a: seq<string>, b: seq<string>, sep: string)
    requires |a| > 0 && |b| > 0
    ensures Join(a + b, sep) == Join(a, sep) + sep + Join(b, sep)
  {
    if |a| == 1 {
      assert (a + b)[1..] == b;
    } else {
      assert (a + b)[1..] == a[1..] + b;
      JoinConcat(a[1..], b, sep);
    }
  }

  /** Prepending a character to the first piece prepends it to the joined text. */
  lemma JoinConsFirst(c: char, pieces: seq<string>, sep: string)
    requires |pieces| > 0
    ensures Join([[c] + pieces[0]] + pieces[1..], sep) == [c] + Join(pieces, sep)
  {
    var q := [[c] + pieces[0]] + pieces[1..];
    if |pieces| > 1 {
      assert q[1..] == pieces[1..];
    }
  }

  /** Python's identity `s.replace(p, r) == r.join(s.split(p))`: replacing
      changes exactly the separators and keeps every piece between them. */
  lemma {:induction false} ReplaceIsSplitJoin(s: string, pat: string, rep: string)
    requires |pat| > 0
    ensures ReplaceAll(s, pat, rep) == Join(SplitOn(s, pat), rep)
    decreases |s|
  {
    if |s| < |pat| {
    } else if s[..|pat|] == pat {
      var rest := SplitOn(s[|pat|..], pat);
      ReplaceIsSplitJoin(s[|pat|..], pat, rep);
      assert ([""] + rest)[1..] == rest;
    } else {
      var rest := SplitOn(s[1..], pat);
      ReplaceIsSplitJoin(s[1..], pat, rep);
      JoinConsFirst(s[0], rest, rep);
    }
  }

  /** Replacing a pattern by itself changes nothing. */
  lemma {:induction false} ReplaceBySelf(s: string, pat: string)
    requires |pat| > 0
    ensures ReplaceAll(s, pat, pat) == s
    decreases |s|
  {
    if |s| < |pat| {
    } else if s[..|pat|] == pat {
      ReplaceBySelf(s[|pat|..], pat);
      assert s == s[..|pat|] + s[|pat|..];
    } else {
      ReplaceBySelf(s[1..], pat);
      assert s == [s[0]] + s[1..];
    }
  }

  /** Splitting then joining with the same separator gives the text back. */
  lemma SplitJoinRoundTrip(s: string, pat: string)
    requires |pat| > 0
    ensures Join(SplitOn(s, pat), pat) == s
  {
    ReplaceIsSplitJoin(s, pat, pat);
    ReplaceBySelf(s, pat);
  }

  /** An occurrence in `s[1..]` is an occurrence in `s`, one place later. */
  lemma OccursInTail(s: string, pat: string, i: nat)
    requires |s| > 0 && OccursAt(s[1..], pat, i)
    ensures OccursAt(s, pat, i + 1)
  {
    assert s[1..][i..i + |pat|] == s[i + 1..i + 1 + |pat|];
  }

  /** No piece of `s.split(pat)` contains `pat`: every occurrence is consumed. */
  lemma {:induction false} SplitPiecesAvoidPattern(s: string, pat: string, k: nat)
    requires |pat| > 0 && k < |SplitOn(s, pat)|
    ensures !Contains(SplitOn(s, pat)[k], pat)
    decreases |s|
  {
    if |s| < |pat| {
    } else if s[..|pat|] == pat {
      if k > 0 {
        SplitPiecesAvoidPattern(s[|pat|..], pat, k - 1);
      } else {
        assert SplitOn(s, pat)[0] == "";
      }
    } else {
      var rest := SplitOn(s[1..], pat);
      if k > 0 {
        SplitPiecesAvoidPattern(s[1..], pat, k);
        assert SplitOn(s, pat)[k] == rest[k];
      } else {
        SplitPiecesAvoidPattern(s[1..], pat, 0);
        var first := [s[0]] + rest[0];
        assert SplitOn(s, pat)[0] == first;
        forall i: nat | i <= |first| ensures !OccursAt(first, pat, i) {
          if i == 0 {
            if |pat| <= |first| {
              assert first[..|pat|] == s[..|pat|];
            }
          } else if i + |pat| <= |first| {
            assert first[i..i + |pat|] == rest[0][i - 1..i - 1 + |pat|];
            assert !OccursAt(rest[0], pat, i - 1);
          }
        }
      }
    }
  }

  /** A text without the separator is a single piece. */
  lemma {:induction false} SplitWithoutPattern(s: string, pat: string)
    requires |pat| > 0 && !Contains(s, pat)
    ensures SplitOn(s, pat) == [s]
    decreases |s|
  {
    if |s| >= |pat| {
      assert !OccursAt(s, pat, 0);
      if Contains(s[1..], pat) {
        var i: nat :| OccursAt(s[1..], pat, i);
        OccursInTail(s, pat, i);
      }
      SplitWithoutPattern(s[1..], pat);
      assert s == [s[0]] + s[1..];
    }
  }

  /** `pat` opens with `{` and has no other `{`, as `{input}` and `{output}` do. */
  predicate BraceHeaded(pat: string)
  {
    |pat| > 1 && pat[0] == '{' && '{' !in pat[1..]
  }

  /** When `a` is non-empty and free of a brace-headed `pat`, the text
      `a + pat + b` does not start with `pat`. */
  lemma NoPatternAtStart(a: string, pat: string, b: string)
    requires BraceHeaded(pat) && !Contains(a, pat) && |a| > 0
    ensures (a + pat + b)[..|pat|] != pat
  {
    var s := a + pat + b;
    if |a| >= |pat| {
      assert s[..|pat|] == a[0..0 + |pat|];
      assert !OccursAt(a, pat, 0);
    } else {
      assert s[|a|] == '{';
      assert pat[|a|] in pat[1..];
    }
  }

  /** A text free of `pat` has a tail free of `pat`. */
  lemma TailAvoidsPattern(a: string, pat: string)
    requires |a| > 0 && !Contains(a, pat)
    ensures !Contains(a[1..], pat)
  {
    forall i: nat | i <= |a[1..]| ensures !OccursAt(a[1..], pat, i) {
      if OccursAt(a[1..], pat, i) {
        OccursInTail(a, pat, i);
      }
    }
  }

  /** A brace-headed separator cannot overlap itself, so when the text before
      its first occurrence is free of it, that occurrence ends the first piece. */
  lemma {:induction false} SplitAtFirst(a: string, pat: string, b: string)
    requires BraceHeaded(pat) && !Contains(a, pat)
    ensures SplitOn(a + pat + b, pat) == [a] + SplitOn(b, pat)
    decreases |a|
  {
    var s := a + pat + b;
    if |a| == 0 {
      assert s == pat + b;
      assert s[..|pat|] == pat && s[|pat|..] == b;
    } else {
      NoPatternAtStart(a, pat, b);
      TailAvoidsPattern(a, pat);
      SplitAtFirst(a[1..], pat, b);
      assert s[1..] == a[1..] + pat + b;
      assert a == [a[0]] + a[1..];
    }
  }

  /** A text with no `{` contains no brace-headed pattern. */
  lemma NoBraceNoPattern(s: string, pat: string)
    requires BraceHeaded(pat) && '{' !in s
    ensures !Contains(s, pat)
  {
    forall i: nat | i <= |s| ensures !OccursAt(s, pat, i) {
      if i + |pat| <= |s| {
        assert s[i..i + |pat|][0] == s[i];
      }
    }
  }

  /** `b + q + c`, whose only `{` opens `q`, contains no brace-headed `pat`
      whose second character differs from `q`'s. */
  lemma OnlyBraceElsewhere(b: string, q: string, c: string, pat: string)
    requires BraceHeaded(pat) && BraceHeaded(q) && q[1] != pat[1]
    requires '{' !in b && '{' !in c
    ensures !Contains(b + q + c, pat)
  {
    var s := b + q + c;
    forall i: nat | i <= |s| ensures !OccursAt(s, pat, i) {
      if i + |pat| <= |s| {
        assert s[i..i + |pat|][0] == s[i];
        if i < |b| {
          assert s[i] == b[i];
        } else if i == |b| {
          assert s[i + 1] == q[1];
          assert s[i..i + |pat|][1] == s[i + 1];
        } else if i < |b| + |q| {
          assert s[i] == q[i - |b|];
          assert q[i - |b|] in q[1..];
        } else {
          assert s[i] == c[i - |b| - |q|];
        }
      }
    }
  }

  /** Joining brace-free pieces with a brace-free separator gives brace-free text. */
  lemma {:induction false} JoinAvoidsChar(parts: seq<string>, sep: string, ch: char)
    requires ch !in sep && forall k :: 0 <= k < |parts| ==> ch !in parts[k]
    ensures ch !in Join(parts, sep)
  {
    if |parts| > 1 {
      JoinAvoidsChar(parts[1..], sep, ch);
    }
  }

  /** `str.isspace()` for a single character: Python's whitespace set. */
  predicate IsSpace(c: char)
  {
    c == ' ' || ('\t' <= c <= '\r') || ('\U{1C}' <= c <= '\U{1F}')
    || c == '\U{85}' || c == '\U{A0}' || c == '\U{1680}'
    || ('\U{2000}' <= c <= '\U{200A}') || c == '\U{2028}' || c == '\U{2029}'
    || c == '\U{202F}' || c == '\U{205F}' || c == '\U{3000}'
  }

  /** The number of whitespace characters `s` starts with. */
  function LeadingBlanks(s: string): (n: nat)
    ensures n <= |s|
  {
    if |s| > 0 && IsSpace(s[0]) then 1 + LeadingBlanks(s[1..]) else 0
  }

  /** The number of whitespace characters `s` ends with. */
  function TrailingBlanks(s: string): (n: nat)
    ensures n <= |s|
  {
    if |s| > 0 && IsSpace(s[|s| - 1]) then 1 + TrailingBlanks(s[..|s| - 1]) else 0
  }

  /** `LeadingBlanks(s)` counts the longest run of whitespace `s` starts with. */
  lemma {:induction false} LeadingBlanksSpan(s: string)
    ensures var n := LeadingBlanks(s);
      && (forall i {:trigger IsSpace(s[i])} :: 0 <= i < n ==> IsSpace(s[i]))
      && (n < |s| ==> !IsSpace(s[n]))
  {
    if |s| > 0 && IsSpace(s[0]) {
      LeadingBlanksSpan(s[1..]);
      forall i | 1 <= i < LeadingBlanks(s) ensures IsSpace(s[i]) {
        assert s[i] == s[1..][i - 1];
      }
      if LeadingBlanks(s) < |s| {
        assert s[LeadingBlanks(s)] == s[1..][LeadingBlanks(s[1..])];
      }
    }
  }

  /** `TrailingBlanks(s)` counts the longest run of whitespace `s` ends with. */
  lemma {:induction false} TrailingBlanksSpan(s: string)
    ensures var n := TrailingBlanks(s);
      && (forall i {:trigger IsSpace(s[i])} :: |s| - n <= i < |s| ==> IsSpace(s[i]))
      && (n < |s| ==> !IsSpace(s[|s| - n - 1]))
  {
    if |s| > 0 && IsSpace(s[|s| - 1]) {
      var t := s[..|s| - 1];
      TrailingBlanksSpan(t);
      forall i | |s| - TrailingBlanks(s) <= i < |s| - 1 ensures IsSpace(s[i]) {
        assert s[i] == t[i];
      }
      if TrailingBlanks(s) < |s| {
        assert s[|s| - TrailingBlanks(s) - 1] == t[|t| - TrailingBlanks(t) - 1];
      }
    }
  }

  /** `s.strip()`: `s` without its leading and trailing whitespace. */
  function Strip(s: string): string
  {
    var k := LeadingBlanks(s);
    s[k..|s| - TrailingBlanks(s[k..])]
  }

  /** Whitespace at the end of the suffix `s[k..]` is whitespace at the end of `s`. */
  lemma BlankTailShifts(s: string, k: nat, n: nat)
    requires k <= |s| && n <= |s| - k
    requires forall i {:trigger IsSpace(s[k..][i])} :: |s| - k - n <= i < |s| - k ==> IsSpace(s[k..][i])
    ensures forall i {:trigger IsSpace(s[i])} :: |s| - n <= i < |s| ==> IsSpace(s[i])
  {
    forall i | |s| - n <= i < |s| ensures IsSpace(s[i]) {
      assert s[i] == s[k..][i - k];
    }
  }

  /** `s.strip()` is a slice of `s` starting after its leading whitespace. */
  lemma StripIsSlice(s: string)
    ensures var k, r := LeadingBlanks(s), Strip(s);
      k + |r| <= |s| && r == s[k..k + |r|]
  {
  }

  /** `s.strip()` neither starts nor ends with whitespace. */
  lemma StripEndsNotBlank(s: string)
    ensures var r := Strip(s);
      r == [] || (!IsSpace(r[0]) && !IsSpace(r[|r| - 1]))
  {
    var k := LeadingBlanks(s);
    var t := s[k..];
    var n := TrailingBlanks(t);
    var r := Strip(s);
    if r != [] {
      LeadingBlanksSpan(s);
      TrailingBlanksSpan(t);
      assert r[0] == s[k];
      assert r[|r| - 1] == t[|t| - n - 1];
    }
  }

  /** Everything `s.strip()` drops from either end of `s` is whitespace. */
  lemma StripDropsBlanks(s: string)
    ensures var k, r := LeadingBlanks(s), Strip(s);
      && (forall i {:trigger IsSpace(s[i])} :: 0 <= i < k ==> IsSpace(s[i]))
      && (forall i {:trigger IsSpace(s[i])} :: k + |r| <= i < |s| ==> IsSpace(s[i]))
  {
    var k := LeadingBlanks(s);
    var t := s[k..];
    LeadingBlanksSpan(s);
    TrailingBlanksSpan(t);
    BlankTailShifts(s, k, TrailingBlanks(t));
  }

  /** Text that is empty or neither starts nor ends with whitespace is kept. */
  lemma StripKeepsUnpadded(s: string)
    requires s == [] || (!IsSpace(s[0]) && !IsSpace(s[|s| - 1]))
    ensures Strip(s) == s
  {
    if s != [] {
      assert LeadingBlanks(s) == 0 && s[0..] == s;
    }
  }

  /** `s.strip()` is empty exactly when `s` is all whitespace. */
  lemma StripEmptyIffBlank(s: string)
    ensures Strip(s) == [] <==> forall i :: 0 <= i < |s| ==> IsSpace(s[i])
  {
    LeadingBlanksSpan(s);
    StripDropsBlanks(s);
  }
}
