/** Reading the file picker's output in `select_photos`: one POSIX path per
    line, blank lines dropped, the rest sorted. */
module Selection {
  import opened Optional
  import opened Text
  import opened Order

  /** `[f for f in xs if f]`: the list without its empty strings. */
  function NonEmptyOnly(xs: seq<string>): (r: seq<string>)
    ensures forall k :: 0 <= k < |r| ==> r[k] != ""
    ensures multiset(r) == multiset(xs)["" := 0]
  {
    if xs == [] then []
    else
      assert xs == [xs[0]] + xs[1..];
      if xs[0] == "" then NonEmptyOnly(xs[1..]) else [xs[0]] + NonEmptyOnly(xs[1..])
  }

  /** `stdout.strip().split("\n")`: the lines of the picker's output. */
  function PickerLines(stdout: string): seq<string>
  {
    SplitOn(Strip(stdout), "\n")
  }

  /** The selection `select_photos` stores, or `None` when it keeps the old
      one: the picker must succeed and print something besides whitespace,
      and at least one line must be non-empty. */
  function ParsePickerOutput(returnCode: int, stdout: string): Option<seq<string>>
  {
    if returnCode == 0 && Strip(stdout) != "" then
      var files := NonEmptyOnly(PickerLines(stdout));
      if files != [] then Some(SortStrings(files)) else None
    else None
  }

  /** Text that does not start with a line break has a non-empty first line. */
  lemma FirstLineNonEmpty(t: string)
    requires t != [] && t[0] != '\n'
    ensures SplitOn(t, "\n")[0] != ""
  {
    assert t[..1] != "\n" by {
      assert t[..1][0] == t[0];
    }
  }

  /** A string free of the one-character pattern `"\n"` has no line break. */
  lemma NoNewline(x: string)
    requires !Contains(x, "\n")
    ensures '\n' !in x
  {
    forall i | 0 <= i < |x| ensures x[i] != '\n' {
      assert x[i..i + 1] == [x[i]];
      assert !OccursAt(x, "\n", i);
    }
  }

  /** A selection is stored exactly when the picker exits with 0 and prints
      at least one character that is not whitespace: the guard `if files:`
      never fails once the stripped output is non-empty. */
  lemma PickerAcceptsIff(returnCode: int, stdout: string)
    ensures ParsePickerOutput(returnCode, stdout).Some?
        <==> returnCode == 0 && exists i :: 0 <= i < |stdout| && !IsSpace(stdout[i])
  {
    StripEmptyIffBlank(stdout);
    var t := Strip(stdout);
    if returnCode == 0 && t != "" {
      StripEndsNotBlank(stdout);
      FirstLineNonEmpty(t);
      var lines := PickerLines(stdout);
      assert lines[0] in multiset(lines);
      assert lines[0] in multiset(NonEmptyOnly(lines));
    }
  }

  /** A stored selection is non-empty and sorted; each entry is a non-empty
      line of the output with no line break in it, every non-empty line is
      kept as often as it occurs, and the lines make up the stripped output. */
  lemma PickerSelection(returnCode: int, stdout: string)
    requires ParsePickerOutput(returnCode, stdout).Some?
    ensures var files, lines := ParsePickerOutput(returnCode, stdout).value, PickerLines(stdout);
      && files != []
      && Sorted(files)
      && multiset(files) == multiset(lines)["" := 0]
      && (forall k :: 0 <= k < |files| ==> files[k] != "" && '\n' !in files[k])
      && Join(lines, "\n") == Strip(stdout)
  {
    var files, lines := ParsePickerOutput(returnCode, stdout).value, PickerLines(stdout);
    forall k | 0 <= k < |files| ensures files[k] != "" && '\n' !in files[k] {
      assert files[k] in multiset(files);
      assert files[k] in multiset(lines);
      var m :| 0 <= m < |lines| && lines[m] == files[k];
      SplitPiecesAvoidPattern(Strip(stdout), "\n", m);
      NoNewline(files[k]);
    }
    SplitJoinRoundTrip(Strip(stdout), "\n");
  }

  /** The stored selection is the only sorted arrangement of the non-empty
      lines: any sorted list with the same entries is that list. */
  lemma PickerSelectionUnique(returnCode: int, stdout: string, other: seq<string>)
    requires ParsePickerOutput(returnCode, stdout).Some?
    requires Sorted(other) && multiset(other) == multiset(PickerLines(stdout))["" := 0]
    ensures other == ParsePickerOutput(returnCode, stdout).value
  {
    PickerSelection(returnCode, stdout);
    SortedUnique(other, ParsePickerOutput(returnCode, stdout).value);
  }
}
