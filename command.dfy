/** The encoder settings of the application and the ffmpeg command line
    built from them (`get_ffmpeg_command`). */
module Command {
  import opened Optional
  import opened Text

  /** The four settings the command depends on. `resolution` is an ffmpeg
      scale expression or `None` ("Original"); `customCommand`, when truthy,
      replaces the generated command. */
  datatype Settings = Settings(
    framerate: string,
    resolution: Option<string>,
    codec: string,
    customCommand: Option<string>)

  /** The values the application starts with and returns to on reset. */
  const Defaults := Settings("24", Some("1920:-2"), "libx264", None)

  /** The resolution menu: label to scale expression. */
  const ResolutionPresets: map<string, Option<string>> := map[
    "Original" := None,
    "4K (3840)" := Some("3840:-2"),
    "1080p" := Some("1920:-2"),
    "720p" := Some("1280:-2")]

  /** The codec menu: label to ffmpeg encoder name. */
  const CodecPresets: map<string, string> := map[
    "H.264" := "libx264",
    "H.265/HEVC" := "libx265",
    "ProRes" := "prores_ks"]

  const InputPlaceholder := "{input}"
  const OutputPlaceholder := "{output}"

  /** Wraps a path in single quotes for the shell. */
  function Quote(s: string): string
  {
    "'" + s + "'"
  }

  /** A custom template with every `{input}` replaced, then every `{output}`. */
  function Substitute(template: string, inputPattern: string, outputPath: string): string
  {
    ReplaceAll(ReplaceAll(template, InputPlaceholder, inputPattern), OutputPlaceholder, outputPath)
  }

  /** The arguments of a generated command before the quoted input pattern. */
  function InputFlags(framerate: string): seq<string>
  {
    ["ffmpeg", "-y", "-framerate", framerate, "-pattern_type", "glob", "-i"]
  }

  /** The arguments every generated command starts with. */
  function BaseArgs(framerate: string, inputPattern: string): seq<string>
  {
    InputFlags(framerate) + [Quote(inputPattern)]
  }

  /** The encoder flags of the three codec presets; any other codec adds none. */
  function CodecFlags(codec: string): seq<string>
  {
    if codec == "libx264" then ["-c:v", "libx264", "-pix_fmt", "yuv420p"]
    else if codec == "libx265" then ["-c:v", "libx265", "-pix_fmt", "yuv420p"]
    else if codec == "prores_ks" then ["-c:v", "prores_ks", "-profile:v", "3"]
    else []
  }

  /** The scale filter, present when the resolution is truthy. */
  function ScaleFlags(resolution: Option<string>): seq<string>
  {
    if Truthy(resolution) then ["-vf", "scale=" + resolution.value] else []
  }

  /** Everything between the input and the output arguments. */
  function EncoderOptions(s: Settings): seq<string>
  {
    CodecFlags(s.codec) + ScaleFlags(s.resolution)
  }

  /** The argument list of a generated command. */
  function GeneratedArgs(s: Settings, inputPattern: string, outputPath: string): seq<string>
  {
    BaseArgs(s.framerate, inputPattern) + EncoderOptions(s) + [Quote(outputPath)]
  }

  /** The command `get_ffmpeg_command(input_pattern, output_path)` returns. */
  function CommandLine(s: Settings, inputPattern: string, outputPath: string): string
  {
    if Truthy(s.customCommand) then Substitute(s.customCommand.value, inputPattern, outputPath)
    else Join(GeneratedArgs(s, inputPattern, outputPath), " ")
  }

  /** The options as they appear in the command text, each after a space. */
  function OptionText(opts: seq<string>): string
  {
    if |opts| == 0 then "" else " " + Join(opts, " ")
  }

  /** The text a generated command starts with, up to the input pattern:
      `ffmpeg -y -framerate <rate> -pattern_type glob -i '`. */
  function CommandHead(framerate: string): string
  {
    Join(InputFlags(framerate), " ") + " '"
  }

  /** A custom template is substituted as Python's `str.replace` does it, which
      is splitting at the placeholder and joining with the replacement: each
      piece of text between placeholders is kept as it is. */
  lemma CustomCommandSubstitution(s: Settings, inputPattern: string, outputPath: string)
    requires Truthy(s.customCommand)
    ensures var afterInput := Join(SplitOn(s.customCommand.value, InputPlaceholder), inputPattern);
      CommandLine(s, inputPattern, outputPath) == Join(SplitOn(afterInput, OutputPlaceholder), outputPath)
  {
    var afterInput := Join(SplitOn(s.customCommand.value, InputPlaceholder), inputPattern);
    ReplaceIsSplitJoin(s.customCommand.value, InputPlaceholder, inputPattern);
    ReplaceIsSplitJoin(afterInput, OutputPlaceholder, outputPath);
  }

  lemma PlaceholdersBraceHeaded()
    ensures BraceHeaded(InputPlaceholder) && BraceHeaded(OutputPlaceholder)
    ensures InputPlaceholder[1] != OutputPlaceholder[1]
  {
    assert InputPlaceholder[1..] == "input}";
    assert OutputPlaceholder[1..] == "output}";
  }

  /** A template holding `{input}` once and then `{output}` once, with no other
      `{` in it or in the input pattern, becomes the template with exactly
      those two placeholders replaced and all other text unchanged. */
  lemma SubstituteEachOnce(a: string, b: string, c: string, inputPattern: string, outputPath: string)
    requires '{' !in a && '{' !in b && '{' !in c && '{' !in inputPattern
    ensures Substitute(a + InputPlaceholder + b + OutputPlaceholder + c, inputPattern, outputPath)
         == a + inputPattern + b + outputPath + c
  {
    PlaceholdersBraceHeaded();
    var rest := b + OutputPlaceholder + c;
    NoBraceNoPattern(a, InputPlaceholder);
    SplitAtFirst(a, InputPlaceholder, rest);
    OnlyBraceElsewhere(b, OutputPlaceholder, c, InputPlaceholder);
    SplitWithoutPattern(rest, InputPlaceholder);
    assert a + InputPlaceholder + b + OutputPlaceholder + c == a + InputPlaceholder + rest;
    ReplaceIsSplitJoin(a + InputPlaceholder + rest, InputPlaceholder, inputPattern);
    var mid := a + inputPattern + b;
    assert Join([a, rest], inputPattern) == mid + OutputPlaceholder + c;
    assert '{' !in mid;
    NoBraceNoPattern(mid, OutputPlaceholder);
    SplitAtFirst(mid, OutputPlaceholder, c);
    NoBraceNoPattern(c, OutputPlaceholder);
    SplitWithoutPattern(c, OutputPlaceholder);
    ReplaceIsSplitJoin(mid + OutputPlaceholder + c, OutputPlaceholder, outputPath);
  }

  lemma CustomCommandEachOnce(s: Settings, a: string, b: string, c: string, inputPattern: string, outputPath: string)
    requires s.customCommand == Some(a + InputPlaceholder + b + OutputPlaceholder + c)
    requires '{' !in a && '{' !in b && '{' !in c && '{' !in inputPattern
    ensures CommandLine(s, inputPattern, outputPath) == a + inputPattern + b + outputPath + c
  {
    SubstituteEachOnce(a, b, c, inputPattern, outputPath);
  }

  /** The fixed head of a generated command, character for character. */
  lemma CommandHeadText(framerate: string)
    ensures CommandHead(framerate) == "ffmpeg -y -framerate " + framerate + " -pattern_type glob -i '"
  {
    var f := InputFlags(framerate);
    HeadFlagsText(framerate);
    RateFlagsText(framerate);
    InputFlagsText(framerate);
    var t := " -pattern_type glob -i";
    assert ("ffmpeg -y -framerate " + (framerate + t)) + " '" == "ffmpeg -y -framerate " + framerate + (t + " '");
  }

  lemma HeadFlagsText(framerate: string)
    ensures Join(InputFlags(framerate)[4..], " ") == "-pattern_type glob -i"
  {
    var f := InputFlags(framerate);
    assert f[4..] == ["-pattern_type"] + f[5..] && f[5..] == ["glob"] + f[6..] && f[6..] == ["-i"];
    JoinCons("-pattern_type", f[5..], " ");
    JoinCons("glob", f[6..], " ");
  }

  lemma RateFlagsText(framerate: string)
    ensures Join(InputFlags(framerate)[3..], " ") == framerate + " " + Join(InputFlags(framerate)[4..], " ")
  {
    var f := InputFlags(framerate);
    assert f[3..] == [framerate] + f[4..];
    JoinCons(framerate, f[4..], " ");
  }

  lemma InputFlagsText(framerate: string)
    ensures Join(InputFlags(framerate), " ") == "ffmpeg -y -framerate " + Join(InputFlags(framerate)[3..], " ")
  {
    var f := InputFlags(framerate);
    assert f == ["ffmpeg", "-y", "-framerate"] + f[3..];
    JoinThree("ffmpeg", "-y", "-framerate", f[3..], " ");
    assert "ffmpeg" + " " + "-y" + " " + "-framerate" + " " == "ffmpeg -y -framerate ";
  }

  lemma JoinThree(x: string, y: string, z: string, rest: seq<string>, sep: string)
    requires |rest| > 0
    ensures Join([x, y, z] + rest, sep) == (x + sep + y + sep + z + sep) + Join(rest, sep)
  {
    assert [x, y, z] + rest == [x] + ([y] + ([z] + rest));
    JoinCons(z, rest, sep);
    JoinCons(y, [z] + rest, sep);
    JoinCons(x, [y] + ([z] + rest), sep);
  }

  /** The base arguments joined by spaces are the fixed head followed by the
      quoted input pattern:
      `ffmpeg -y -framerate <rate> -pattern_type glob -i '<input>'`. */
  lemma BaseArgsText(framerate: string, inputPattern: string)
    ensures Join(BaseArgs(framerate, inputPattern), " ") == CommandHead(framerate) + inputPattern + "'"
    ensures Join(BaseArgs(framerate, inputPattern), " ")
         == "ffmpeg -y -framerate " + framerate + " -pattern_type glob -i '" + inputPattern + "'"
  {
    var flags := Join(InputFlags(framerate), " ");
    JoinConcat(InputFlags(framerate), [Quote(inputPattern)], " ");
    assert flags + " " + ("'" + inputPattern + "'") == (flags + " '") + inputPattern + "'";
    CommandHeadText(framerate);
  }

  /** The encoder options and the quoted output path, joined and appended
      after a space. */
  lemma OptionsThenOutput(opts: seq<string>, q: string)
    ensures " " + Join(opts + [q], " ") == OptionText(opts) + " " + q
  {
    if |opts| > 0 {
      JoinConcat(opts, [q], " ");
    } else {
      assert opts + [q] == [q];
    }
  }

  /** Without a custom command, the command is `ffmpeg -y -framerate <rate>
      -pattern_type glob -i '<input>'`, then the codec and scale options, then
      `'<output>'`, all separated by single spaces. */
  lemma GeneratedCommandText(s: Settings, inputPattern: string, outputPath: string)
    requires !Truthy(s.customCommand)
    ensures CommandLine(s, inputPattern, outputPath)
         == CommandHead(s.framerate) + inputPattern + "'" + OptionText(EncoderOptions(s)) + " " + Quote(outputPath)
  {
    var base := BaseArgs(s.framerate, inputPattern);
    var opts := EncoderOptions(s);
    var q := Quote(outputPath);
    BaseArgsText(s.framerate, inputPattern);
    assert GeneratedArgs(s, inputPattern, outputPath) == base + (opts + [q]);
    JoinConcat(base, opts + [q], " ");
    OptionsThenOutput(opts, q);
    var head, rest := Join(base, " "), Join(opts + [q], " ");
    assert head + " " + rest == head + (" " + rest);
    assert head + (OptionText(opts) + " " + q) == head + OptionText(opts) + " " + q;
  }

  /** The generated command starts with the fixed head and the quoted input
      pattern, and ends with the quoted output path. */
  lemma GeneratedCommandEnds(s: Settings, inputPattern: string, outputPath: string)
    requires !Truthy(s.customCommand)
    ensures var cmd, head := CommandLine(s, inputPattern, outputPath), CommandHead(s.framerate) + inputPattern + "'";
      && |head| <= |cmd| && cmd[..|head|] == head
      && |Quote(outputPath)| <= |cmd| && cmd[|cmd| - |Quote(outputPath)|..] == Quote(outputPath)
  {
    GeneratedCommandText(s, inputPattern, outputPath);
    var head := CommandHead(s.framerate) + inputPattern + "'";
    var mid := OptionText(EncoderOptions(s)) + " ";
    var q := Quote(outputPath);
    assert CommandLine(s, inputPattern, outputPath) == head + (mid + q);
    assert CommandLine(s, inputPattern, outputPath) == (head + mid) + q;
  }

  /** The codec flags follow the codec exactly: `-c:v <codec>` for each of the
      three presets, with `-pix_fmt yuv420p` for the two H.26x codecs and
      `-profile:v 3` for ProRes, and no codec flag for any other codec. */
  lemma CodecFlagsFollowCodec(s: Settings)
    ensures var opts := EncoderOptions(s);
      && (("-c:v" in opts) <==> s.codec in CodecPresets.Values)
      && (("-pix_fmt" in opts) <==> s.codec == "libx264" || s.codec == "libx265")
      && (("-profile:v" in opts) <==> s.codec == "prores_ks")
      && (s.codec in CodecPresets.Values ==> opts[..2] == ["-c:v", s.codec])
      && (s.codec !in CodecPresets.Values ==> opts == ScaleFlags(s.resolution))
      && (s.codec == "libx264" ==> opts == ["-c:v", "libx264", "-pix_fmt", "yuv420p"] + ScaleFlags(s.resolution))
      && (s.codec == "libx265" ==> opts == ["-c:v", "libx265", "-pix_fmt", "yuv420p"] + ScaleFlags(s.resolution))
      && (s.codec == "prores_ks" ==> opts == ["-c:v", "prores_ks", "-profile:v", "3"] + ScaleFlags(s.resolution))
  {
    var c := s.codec;
    assert CodecPresets["H.264"] == "libx264" && CodecPresets["H.265/HEVC"] == "libx265"
      && CodecPresets["ProRes"] == "prores_ks";
    assert c in CodecPresets.Values <==> c == "libx264" || c == "libx265" || c == "prores_ks";
    var scale := ScaleFlags(s.resolution);
    assert "-c:v" !in scale && "-pix_fmt" !in scale && "-profile:v" !in scale by {
      if Truthy(s.resolution) {
        assert ("scale=" + s.resolution.value)[0] == 's';
      }
    }
  }

  /** `-vf scale=<resolution>` is among the options if and only if the
      resolution is truthy; the "Original" preset is the only one without it. */
  lemma ScaleFilterIffResolution(s: Settings)
    ensures var opts := EncoderOptions(s);
      && (("-vf" in opts) <==> Truthy(s.resolution))
      && (Truthy(s.resolution) ==> opts[|opts| - 2..] == ["-vf", "scale=" + s.resolution.value])
      && (forall name | name in ResolutionPresets ::
            Truthy(ResolutionPresets[name]) <==> name != "Original")
  {
    assert "-vf" !in CodecFlags(s.codec);
  }

  /** No codec flag contains `{`. */
  lemma CodecFlagsBraceFree(codec: string)
    ensures forall k :: 0 <= k < |CodecFlags(codec)| ==> '{' !in CodecFlags(codec)[k]
  {
  }

  /** The text of every encoder option is free of `{` when the resolution is. */
  lemma OptionsBraceFree(s: Settings)
    requires s.resolution.Some? ==> '{' !in s.resolution.value
    ensures '{' !in OptionText(EncoderOptions(s))
  {
    var codec, scale := CodecFlags(s.codec), ScaleFlags(s.resolution);
    CodecFlagsBraceFree(s.codec);
    assert forall k :: 0 <= k < |scale| ==> '{' !in scale[k];
    var opts := codec + scale;
    assert forall k :: 0 <= k < |opts| ==> opts[k] == if k < |codec| then codec[k] else scale[k - |codec|];
    JoinAvoidsChar(opts, " ", '{');
  }

  /** Whatever the framerate, the head of a generated command starts with `f`. */
  lemma HeadStartsWithF(framerate: string)
    ensures CommandHead(framerate) != [] && CommandHead(framerate)[0] == 'f'
  {
    var flags := InputFlags(framerate);
    JoinCons("ffmpeg", flags[1..], " ");
    assert flags == ["ffmpeg"] + flags[1..];
  }

  /** The head of a generated command is free of `{` when the framerate is,
      and starts with `f`. */
  lemma HeadShape(framerate: string)
    requires '{' !in framerate
    ensures '{' !in CommandHead(framerate) && CommandHead(framerate)[0] == 'f'
  {
    var flags := InputFlags(framerate);
    assert forall k :: 0 <= k < |flags| ==> '{' !in flags[k];
    JoinAvoidsChar(flags, " ", '{');
    HeadStartsWithF(framerate);
  }

  /** What the edit dialog shows for a generated command: the command with
      `{input}` and `{output}` in place of the paths, whose other text is the
      head `a` and the middle `b` of the generated command. */
  lemma DialogTemplateShape(s: Settings)
    requires !Truthy(s.customCommand)
    ensures var a, b := CommandHead(s.framerate), "'" + OptionText(EncoderOptions(s)) + " '";
      CommandLine(s, InputPlaceholder, OutputPlaceholder) == a + InputPlaceholder + b + OutputPlaceholder + "'"
  {
    GeneratedCommandText(s, InputPlaceholder, OutputPlaceholder);
    var a, ot := CommandHead(s.framerate), OptionText(EncoderOptions(s));
    Regroup(a, InputPlaceholder, ot, OutputPlaceholder);
  }

  /** Regrouping the pieces of a generated command around its output path. */
  lemma Regroup(a: string, i: string, ot: string, o: string)
    ensures a + i + "'" + ot + " " + ("'" + o + "'") == a + i + ("'" + ot + " '") + o + "'"
  {
    assert " " + "'" == " '";
  }

  /** The dialog text neither starts nor ends with whitespace. */
  lemma DialogTemplateUnpadded(s: Settings)
    requires !Truthy(s.customCommand)
    ensures var t := CommandLine(s, InputPlaceholder, OutputPlaceholder);
      t != [] && !IsSpace(t[0]) && !IsSpace(t[|t| - 1])
  {
    DialogTemplateShape(s);
    HeadStartsWithF(s.framerate);
    var t := CommandLine(s, InputPlaceholder, OutputPlaceholder);
    assert t[0] == CommandHead(s.framerate)[0];
  }

  /** The edit dialog opens on the generated command with `{input}` and
      `{output}` in place of the paths; saving that text unchanged as the
      custom command yields the same command as before, provided neither the
      framerate, the resolution nor the input pattern contains `{`. */
  lemma SavingDialogTextKeepsCommand(s: Settings, inputPattern: string, outputPath: string)
    requires !Truthy(s.customCommand)
    requires '{' !in s.framerate && (s.resolution.Some? ==> '{' !in s.resolution.value)
    requires '{' !in inputPattern
    ensures var saved := Strip(CommandLine(s, InputPlaceholder, OutputPlaceholder));
      && Truthy(Some(saved))
      && CommandLine(s.(customCommand := Some(saved)), inputPattern, outputPath)
         == CommandLine(s, inputPattern, outputPath)
  {
    var template := CommandLine(s, InputPlaceholder, OutputPlaceholder);
    var a, ot := CommandHead(s.framerate), OptionText(EncoderOptions(s));
    var b := "'" + ot + " '";
    DialogTemplateUnpadded(s);
    StripKeepsUnpadded(template);
    DialogTemplateShape(s);
    HeadShape(s.framerate);
    OptionsBraceFree(s);
    assert '{' !in b;
    SubstituteEachOnce(a, b, "'", inputPattern, outputPath);
    GeneratedCommandText(s, inputPattern, outputPath);
    Regroup(a, inputPattern, ot, outputPath);
  }
}
