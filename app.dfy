/** The menu-bar application object: its settings, the photo selection, and
    the operations its menu items call. */
module App {
  import opened Optional
  import opened Text
  import opened Command
  import opened Selection
  import opened Job

  /** What `create_timelapse` does: nothing when no photos are selected,
      otherwise it stages the links, builds the input pattern, the output
      path and the command, and reports how ffmpeg ended. */
  datatype Outcome =
    | NoPhotos
    | Ran(links: seq<Link>, inputPattern: string, outputPath: string, command: string, report: Report)

  class TimelapseApp {
    var selectedPhotos: seq<string>
    var framerate: string
    var resolution: Option<string>
    var codec: string
    var customCommand: Option<string>

    /** The settings the command is built from. */
    function Current(): Settings
      reads this
    {
      Settings(framerate, resolution, codec, customCommand)
    }

    /** A new application has no photos and the default settings. */
    constructor()
      ensures Current() == Defaults && selectedPhotos == []
    {
      selectedPhotos := [];
      framerate := "24";
      resolution := Some("1920:-2");
      codec := "libx264";
      customCommand := None;
    }

    /** Changes the framerate and drops the custom command. */
    method SetFramerate(fps: string)
      modifies this
      ensures framerate == fps && customCommand == None
      ensures resolution == old(resolution) && codec == old(codec)
      ensures selectedPhotos == old(selectedPhotos)
    {
      framerate := fps;
      customCommand := None;
    }

    /** Changes the resolution (`None` for "Original") and drops the custom command. */
    method SetResolution(value: Option<string>)
      modifies this
      ensures resolution == value && customCommand == None
      ensures framerate == old(framerate) && codec == old(codec)
      ensures selectedPhotos == old(selectedPhotos)
    {
      resolution := value;
      customCommand := None;
    }

    /** Changes the codec and drops the custom command. */
    method SetCodec(value: string)
      modifies this
      ensures codec == value && customCommand == None
      ensures framerate == old(framerate) && resolution == old(resolution)
      ensures selectedPhotos == old(selectedPhotos)
    {
      codec := value;
      customCommand := None;
    }

    /** The text the edit dialog opens on: the custom command when it is
        truthy, else the generated command with the placeholders as paths. */
    method CommandEditorText() returns (text: string)
      ensures Truthy(customCommand) ==> text == customCommand.value
      ensures !Truthy(customCommand) ==> text == CommandLine(Current(), InputPlaceholder, OutputPlaceholder)
    {
      if Truthy(customCommand) {
        text := customCommand.value;
      } else {
        text := FfmpegCommand(InputPlaceholder, OutputPlaceholder);
      }
    }

    /** The save step of the edit dialog: when the user clicks Save, the
        entered text, stripped, becomes the custom command. */
    method EditCommand(clicked: bool, text: string)
      modifies this
      ensures customCommand == if clicked then Some(Strip(text)) else old(customCommand)
      ensures framerate == old(framerate) && resolution == old(resolution) && codec == old(codec)
      ensures selectedPhotos == old(selectedPhotos)
    {
      if clicked {
        customCommand := Some(Strip(text));
      }
    }

    /** Restores the default settings; the selection is kept. */
    method ResetCommand()
      modifies this
      ensures Current() == Defaults
      ensures selectedPhotos == old(selectedPhotos)
    {
      customCommand := None;
      framerate := "24";
      resolution := Some("1920:-2");
      codec := "libx264";
    }

    /** Forgets the selected photos; the settings are kept. */
    method ClearSelection()
      modifies this
      ensures selectedPhotos == [] && Current() == old(Current())
    {
      selectedPhotos := [];
    }

    /** Applies what the file picker printed: a successful, non-blank answer
        replaces the selection with its sorted non-empty lines; anything else
        keeps the old selection. */
    method SelectPhotos(returnCode: int, stdout: string)
      modifies this
      ensures ParsePickerOutput(returnCode, stdout).Some? ==>
        selectedPhotos == ParsePickerOutput(returnCode, stdout).value
      ensures ParsePickerOutput(returnCode, stdout).None? ==> selectedPhotos == old(selectedPhotos)
      ensures Current() == old(Current())
    {
      var files := ParsePickerOutput(returnCode, stdout);
      if files.Some? {
        selectedPhotos := files.value;
      }
    }

    /** `get_ffmpeg_command`: substitutes the custom command, or assembles the
        argument list piece by piece and joins it with spaces. */
    method FfmpegCommand(inputPattern: string, outputPath: string) returns (cmd: string)
      ensures cmd == CommandLine(Current(), inputPattern, outputPath)
    {
      if Truthy(customCommand) {
        cmd := ReplaceAll(customCommand.value, InputPlaceholder, inputPattern);
        cmd := ReplaceAll(cmd, OutputPlaceholder, outputPath);
        return;
      }
      var parts := ["ffmpeg", "-y", "-framerate", framerate, "-pattern_type", "glob", "-i", Quote(inputPattern)];
      assert parts == BaseArgs(framerate, inputPattern);
      if codec == "libx264" {
        parts := parts + ["-c:v", "libx264", "-pix_fmt", "yuv420p"];
      } else if codec == "libx265" {
        parts := parts + ["-c:v", "libx265", "-pix_fmt", "yuv420p"];
      } else if codec == "prores_ks" {
        parts := parts + ["-c:v", "prores_ks", "-profile:v", "3"];
      }
      assert parts == BaseArgs(framerate, inputPattern) + CodecFlags(codec);
      if Truthy(resolution) {
        parts := parts + ["-vf", "scale=" + resolution.value];
      }
      assert parts == BaseArgs(framerate, inputPattern) + EncoderOptions(Current());
      parts := parts + [Quote(outputPath)];
      cmd := Join(parts, " ");
    }

    /** `create_timelapse`, with the outside world as parameters: `tempDir` is
        the directory `mkdtemp` made, `suffix` is `Path(...).suffix`,
        `timestamp` the formatted clock, `home` the home directory, and
        `exitCode` and `stderr` what ffmpeg returned. */
    method CreateTimelapse(tempDir: string, suffix: string -> string, timestamp: string, home: string,
                           exitCode: int, stderr: string) returns (outcome: Outcome)
      ensures outcome.NoPhotos? <==> selectedPhotos == []
      ensures outcome.Ran? ==>
        var ext, outputExt := suffix(selectedPhotos[0]), OutputExtension(codec);
        && |outcome.links| == |selectedPhotos|
        && (forall i :: 0 <= i < |outcome.links| ==>
              outcome.links[i] == StagedLink(tempDir, ext, i, selectedPhotos[i]))
        && outcome.inputPattern == InputPattern(tempDir, ext)
        && outcome.outputPath == OutputPath(home, timestamp, outputExt)
        && outcome.command == CommandLine(Current(), outcome.inputPattern, outcome.outputPath)
        && outcome.report == JobReport(exitCode, timestamp, outputExt, stderr)
    {
      if selectedPhotos == [] {
        return NoPhotos;
      }
      var ext := suffix(selectedPhotos[0]);
      var links := StageLinks(tempDir, ext, selectedPhotos);
      var outputExt := OutputExtension(codec);
      var outputPath := OutputPath(home, timestamp, outputExt);
      var inputPattern := InputPattern(tempDir, ext);
      var cmd := FfmpegCommand(inputPattern, outputPath);
      outcome := Ran(links, inputPattern, outputPath, cmd, JobReport(exitCode, timestamp, outputExt, stderr));
    }
  }
}
