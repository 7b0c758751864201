/** The command line of the main program (`src/main.rs`): `parse_args`
    turns the argument list (program name first) into the mode the program
    runs in, or into the message it stops with. Running the modes (the
    interface, the downloads, the split) is not part of this module. */
module Cli {
  import opened Wrappers
  import opened Text
  import Tasks

  datatype AppMode =
    | Ui
    | Download(videoId: string, lang: string)
    | Scan(videoId: string)
    | Split(inputPath: string, mode: Tasks.SplitMode)
    | Help

  function UnknownCommandError(command: string): string {
    "Unknown command: '" + command + "'. Use 'nth', 'manual', 'scan', 'download', or run without args for UI."
  }

  /** The commands `parse_args` recognises. */
  predicate KnownCommand(command: string) {
    command in {"ui", "help", "--help", "-h", "scan", "download", "nth", "manual"}
  }

  /** The number of arguments, program name included, a known command
      needs. */
  function ArgsNeeded(command: string): nat {
    if command == "scan" || command == "download" then 3
    else if command == "nth" || command == "manual" then 4
    else 2
  }

  /** A mode in the form `parse_args` produces: a split never names an
      output directory, a chunk size fits in a `usize`, and a manual split
      has at least one range. */
  predicate Parsed(m: AppMode) {
    m.Split? ==>
      && m.mode.outputDir.None?
      && (m.mode.Auto? ==> m.mode.chunkSize <= USIZE_MAX)
      && (m.mode.Manual? ==> |m.mode.ranges| >= 1)
  }

  /** `parse_args`. */
  function ParseArgs(args: seq<string>): (r: Result<AppMode>)
    ensures r.Ok? ==> Parsed(r.value)
  {
    if |args| < 2 then Ok(Ui)
    else
      var command := args[1];
      if command == "ui" then Ok(Ui)
      else if command == "help" || command == "--help" || command == "-h" then Ok(Help)
      else if command == "scan" then
        if |args| < 3 then Err("Usage: scan <video_id_or_url>")
        else Ok(Scan(args[2]))
      else if command == "download" then
        if |args| < 3 then Err("Usage: download <video_id_or_url> [lang]")
        else Ok(Download(args[2], if |args| > 3 then args[3] else "en"))
      else if command == "nth" then
        if |args| < 4 then Err("Usage: nth <file> <size>")
        else
          match ParseUsize(args[3])
          case None => Err("Invalid chunk size number")
          case Some(size) => Ok(Split(args[2], Tasks.Auto(size, None)))
      else if command == "manual" then
        if |args| < 4 then Err("Usage: manual <file> <range>...")
        else Ok(Split(args[2], Tasks.Manual(args[3..], None)))
      else Err(UnknownCommandError(command))
  }

  /** A command line that asks for mode `m`, run as `program`. */
  function ToArgs(program: string, m: AppMode): seq<string> {
    match m
    case Ui => [program]
    case Help => [program, "help"]
    case Scan(id) => [program, "scan", id]
    case Download(id, lang) => [program, "download", id, lang]
    case Split(path, mode) =>
      match mode
      case Auto(size, _) => [program, "nth", path, NatToString(size)]
      case Manual(ranges, _) => [program, "manual", path] + ranges
  }

  /** Round trip: every mode `parse_args` can produce is produced by the
      command line that spells it out. */
  lemma ParseArgsRoundTrip(program: string, m: AppMode)
    requires Parsed(m)
    ensures ParseArgs(ToArgs(program, m)) == Ok(m)
  {
    if m.Split? {
      var args := ToArgs(program, m);
      match m.mode
      case Auto(size, _) =>
        ParseUsizeNatToString(size);
      case Manual(ranges, _) =>
        assert args[3..] == ranges;
    }
  }

  /** `parse_args` fails exactly when a command is given and it is
      unknown, has fewer arguments than it needs, or is `nth` with a size
      `parse::<usize>` rejects; the message says which. */
  lemma ParseArgsErrors(args: seq<string>)
    ensures ParseArgs(args).Err? <==>
      && |args| >= 2
      && (|| !KnownCommand(args[1])
          || |args| < ArgsNeeded(args[1])
          || (args[1] == "nth" && ParseUsize(args[3]).None?))
    ensures |args| >= 2 && !KnownCommand(args[1]) ==> ParseArgs(args) == Err(UnknownCommandError(args[1]))
    ensures |args| >= 4 && args[1] == "nth" && ParseUsize(args[3]).None? ==>
              ParseArgs(args) == Err("Invalid chunk size number")
  {
    if |args| >= 2 {
      var command := args[1];
      if command == "scan" || command == "download" {
        assert ArgsNeeded(command) == 3;
      } else if command == "nth" || command == "manual" {
        assert ArgsNeeded(command) == 4;
      } else if KnownCommand(command) {
        assert command == "ui" || command == "help" || command == "--help" || command == "-h";
      }
    }
  }

  /** What each known command with enough arguments returns: `ui` the
      interface, the three help spellings the usage text, `scan` and
      `download` their ID (and the language, when given; later arguments
      are ignored), `nth` the chunked split of any size `parse::<usize>`
      accepts, `manual` the split by every range after the file. */
  lemma ParseArgsOk(args: seq<string>)
    ensures |args| >= 2 && args[1] == "ui" ==> ParseArgs(args) == Ok(Ui)
    ensures |args| >= 2 && args[1] in {"help", "--help", "-h"} ==> ParseArgs(args) == Ok(Help)
    ensures |args| >= 3 && args[1] == "scan" ==> ParseArgs(args) == Ok(Scan(args[2]))
    ensures |args| >= 4 && args[1] == "download" ==> ParseArgs(args) == Ok(Download(args[2], args[3]))
    ensures |args| >= 4 && args[1] == "nth" && ParseUsize(args[3]).Some? ==>
              ParseArgs(args) == Ok(Split(args[2], Tasks.Auto(ParseUsize(args[3]).value, None)))
    ensures |args| >= 4 && args[1] == "manual" ==>
              ParseArgs(args) == Ok(Split(args[2], Tasks.Manual(args[3..], None)))
  {
  }

  /** `parse::<usize>` is not only the inverse of printing: a `+` sign and
      leading zeros are accepted, so `nth` reads `"+5"` and `"007"` too. */
  lemma ParseArgsSizeForms(program: string, file: string)
    ensures ParseArgs([program, "nth", file, "+5"]) == Ok(Split(file, Tasks.Auto(5, None)))
    ensures ParseArgs([program, "nth", file, "007"]) == Ok(Split(file, Tasks.Auto(7, None)))
    ensures ParseArgs([program, "nth", file, "-5"]) == Err("Invalid chunk size number")
  {
    assert DigitsValue("5") == 5;
    assert DigitsValue("07") == 7 by { assert DigitsValue("0") == 0; }
    assert DigitsValue("007") == 7 by { assert DigitsValue("00") == 0; }
  }

  /** With no command the program opens its interface; a download without
      a language asks for English; a manual split takes every argument
      after the file as a range, in order. */
  lemma ParseArgsDefaults(args: seq<string>)
    ensures |args| < 2 ==> ParseArgs(args) == Ok(Ui)
    ensures |args| == 3 && args[1] == "download" ==> ParseArgs(args) == Ok(Download(args[2], "en"))
  {
  }
}
