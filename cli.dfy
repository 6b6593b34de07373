/** internal/cli/args.go and internal/cli/cli.go: the argument classifier
    (the two copies of ParseArgs are identical) and the dispatch of Run. */
module Cli {
  import opened Results

  datatype Command = Usage | ShowVersion | RunOnAllMarkdown | RunOnInputFiles

  datatype Options = Options(verbose: bool, forceColor: bool)

  /** exitcode.UsageError */
  const UsageError: int := 3

  /** The two flags, matched exactly. */
  predicate IsFlag(arg: string) {
    arg == "--verbose" || arg == "--color=always"
  }

  predicate IsKeyword(arg: string) {
    arg == "run" || arg == "version"
  }

  /** The command an argument selects when it is not a flag. */
  function CommandOfArg(arg: string): Command {
    if arg == "run" then RunOnAllMarkdown
    else if arg == "version" then ShowVersion
    else RunOnInputFiles
  }

  /** The last argument that is not a flag, if any. */
  function LastNonFlag(args: seq<string>): (r: Option<string>)
    ensures r.None? <==> forall i :: 0 <= i < |args| ==> IsFlag(args[i])
    ensures r.Some? ==> exists i :: 0 <= i < |args| && args[i] == r.value && !IsFlag(args[i])
                                   && (forall j :: i < j < |args| ==> IsFlag(args[j]))
    decreases |args|
  {
    if |args| == 0 then None
    else if !IsFlag(args[|args| - 1]) then Some(args[|args| - 1])
    else
      var r := LastNonFlag(args[..|args| - 1]);
      assert forall i :: 0 <= i < |args| - 1 ==> args[..|args| - 1][i] == args[i];
      r
  }

  /** The command ParseArgs settles on: the last non-flag argument decides. */
  function CommandOf(args: seq<string>): Command {
    match LastNonFlag(args)
    case None => Usage
    case Some(arg) => CommandOfArg(arg)
  }

  /** The file arguments: neither flags nor keywords, in argument order. */
  function FilesOf(args: seq<string>): seq<string>
    decreases |args|
  {
    if |args| == 0 then []
    else
      var arg := args[|args| - 1];
      FilesOf(args[..|args| - 1]) + (if IsFlag(arg) || IsKeyword(arg) then [] else [arg])
  }

  /** ParseArgs (args.go:17-44, cli.go:45-72). */
  method ParseArgs(args: seq<string>) returns (command: Command, options: Options, files: seq<string>)
    ensures command == CommandOf(args)
    ensures options == Options("--verbose" in args, "--color=always" in args)
    ensures files == FilesOf(args)
  {
    command := Usage;
    options := Options(false, false);
    files := [];
    for i := 0 to |args|
      invariant command == CommandOf(args[..i])
      invariant options == Options("--verbose" in args[..i], "--color=always" in args[..i])
      invariant files == FilesOf(args[..i])
    {
      var arg := args[i];
      assert args[..i + 1] == args[..i] + [arg];
      LastArgumentDecides(args[..i], arg);
      match arg {
        case "--verbose" =>
          options := options.(verbose := true);
        case "--color=always" =>
          options := options.(forceColor := true);
        case "run" =>
          command := RunOnAllMarkdown;
        case "version" =>
          command := ShowVersion;
        case _ =>
          command := RunOnInputFiles;
          files := files + [arg];
      }
    }
    assert args[..|args|] == args;
  }

  /** With no arguments the result is (Usage, no options, no files). */
  lemma ParseArgsEmpty()
    ensures CommandOf([]) == Usage && FilesOf([]) == []
    ensures Options("--verbose" in [], "--color=always" in []) == Options(false, false)
  {
  }

  /** The command is Usage exactly when every argument is a flag. */
  lemma UsageExactly(args: seq<string>)
    ensures CommandOf(args) == Usage <==> forall i :: 0 <= i < |args| ==> IsFlag(args[i])
  {
  }

  /** A trailing flag changes nothing; a trailing non-flag decides the
      command, and is a file unless it is a keyword. */
  lemma LastArgumentDecides(args: seq<string>, arg: string)
    ensures IsFlag(arg) ==> CommandOf(args + [arg]) == CommandOf(args)
    ensures IsFlag(arg) ==> FilesOf(args + [arg]) == FilesOf(args)
    ensures !IsFlag(arg) ==> CommandOf(args + [arg]) == CommandOfArg(arg)
    ensures !IsFlag(arg) ==> FilesOf(args + [arg]) == FilesOf(args) + (if IsKeyword(arg) then [] else [arg])
  {
    assert (args + [arg])[..|args|] == args;
    if IsFlag(arg) {
      var r := LastNonFlag(args + [arg]);
      assert r == LastNonFlag(args);
    }
  }

  /** The files are the arguments that are neither flags nor keywords, in
      order: FilesOf distributes over concatenation. */
  lemma {:induction false} FilesOfConcat(a: seq<string>, b: seq<string>)
    ensures FilesOf(a + b) == FilesOf(a) + FilesOf(b)
    decreases |b|
  {
    if |b| == 0 {
      assert a + b == a;
    } else {
      var b' := b[..|b| - 1];
      FilesOfConcat(a, b');
      assert (a + b)[..|a + b| - 1] == a + b';
    }
  }

  lemma {:induction false} FilesOfMembers(args: seq<string>, x: string)
    ensures x in FilesOf(args) <==> x in args && !IsFlag(x) && !IsKeyword(x)
    decreases |args|
  {
    if |args| > 0 {
      var prior := args[..|args| - 1];
      FilesOfMembers(prior, x);
      assert args == prior + [args[|args| - 1]];
    }
  }

  /** A file list does not imply RunOnInputFiles: `a.md run` checks every
      Markdown file, and `--color` is taken as a file name. */
  lemma ParseArgsExamples()
    ensures CommandOf(["a.md", "run"]) == RunOnAllMarkdown && FilesOf(["a.md", "run"]) == ["a.md"]
    ensures CommandOf(["--color"]) == RunOnInputFiles && FilesOf(["--color"]) == ["--color"]
  {
    assert ["a.md", "run"][..1] == ["a.md"];
    assert ["--color"][..0] == [];
  }

  // ---------------------------------------------------------------------------
  // Run (cli.go:29-43, 92-98)
  // ---------------------------------------------------------------------------

  /** Where the files to check come from. */
  datatype FileSource = AllMarkdownInGit | Given(files: seq<string>)

  /** What Run does: print the version, start a check, or print the usage
      text and return its exit code. */
  datatype Action =
    | PrintVersion
    | Start(verbose: bool, forceColor: bool, source: FileSource)
    | ShowUsage(exitCode: int)

  function Dispatch(command: Command, options: Options, files: seq<string>): Action {
    match command
    case ShowVersion => PrintVersion
    case RunOnAllMarkdown => Start(options.verbose, options.forceColor, AllMarkdownInGit)
    case RunOnInputFiles => Start(options.verbose, options.forceColor, Given(files))
    case Usage => ShowUsage(UsageError)
  }

  /** Run: parse the arguments and dispatch on the command. */
  method Run(args: seq<string>) returns (action: Action)
    ensures action == Dispatch(CommandOf(args), Options("--verbose" in args, "--color=always" in args), FilesOf(args))
  {
    var command, options, files := ParseArgs(args);
    action := Dispatch(command, options, files);
  }

  /** Run shows the usage text, with exitcode.UsageError, exactly when every
      argument is a flag; a check started on the given files gets exactly
      the file arguments. */
  lemma RunUsageExactly(args: seq<string>)
    ensures var action := Dispatch(CommandOf(args), Options("--verbose" in args, "--color=always" in args), FilesOf(args));
      (action.ShowUsage? <==> forall i :: 0 <= i < |args| ==> IsFlag(args[i])) &&
      (action.ShowUsage? ==> action.exitCode == UsageError) &&
      (action.Start? && action.source.Given? ==> action.source.files == FilesOf(args))
  {
    UsageExactly(args);
  }
}
