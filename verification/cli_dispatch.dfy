/**
 * What CliExecutor::execute and CliExecutor::run do with a parse result:
 * reject it, print a help screen, or hand it to a handler. Printing is
 * modelled as the text written to standard output and standard error; a
 * handler is modelled as the exit code it returns.
 */
module CliDispatch {
  import opened Wrappers
  import opened Strings
  import opened CliTypes
  import opened CliRegistry
  import opened CliParse
  import opened CliHelp

  /** The exit code, what was written to stdout and stderr, and whether a handler was called. */
  datatype Outcome = Outcome(exitCode: int, stdout: string, stderr: string, handlerRan: bool)

  function Rejected(): Outcome
  {
    Outcome(-1, "", "", false)
  }

  function Handled(code: int): Outcome
  {
    Outcome(code, "", "", true)
  }

  function ShowHelp(text: string): Outcome
  {
    Outcome(0, text, "", false)
  }

  /**
   * execute: a failed result gives -1; "--help" prints the help screen for
   * the command path (or the program) and gives 0; an empty path goes to the
   * default handler, or gives -1 without one; a command without a callback
   * prints its help screen and gives 0; otherwise its callback runs.
   */
  function Execute(reg: Registry, r: ParseResult): (o: Outcome)
    ensures !r.success ==> o == Rejected()
    ensures r.success && r.GetBool("--help") ==>
      o == ShowHelp(if |r.commandPath| == 0 then TopHelp(reg) else CommandHelp(reg, r.commandPath))
    ensures o.handlerRan <==> (r.success && !r.GetBool("--help") &&
      ((|r.commandPath| == 0 && reg.defaultHandler.Some?) ||
       (|r.commandPath| > 0 && r.commandPath in reg.commands && Reachable(reg.commands, r.commandPath) && reg.commands[r.commandPath].callback.Some?)))
    ensures o.handlerRan && |r.commandPath| == 0 ==> o.exitCode == reg.defaultHandler.value
    ensures o.handlerRan && |r.commandPath| > 0 ==> o.exitCode == reg.commands[r.commandPath].callback.value
    ensures r.success && !r.GetBool("--help") && |r.commandPath| == 0 && reg.defaultHandler.None? ==> o == Rejected()
    ensures r.success && !r.GetBool("--help") && |r.commandPath| > 0 && !o.handlerRan ==>
      o == ShowHelp(CommandHelp(reg, r.commandPath))
    ensures o.stderr == ""
  {
    if !r.success then Rejected()
    else if r.GetBool("--help") then
      ShowHelp(if |r.commandPath| == 0 then TopHelp(reg) else CommandHelp(reg, r.commandPath))
    else if |r.commandPath| == 0 && reg.defaultHandler.Some? then Handled(reg.defaultHandler.value)
    else if |r.commandPath| == 0 then Rejected()
    else match FindCommand(reg.commands, r.commandPath)
      case Some(cmd) =>
        if cmd.callback.Some? then Handled(cmd.callback.value) else ShowHelp(CommandHelp(reg, r.commandPath))
      case None => ShowHelp(CommandHelp(reg, r.commandPath))
  }

  /** parse(argc, argv): the arguments after the program name. */
  function ArgvToArgs(argv: seq<string>): (args: seq<string>)
    ensures |argv| > 0 ==> args == argv[1..]
    ensures |argv| == 0 ==> args == []
  {
    if |argv| == 0 then [] else argv[1..]
  }

  /** The two lines run writes to stderr when parsing fails. */
  function ErrorReport(message: string): string
  {
    "Error: " + message + "\n" + "Use --help for usage information.\n"
  }

  /** run: parse argv; on failure report the error on stderr and give -1, else execute. */
  function Run(reg: Registry, argv: seq<string>): (o: Outcome)
    ensures var r := ParseSpec(reg, ArgvToArgs(argv));
      !r.success ==> o == Outcome(-1, "", ErrorReport(r.errorMessage), false)
    ensures var r := ParseSpec(reg, ArgvToArgs(argv));
      r.success ==> o == Execute(reg, r)
  {
    var r := ParseSpec(reg, ArgvToArgs(argv));
    if !r.success then Outcome(-1, "", ErrorReport(r.errorMessage), false)
    else Execute(reg, r)
  }

  /** No flag of the list is required. */
  predicate NoneRequired(flags: seq<FlagDef>)
  {
    forall k | 0 <= k < |flags| :: !flags[k].required
  }

  /** With no required flag in scope the required-flag check changes nothing. */
  lemma CheckNoneRequired(r: ParseResult, globals: seq<FlagDef>, cmdFlags: seq<FlagDef>)
    requires NoneRequired(globals) && NoneRequired(cmdFlags)
    ensures CheckRequired(r, globals, cmdFlags) == r
  {
    assert RequiredPresent(globals + cmdFlags, r.flags) by {
      forall k | 0 <= k < |globals + cmdFlags|
        ensures !Missing((globals + cmdFlags)[k], r.flags)
      {
        if k < |globals| { assert (globals + cmdFlags)[k] == globals[k]; }
        else { assert (globals + cmdFlags)[k] == cmdFlags[k - |globals|]; }
      }
    }
  }

  lemma ArgvOf(program: string, args: seq<string>)
    ensures ArgvToArgs([program] + args) == args
  {
    assert ([program] + args)[1..] == args;
  }

  lemma ArgvAfterPath(program: string, path: Path, arg: string)
    ensures ArgvToArgs([program] + path + [arg]) == path + [arg]
  {
    assert [program] + path + [arg] == [program] + (path + [arg]);
    ArgvOf(program, path + [arg]);
  }

  /** A registered path alone parses to its own scan start: no flags, no positionals. */
  lemma ParsePathAlone(reg: Registry, path: Path)
    requires |path| > 0 && Reachable(reg.commands, path)
    requires forall k | 0 <= k < |path| :: !IsDashed(path[k])
    requires NoneRequired(reg.globalFlags) && NoneRequired(FlagsAlong(reg.commands, path))
    ensures ParseSpec(reg, path) == ScanStart(path)
  {
    assert path + [] == path;
    ParseAfterPath(reg, path, []);
    CheckNoneRequired(ScanStart(path), reg.globalFlags, FlagsAlong(reg.commands, path));
  }

  /**
   * A command line naming a registered command path runs that command's
   * callback, or, for a node that only groups subcommands, prints its help
   * screen and exits with 0.
   */
  lemma RunDispatchesPath(reg: Registry, program: string, path: Path)
    requires |path| > 0 && Reachable(reg.commands, path)
    requires forall k | 0 <= k < |path| :: !IsDashed(path[k])
    requires NoneRequired(reg.globalFlags) && NoneRequired(FlagsAlong(reg.commands, path))
    ensures path in reg.commands
    ensures Run(reg, [program] + path) ==
      match reg.commands[path].callback
      case Some(code) => Handled(code)
      case None => ShowHelp(CommandHelp(reg, path))
  {
    ArgvOf(program, path);
    ParsePathAlone(reg, path);
    ExecuteScanStart(reg, path);
  }

  /** A successful result carrying only a reachable command path goes to that command. */
  lemma ExecuteScanStart(reg: Registry, path: Path)
    requires |path| > 0 && Reachable(reg.commands, path)
    ensures path in reg.commands
    ensures Execute(reg, ScanStart(path)) ==
      match reg.commands[path].callback
      case Some(code) => Handled(code)
      case None => ShowHelp(CommandHelp(reg, path))
  {
    assert path[..|path|] == path;
    assert !ScanStart(path).GetBool("--help");
  }

  /** A Boolean flag's long name as a token on its own sets the flag. */
  lemma ScanLongBoolean(globals: seq<FlagDef>, cmdFlags: seq<FlagDef>, start: ParseResult, f: FlagDef)
    requires start.success && f.kind == Boolean && StartsWith(f.longName, "--") && '=' !in f.longName
    requires FindFlag(globals, cmdFlags, f.longName) == Some(f)
    ensures Scan(globals, cmdFlags, [f.longName], start) == Store(start, f, BoolValue(true))
  {
    LongFlagPartsOfName(f.longName);
    assert [f.longName] == [f.longName] + [];
    ScanBooleanFlag(globals, cmdFlags, f.longName, [], start, f, "");
  }

  /** A Boolean flag's long name alone parses to a result with only that flag set. */
  lemma ParseLongBooleanAlone(reg: Registry, f: FlagDef)
    requires f.kind == Boolean && StartsWith(f.longName, "--") && '=' !in f.longName
    requires FindFlag(reg.globalFlags, [], f.longName) == Some(f)
    requires NoneRequired(reg.globalFlags)
    ensures ParseSpec(reg, [f.longName]) == Store(ScanStart([]), f, BoolValue(true))
  {
    var scanned := Store(ScanStart([]), f, BoolValue(true));
    ScanLongBoolean(reg.globalFlags, [], ScanStart([]), f);
    CheckNoneRequired(scanned, reg.globalFlags, []);
    LongIsDashed(f.longName);
    ParseWithoutPath(reg, [f.longName]);
  }

  /** A Boolean flag's long name after a registered path parses to the path's scan start with that flag set. */
  lemma ParseLongBooleanAfterPath(reg: Registry, path: Path, f: FlagDef)
    requires |path| > 0 && Reachable(reg.commands, path)
    requires forall k | 0 <= k < |path| :: !IsDashed(path[k])
    requires f.kind == Boolean && StartsWith(f.longName, "--") && '=' !in f.longName
    requires FindFlag(reg.globalFlags, FlagsAlong(reg.commands, path), f.longName) == Some(f)
    requires NoneRequired(reg.globalFlags) && NoneRequired(FlagsAlong(reg.commands, path))
    ensures ParseSpec(reg, path + [f.longName]) == Store(ScanStart(path), f, BoolValue(true))
  {
    var cmdFlags := FlagsAlong(reg.commands, path);
    var scanned := Store(ScanStart(path), f, BoolValue(true));
    ScanLongBoolean(reg.globalFlags, cmdFlags, ScanStart(path), f);
    CheckNoneRequired(scanned, reg.globalFlags, cmdFlags);
    LongIsDashed(f.longName);
    ParseAfterPath(reg, path, [f.longName]);
  }

  /** "--help" is a long name a Boolean flag can carry. */
  lemma HelpIsLongName()
    ensures StartsWith("--help", "--") && '=' !in "--help"
  {
  }

  /**
   * "--help" alone prints the program's help screen and exits with 0, when
   * the help flag in scope is a Boolean flag whose long name is "--help".
   */
  lemma RunTopHelp(reg: Registry, program: string, f: FlagDef)
    requires f.kind == Boolean && f.longName == "--help"
    requires FindFlag(reg.globalFlags, [], "--help") == Some(f)
    requires NoneRequired(reg.globalFlags)
    ensures Run(reg, [program, "--help"]) == ShowHelp(TopHelp(reg))
  {
    ArgvOf(program, ["--help"]);
    assert [program] + ["--help"] == [program, "--help"];
    HelpIsLongName();
    ParseLongBooleanAlone(reg, f);
    var r := Store(ScanStart([]), f, BoolValue(true));
    assert r.GetBool("--help");
    assert Execute(reg, r) == ShowHelp(TopHelp(reg));
  }

  /**
   * "--help" after a registered command path prints that command's help
   * screen and exits with 0, when the help flag in scope is a Boolean flag
   * whose long name is "--help".
   */
  lemma RunCommandHelp(reg: Registry, program: string, path: Path, f: FlagDef)
    requires |path| > 0 && Reachable(reg.commands, path)
    requires forall k | 0 <= k < |path| :: !IsDashed(path[k])
    requires f.kind == Boolean && f.longName == "--help"
    requires FindFlag(reg.globalFlags, FlagsAlong(reg.commands, path), "--help") == Some(f)
    requires NoneRequired(reg.globalFlags) && NoneRequired(FlagsAlong(reg.commands, path))
    ensures Run(reg, [program] + path + ["--help"]) == ShowHelp(CommandHelp(reg, path))
  {
    ArgvAfterPath(program, path, "--help");
    HelpIsLongName();
    ParseLongBooleanAfterPath(reg, path, f);
    var r := Store(ScanStart(path), f, BoolValue(true));
    assert r.GetBool("--help");
    assert Execute(reg, r) == ShowHelp(CommandHelp(reg, path));
  }
}
