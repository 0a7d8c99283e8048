/**
 * The help screens of CliExecutor: help() for the whole program and
 * help(path) for one command. Commands and subcommands are listed in the
 * iteration order of the std::map that holds them (lexicographic order of
 * their names); flags are listed in registration order.
 */
module CliHelp {
  import opened Wrappers
  import opened Strings
  import opened Ordering
  import opened CliTypes
  import opened CliRegistry

  // ---------------------------------------------------------------------------
  // One line per flag

  /** The names column: "-s, --long", or whichever of the two names is set. */
  function FlagNames(f: FlagDef): (s: string)
    ensures StartsWith(s, f.shortName)
    ensures |f.longName| <= |s| && s[|s| - |f.longName|..] == f.longName
  {
    if f.shortName == "" then f.longName
    else if f.longName == "" then f.shortName
    else f.shortName + ", " + f.longName
  }

  /** What follows the names: the " <args>" marker, the description after a tab, the " (required)" marker. */
  function FlagTail(f: FlagDef): string
  {
    (if f.kind == MultiArg then " <args>" else "")
    + (if f.description != "" then "\t" + f.description else "")
    + ((if f.required then " (required)" else "") + "\n")
  }

  /** The help line of one flag, indented by two spaces. */
  function FlagLine(f: FlagDef): string
  {
    "  " + FlagNames(f) + FlagTail(f)
  }

  /** A flag's help line shows both its names, its description and its markers. */
  lemma FlagLineMentions(f: FlagDef)
    ensures var line := FlagLine(f);
      Contains(line, f.shortName) && Contains(line, f.longName) && Contains(line, f.description) &&
      (f.kind == MultiArg ==> Contains(line, " <args>")) &&
      (f.required ==> Contains(line, " (required)"))
  {
    var names, tail := FlagNames(f), FlagTail(f);
    FlagNamesMention(f);
    FlagTailMentions(f);
    ContainsConcat("  ", names, tail, f.shortName);
    ContainsConcat("  ", names, tail, f.longName);
    ContainsRight("  " + names, tail, f.description);
    if f.kind == MultiArg {
      ContainsRight("  " + names, tail, " <args>");
    }
    if f.required {
      ContainsRight("  " + names, tail, " (required)");
    }
  }

  lemma FlagNamesMention(f: FlagDef)
    ensures Contains(FlagNames(f), f.shortName) && Contains(FlagNames(f), f.longName)
  {
    var names := FlagNames(f);
    ContainsPrefix(names, f.shortName, names[|f.shortName|..]);
    assert names == names[..|names| - |f.longName|] + f.longName;
    ContainsSelf(f.longName);
    ContainsRight(names[..|names| - |f.longName|], f.longName, f.longName);
  }

  lemma FlagTailMentions(f: FlagDef)
    ensures var tail := FlagTail(f);
      Contains(tail, f.description) &&
      (f.kind == MultiArg ==> Contains(tail, " <args>")) &&
      (f.required ==> Contains(tail, " (required)"))
  {
    var a := if f.kind == MultiArg then " <args>" else "";
    var d := if f.description != "" then "\t" + f.description else "";
    var r := (if f.required then " (required)" else "") + "\n";
    assert FlagTail(f) == a + d + r;
    if f.description != "" {
      ContainsSelf(f.description);
      ContainsRight("\t", f.description, f.description);
      ContainsConcat(a, d, r, f.description);
    } else {
      ContainsSelf(FlagTail(f));
    }
    if f.kind == MultiArg {
      ContainsSelf(a);
      ContainsLeft(a, d, a);
      ContainsLeft(a + d, r, a);
    }
    if f.required {
      ContainsPrefix(r, " (required)", "\n");
      ContainsRight(a + d, r, " (required)");
    }
  }

  /** The lines of a list of flags, in their order. */
  function FlagLines(flags: seq<FlagDef>): string
  {
    if |flags| == 0 then "" else FlagLine(flags[0]) + FlagLines(flags[1..])
  }

  lemma FlagLinesList(flags: seq<FlagDef>, k: nat)
    requires k < |flags|
    ensures Contains(FlagLines(flags), FlagLine(flags[k]))
  {
    forall fs: seq<FlagDef> | |fs| > 0
      ensures FlagLines(fs) == FlagLine(fs[0]) + FlagLines(fs[1..])
    {
    }
    LineListed(FlagLine, FlagLines, flags, k);
  }

  /** In a text made of one line per element, each element's line occurs. */
  lemma {:induction false} LineListed<T>(line: T -> string, lines: seq<T> -> string, xs: seq<T>, k: nat)
    requires k < |xs|
    requires forall ys: seq<T> | |ys| > 0 :: lines(ys) == line(ys[0]) + lines(ys[1..])
    ensures Contains(lines(xs), line(xs[k]))
    decreases |xs|
  {
    var head, tail := line(xs[0]), lines(xs[1..]);
    if k == 0 {
      ContainsSelf(head);
      ContainsLeft(head, tail, head);
    } else {
      LineListed(line, lines, xs[1..], k - 1);
      assert xs[1..][k - 1] == xs[k];
      ContainsRight(head, tail, line(xs[k]));
    }
  }

  // ---------------------------------------------------------------------------
  // One line per command

  /** "  name", then a tab and the description when there is one. */
  function EntryLine(name: string, description: string): string
  {
    "  " + name + (if description != "" then "\t" + description else "") + "\n"
  }

  /** The subcommand names of the node at `parent`, in std::map order. */
  function Children(cmds: Commands, parent: Path): (names: seq<string>)
    ensures forall k | 0 <= k < |names| :: parent + [names[k]] in cmds
    ensures forall n | parent + [n] in cmds :: n in names
    ensures forall j, k | 0 <= j < k < |names| :: Less(names[j], names[k])
  {
    SortedKeys(ChildNames(cmds, parent))
  }

  /** The entry lines of the named subcommands of `parent`, in the order given. */
  function EntryLines(cmds: Commands, parent: Path, names: seq<string>): string
    requires forall k | 0 <= k < |names| :: parent + [names[k]] in cmds
  {
    if |names| == 0 then ""
    else EntryLine(names[0], cmds[parent + [names[0]]].description) + EntryLines(cmds, parent, names[1..])
  }

  lemma {:induction false} EntryLinesList(cmds: Commands, parent: Path, names: seq<string>, k: nat)
    requires forall k | 0 <= k < |names| :: parent + [names[k]] in cmds
    requires k < |names|
    ensures Contains(EntryLines(cmds, parent, names), EntryLine(names[k], cmds[parent + [names[k]]].description))
  {
    var first := EntryLine(names[0], cmds[parent + [names[0]]].description);
    if k == 0 {
      ContainsSelf(first);
      ContainsLeft(first, EntryLines(cmds, parent, names[1..]), first);
    } else {
      EntryLinesList(cmds, parent, names[1..], k - 1);
      assert names[1..][k - 1] == names[k];
      ContainsRight(first, EntryLines(cmds, parent, names[1..]), EntryLine(names[k], cmds[parent + [names[k]]].description));
    }
  }

  /** Every subcommand of `parent` has its line in the listing. */
  lemma ChildLinesListed(cmds: Commands, parent: Path, n: string)
    requires parent + [n] in cmds
    ensures Contains(EntryLines(cmds, parent, Children(cmds, parent)), EntryLine(n, cmds[parent + [n]].description))
  {
    var names := Children(cmds, parent);
    var k :| 0 <= k < |names| && names[k] == n;
    EntryLinesList(cmds, parent, names, k);
  }

  // ---------------------------------------------------------------------------
  // help()

  function TopHeader(reg: Registry): string
  {
    reg.programName + (if reg.description != "" then " - " + reg.description else "") + "\n\n"
  }

  /** The usage line: the custom usage when set, else one chosen by whether commands exist. */
  function TopUsage(reg: Registry): string
  {
    "Usage: " + reg.programName
    + (if reg.usage != "" then " " + reg.usage
       else if |reg.commands| == 0 then " [options] [args...]"
       else " <command> [options]")
    + "\n\n"
  }

  function TopCommands(reg: Registry): string
  {
    if |reg.commands| == 0 then ""
    else "Commands:\n" + EntryLines(reg.commands, [], Children(reg.commands, [])) + "\n"
  }

  function TopOptions(reg: Registry): string
  {
    if |reg.globalFlags| == 0 then "" else "Options:\n" + FlagLines(reg.globalFlags)
  }

  /** help(): header, usage, the top-level commands, the global flags. */
  function TopHelp(reg: Registry): string
  {
    TopHeader(reg) + TopUsage(reg) + TopCommands(reg) + TopOptions(reg)
  }

  /** help() opens with the program name. */
  lemma TopHelpOpens(reg: Registry)
    ensures StartsWith(TopHelp(reg), reg.programName)
  {
    var h := TopHeader(reg);
    assert h[..|reg.programName|] == reg.programName;
    StartsWithExtend(h, reg.programName, TopUsage(reg));
    StartsWithExtend(h + TopUsage(reg), reg.programName, TopCommands(reg));
    StartsWithExtend(h + TopUsage(reg) + TopCommands(reg), reg.programName, TopOptions(reg));
  }

  /** help() shows the custom usage when one is set. */
  lemma TopHelpShowsUsage(reg: Registry)
    requires reg.usage != ""
    ensures Contains(TopHelp(reg), "Usage: " + reg.programName + " " + reg.usage)
  {
    var line := "Usage: " + reg.programName + " " + reg.usage;
    ContainsPrefix(TopUsage(reg), line, "\n\n");
    InLaterTopSection(TopHeader(reg), TopUsage(reg), TopCommands(reg), TopOptions(reg), line);
  }

  /** help() lists every top-level command and every global flag. */
  lemma TopHelpLists(reg: Registry)
    ensures forall n | [n] in reg.commands :: Contains(TopHelp(reg), EntryLine(n, reg.commands[[n]].description))
    ensures forall k | 0 <= k < |reg.globalFlags| :: Contains(TopHelp(reg), FlagLine(reg.globalFlags[k]))
  {
    var h, u, c, o := TopHeader(reg), TopUsage(reg), TopCommands(reg), TopOptions(reg);
    forall n | [n] in reg.commands
      ensures Contains(TopHelp(reg), EntryLine(n, reg.commands[[n]].description))
    {
      var line := EntryLine(n, reg.commands[[n]].description);
      assert [] + [n] == [n];
      ChildLinesListed(reg.commands, [], n);
      var lines := EntryLines(reg.commands, [], Children(reg.commands, []));
      ContainsRight("Commands:\n", lines, line);
      ContainsLeft("Commands:\n" + lines, "\n", line);
      InLaterTopSection(h, u, c, o, line);
    }
    forall k | 0 <= k < |reg.globalFlags|
      ensures Contains(TopHelp(reg), FlagLine(reg.globalFlags[k]))
    {
      FlagLinesList(reg.globalFlags, k);
      ContainsRight("Options:\n", FlagLines(reg.globalFlags), FlagLine(reg.globalFlags[k]));
      InLaterTopSection(h, u, c, o, FlagLine(reg.globalFlags[k]));
    }
  }

  /** Text found in one of the last three sections of help() is found in the whole screen. */
  lemma InLaterTopSection(h: string, u: string, c: string, o: string, x: string)
    requires Contains(u, x) || Contains(c, x) || Contains(o, x)
    ensures Contains(h + u + c + o, x)
  {
    if Contains(u, x) {
      ContainsRight(h, u, x);
      ContainsLeft(h + u, c, x);
      ContainsLeft(h + u + c, o, x);
    } else if Contains(c, x) {
      ContainsRight(h + u, c, x);
      ContainsLeft(h + u + c, o, x);
    } else {
      ContainsRight(h + u + c, o, x);
    }
  }

  // ---------------------------------------------------------------------------
  // help(path)

  /** The program name followed by each path segment after a space, as in "git remote add". */
  function CommandString(prefix: string, path: Path): string
    decreases |path|
  {
    if |path| == 0 then prefix else CommandString(prefix + " " + path[0], path[1..])
  }

  /** The command string is the program name, a space, and the path joined by spaces. */
  lemma {:induction false} CommandStringJoin(prefix: string, path: Path)
    requires |path| > 0
    ensures CommandString(prefix, path) == prefix + " " + Join(path, " ")
    decreases |path|
  {
    if |path| > 1 {
      CommandStringJoin(prefix + " " + path[0], path[1..]);
      assert Join(path, " ") == path[0] + " " + Join(path[1..], " ");
    }
  }

  function CommandHeader(reg: Registry, path: Path, cmd: CommandDef): string
  {
    CommandString(reg.programName, path) + (if cmd.description != "" then " - " + cmd.description else "") + "\n\n"
  }

  function CommandUsage(reg: Registry, path: Path): string
  {
    "Usage: " + CommandString(reg.programName, path)
    + (if ChildNames(reg.commands, path) != {} then " <subcommand>" else "")
    + " [options]\n\n"
  }

  function SubcommandSection(reg: Registry, path: Path): string
  {
    if ChildNames(reg.commands, path) == {} then ""
    else "Subcommands:\n" + EntryLines(reg.commands, path, Children(reg.commands, path)) + "\n"
  }

  function CommandOptions(cmd: CommandDef): string
  {
    if |cmd.flags| == 0 then "" else "Command Options:\n" + FlagLines(cmd.flags) + "\n"
  }

  function GlobalOptions(reg: Registry): string
  {
    if |reg.globalFlags| == 0 then "" else "Global Options:\n" + FlagLines(reg.globalFlags)
  }

  /** help(path): a line for an unknown path, otherwise the command's own screen. */
  function CommandHelp(reg: Registry, path: Path): string
  {
    match FindCommand(reg.commands, path)
    case None => "Unknown command: " + Join(path, " ") + "\n"
    case Some(cmd) =>
      CommandHeader(reg, path, cmd) + CommandUsage(reg, path) + SubcommandSection(reg, path)
      + CommandOptions(cmd) + GlobalOptions(reg)
  }

  /** help(name): the screen of a top-level command. */
  function NamedCommandHelp(reg: Registry, name: string): (s: string)
    ensures [name] !in reg.commands ==> s == "Unknown command: " + name + "\n"
  {
    assert [name][..1] == [name];
    CommandHelp(reg, [name])
  }

  /** For a path that is not registered, help(path) is one line naming it. */
  lemma CommandHelpUnknown(reg: Registry, path: Path)
    requires WellFormed(reg.commands) && path !in reg.commands
    ensures CommandHelp(reg, path) == "Unknown command: " + Join(path, " ") + "\n"
  {
    FindCommandIsLookup(reg.commands, path);
  }

  /** A registered command's screen is its five sections one after another. */
  lemma CommandHelpSections(reg: Registry, path: Path)
    requires WellFormed(reg.commands) && path in reg.commands
    ensures CommandHelp(reg, path) ==
      CommandHeader(reg, path, reg.commands[path]) + CommandUsage(reg, path) + SubcommandSection(reg, path)
      + CommandOptions(reg.commands[path]) + GlobalOptions(reg)
  {
    FindCommandIsLookup(reg.commands, path);
  }

  /** For a registered command, help(path) opens with the program name and the path. */
  lemma CommandHelpOpens(reg: Registry, path: Path)
    requires WellFormed(reg.commands) && path in reg.commands
    ensures StartsWith(CommandHelp(reg, path), reg.programName + " " + Join(path, " "))
  {
    CommandHelpSections(reg, path);
    var cmd := reg.commands[path];
    var cs := reg.programName + " " + Join(path, " ");
    var h, u, s, c, g := CommandHeader(reg, path, cmd), CommandUsage(reg, path), SubcommandSection(reg, path), CommandOptions(cmd), GlobalOptions(reg);
    CommandStringJoin(reg.programName, path);
    assert h[..|cs|] == cs;
    StartsWithExtend(h, cs, u);
    StartsWithExtend(h + u, cs, s);
    StartsWithExtend(h + u + s, cs, c);
    StartsWithExtend(h + u + s + c, cs, g);
  }

  /** A command with subcommands has a "Subcommands:" heading on its screen. */
  lemma CommandHelpHeadsSubcommands(reg: Registry, path: Path)
    requires WellFormed(reg.commands) && path in reg.commands
    requires ChildNames(reg.commands, path) != {}
    ensures Contains(CommandHelp(reg, path), "Subcommands:\n")
  {
    CommandHelpSections(reg, path);
    var cmd := reg.commands[path];
    var s := SubcommandSection(reg, path);
    var lines := EntryLines(reg.commands, path, Children(reg.commands, path));
    ContainsPrefix(s, "Subcommands:\n", lines + "\n");
    InLaterSection(CommandHeader(reg, path, cmd), CommandUsage(reg, path), s, CommandOptions(cmd), GlobalOptions(reg), "Subcommands:\n");
  }

  /**
   * For a registered command, help(path) lists every subcommand, every flag
   * of the command and every global flag.
   */
  lemma CommandHelpLists(reg: Registry, path: Path)
    requires WellFormed(reg.commands) && path in reg.commands
    ensures forall n | path + [n] in reg.commands ::
      Contains(CommandHelp(reg, path), EntryLine(n, reg.commands[path + [n]].description))
    ensures forall k | 0 <= k < |reg.commands[path].flags| ::
      Contains(CommandHelp(reg, path), FlagLine(reg.commands[path].flags[k]))
    ensures forall k | 0 <= k < |reg.globalFlags| ::
      Contains(CommandHelp(reg, path), FlagLine(reg.globalFlags[k]))
  {
    CommandHelpSections(reg, path);
    var cmd := reg.commands[path];
    var h, u, s, c, g := CommandHeader(reg, path, cmd), CommandUsage(reg, path), SubcommandSection(reg, path), CommandOptions(cmd), GlobalOptions(reg);
    forall n | path + [n] in reg.commands
      ensures Contains(CommandHelp(reg, path), EntryLine(n, reg.commands[path + [n]].description))
    {
      var line := EntryLine(n, reg.commands[path + [n]].description);
      var lines := EntryLines(reg.commands, path, Children(reg.commands, path));
      ChildLinesListed(reg.commands, path, n);
      ContainsRight("Subcommands:\n", lines, line);
      ContainsLeft("Subcommands:\n" + lines, "\n", line);
      InLaterSection(h, u, s, c, g, line);
    }
    forall k | 0 <= k < |cmd.flags|
      ensures Contains(CommandHelp(reg, path), FlagLine(cmd.flags[k]))
    {
      var line := FlagLine(cmd.flags[k]);
      FlagLinesList(cmd.flags, k);
      ContainsRight("Command Options:\n", FlagLines(cmd.flags), line);
      ContainsLeft("Command Options:\n" + FlagLines(cmd.flags), "\n", line);
      InLaterSection(h, u, s, c, g, line);
    }
    forall k | 0 <= k < |reg.globalFlags|
      ensures Contains(CommandHelp(reg, path), FlagLine(reg.globalFlags[k]))
    {
      FlagLinesList(reg.globalFlags, k);
      ContainsRight("Global Options:\n", FlagLines(reg.globalFlags), FlagLine(reg.globalFlags[k]));
      InLaterSection(h, u, s, c, g, FlagLine(reg.globalFlags[k]));
    }
  }

  /** Text found in one of the last three sections is found in the whole screen. */
  lemma InLaterSection(h: string, u: string, s: string, c: string, g: string, x: string)
    requires Contains(s, x) || Contains(c, x) || Contains(g, x)
    ensures Contains(h + u + s + c + g, x)
  {
    if Contains(s, x) {
      ContainsRight(h + u, s, x);
      ContainsLeft(h + u + s, c, x);
      ContainsLeft(h + u + s + c, g, x);
    } else if Contains(c, x) {
      ContainsRight(h + u + s, c, x);
      ContainsLeft(h + u + s + c, g, x);
    } else {
      ContainsRight(h + u + s + c, g, x);
    }
  }
}
