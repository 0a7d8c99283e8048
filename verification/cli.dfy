/**
 * CliExecutor: the object a program builds its command line with. The
 * registration methods change its fields in place; parse walks the argument
 * list with an index, and each of its loops is proved to compute what the
 * functions of CliParse describe.
 */
module Cli {
  import opened Wrappers
  import opened Strings
  import opened CliTypes
  import opened CliRegistry
  import opened CliParse
  import opened CliDispatch

  class CliExecutor {
    var programName: string
    var description: string
    var usage: string
    var globalFlags: seq<FlagDef>
    var commands: Commands
    var defaultHandler: Option<int>

    /** The command map is the flattening of a tree. */
    predicate Valid()
      reads this
    {
      WellFormed(commands)
    }

    /** The executor's fields as one value. */
    function State(): Registry
      reads this
    {
      Registry(programName, description, usage, globalFlags, commands, defaultHandler)
    }

    /** A new executor has no commands, no handler and only the built-in "-h,--help" flag. */
    constructor (name: string, desc: string)
      ensures Valid()
      ensures State() == Registry(name, desc, "", [HelpFlag()], map[], None)
    {
      programName := name;
      description := desc;
      usage := "";
      globalFlags := [];
      commands := map[];
      defaultHandler := None;
      new;
      AddFlag("-h,--help", Boolean, "Show help message", false);
      NoCommandsWellFormed();
    }

    method SetUsage(text: string)
      modifies this
      ensures State() == old(State()).(usage := text)
    {
      usage := text;
    }

    /** set_handler: the default handler, abstracted as the exit code it returns. */
    method SetHandler(code: int)
      modifies this
      ensures State() == old(State()).(defaultHandler := Some(code))
    {
      defaultHandler := Some(code);
    }

    /** add_flag: a global flag is appended after the ones already registered. */
    method AddFlag(names: string, kind: FlagType, desc: string, required: bool)
      modifies this
      ensures State() == old(State()).(globalFlags := old(globalFlags) + [MakeFlag(names, kind, desc, required)])
    {
      globalFlags := globalFlags + [MakeFlag(names, kind, desc, required)];
    }

    /** add_command: the top-level node is (re)created without flags or subcommands. */
    method AddCommand(name: string, desc: string, callback: Option<int>)
      requires Valid()
      modifies this
      ensures Valid()
      ensures State() == old(State()).(commands := CommandAdded(old(commands), name, desc, callback))
    {
      CommandAddedWellFormed(commands, name, desc, callback);
      var kept := map p | p in commands && !(|p| > 1 && p[0] == name) :: commands[p];
      commands := kept[[name] := CommandDef(name, desc, callback, [])];
    }

    /**
     * add_nested_command: the dotted path is split; nothing happens when it has
     * no segments. Otherwise the walk from the top creates each missing node
     * as a router and the final node gets the description and the callback.
     */
    method AddNestedCommand(path: string, desc: string, callback: Option<int>)
      requires Valid()
      modifies this
      ensures Valid()
      ensures var parts := SplitPath(path);
        |parts| == 0 ==> State() == old(State())
      ensures var parts := SplitPath(path);
        |parts| > 0 ==> State() == old(State()).(commands := NestedAdded(old(commands), parts, desc, callback))
    {
      var parts := SplitPath(path);
      if |parts| == 0 {
        return;
      }
      NestedAddedWellFormed(commands, parts, desc, callback);
      CreateRouters(parts);
      NestedAddedAfterWalk(old(commands), parts, desc, callback);
      commands := commands[parts := commands[parts].(description := desc, callback := callback)];
    }

    /** The walk of add_nested_command: each missing node on the path is created as a router. */
    method CreateRouters(parts: Path)
      modifies this`commands
      ensures commands == WithRouters(old(commands), parts, |parts|)
    {
      WithRoutersNone(commands, parts);
      var i := 0;
      while i < |parts|
        invariant 0 <= i <= |parts|
        invariant commands == WithRouters(old(commands), parts, i)
      {
        WithRoutersStep(old(commands), parts, i);
        var node := parts[..i + 1];
        if node !in commands {
          commands := commands[node := Router(parts[i])];
        }
        i := i + 1;
      }
    }

    /** add_command_flag: appends to the top-level command `name`; an unknown name changes nothing. */
    method AddCommandFlag(name: string, names: string, kind: FlagType, desc: string, required: bool)
      requires Valid()
      modifies this
      ensures Valid()
      ensures State() == old(State()).(commands := FlagAdded(old(commands), [name], MakeFlag(names, kind, desc, required)))
    {
      FlagAddedWellFormed(commands, [name], MakeFlag(names, kind, desc, required));
      FindCommandIsLookup(commands, [name]);
      if [name] in commands {
        var node := commands[[name]];
        commands := commands[[name] := node.(flags := node.flags + [MakeFlag(names, kind, desc, required)])];
      }
    }

    /** add_nested_command_flag: appends to the node at the dotted path; an unknown path changes nothing. */
    method AddNestedCommandFlag(path: string, names: string, kind: FlagType, desc: string, required: bool)
      requires Valid()
      modifies this
      ensures Valid()
      ensures State() == old(State()).(commands := FlagAdded(old(commands), SplitPath(path), MakeFlag(names, kind, desc, required)))
    {
      var parts := SplitPath(path);
      var flag := MakeFlag(names, kind, desc, required);
      FlagAddedWellFormed(commands, parts, flag);
      var found := FindCommandNode(parts);
      FlagAddedFound(commands, parts, flag, found);
      if found.Some? {
        commands := commands[parts := found.value.(flags := found.value.flags + [flag])];
      }
    }

    /** find_command: the top-level lookup followed by one subcommand lookup per further segment. */
    method FindCommandNode(path: Path) returns (r: Option<CommandDef>)
      ensures r == FindCommand(commands, path)
    {
      if |path| == 0 || path[..1] !in commands {
        return None;
      }
      var i := 1;
      while i < |path|
        invariant 1 <= i <= |path|
        invariant forall n | 1 <= n <= i :: path[..n] in commands
        invariant Walk(commands, path, i) == FindCommand(commands, path)
      {
        if path[..i + 1] !in commands {
          return None;
        }
        i := i + 1;
      }
      assert path[..i] == path;
      r := Some(commands[path]);
    }

    /** find_flag: the command flags in scope first, then the global flags, each in order. */
    method FindFlagDef(name: string, commandFlags: seq<FlagDef>) returns (r: Option<FlagDef>)
      ensures r == FindFlag(globalFlags, commandFlags, name)
    {
      var k := FirstMatchIn(commandFlags, name);
      if k.Some? {
        return Some(commandFlags[k.value]);
      }
      k := FirstMatchIn(globalFlags, name);
      if k.Some? {
        return Some(globalFlags[k.value]);
      }
      return None;
    }

    /** parse(vector): the command path, then the scan of the remaining tokens, then the required-flag check. */
    method Parse(args: seq<string>) returns (r: ParseResult)
      ensures r == ParseSpec(State(), args)
    {
      r := EmptyResult();
      var commandless := defaultHandler.Some? && |commands| == 0;
      if |args| == 0 {
        if !commandless {
          r := r.(success := false, errorMessage := "No command specified");
        }
        return;
      }
      var path: Path := [];
      var i: nat := 0;
      var commandFlags: seq<FlagDef> := [];
      if !commandless && !IsDashed(args[0]) {
        if [args[0]] in commands {
          path, i, commandFlags := DescendPath(args);
        } else if |commands| > 0 {
          r := r.(success := false, errorMessage := "Unknown command: " + args[0]);
          return;
        }
      }
      assert (path, i) == ResolvePath(State(), args);
      if |path| > 0 {
        r := r.(command := path[|path| - 1], commandPath := path);
      }
      assert r == ScanStart(path);
      r := ScanTokens(args, i, commandFlags, r);
      r := CheckRequiredFlags(r, commandFlags);
    }

    /** The subcommand walk of parse, from the registered top-level command args[0]. */
    method DescendPath(args: seq<string>) returns (path: Path, i: nat, commandFlags: seq<FlagDef>)
      requires StartsWithCommand(State(), args)
      ensures (path, i) == ResolvePath(State(), args)
      ensures Reachable(commands, path) && commandFlags == FlagsAlong(commands, path)
    {
      path := [args[0]];
      assert Reachable(commands, path) by { assert path[..1] == path; }
      commandFlags := commands[path].flags;
      assert FlagsAlong(commands, path) == FlagsAlong(commands, []) + commands[path].flags by {
        assert path[..0] == [];
      }
      i := 1;
      while i < |args| && !IsDashed(args[i]) && path + [args[i]] in commands
        invariant 1 <= i <= |args|
        invariant Reachable(commands, path)
        invariant Descend(commands, args, path, i) == ResolvePath(State(), args)
        invariant commandFlags == FlagsAlong(commands, path)
        decreases |args| - i
      {
        FlagsAlongExtend(commands, path, args[i]);
        path := path + [args[i]];
        commandFlags := commandFlags + commands[path].flags;
        i := i + 1;
      }
    }

    /**
     * The token loop of parse, from index i0 on; it stops at the first
     * unknown flag.
     */
    method ScanTokens(args: seq<string>, i0: nat, commandFlags: seq<FlagDef>, start: ParseResult) returns (r: ParseResult)
      requires i0 <= |args| && start.success
      ensures r == Scan(globalFlags, commandFlags, args[i0..], start)
    {
      r := start;
      var i := i0;
      while i < |args|
        invariant i0 <= i <= |args| && r.success
        invariant Scan(globalFlags, commandFlags, args[i..], r) == Scan(globalFlags, commandFlags, args[i0..], start)
        decreases |args| - i
      {
        var next, j := ScanToken(args, i, commandFlags, r);
        if !next.success {
          return next;
        }
        r, i := next, j;
      }
    }

    /**
     * One turn of the token loop at index i: a flag token stores its value, a
     * positional token is appended; j is where the next turn starts.
     */
    method ScanToken(args: seq<string>, i: nat, commandFlags: seq<FlagDef>, acc: ParseResult) returns (next: ParseResult, j: nat)
      requires i < |args| && acc.success
      ensures i < j <= |args|
      ensures next.success ==> Scan(globalFlags, commandFlags, args[i..], acc) == Scan(globalFlags, commandFlags, args[j..], next)
      ensures !next.success ==> Scan(globalFlags, commandFlags, args[i..], acc) == next
    {
      var arg := args[i];
      if StartsWith(arg, "--") {
        next, j := ScanLongToken(args, i, commandFlags, acc);
      } else if StartsWith(arg, "-") && |arg| > 1 {
        next, j := ScanShortToken(args, i, commandFlags, acc);
      } else {
        var toks := args[i..];
        assert toks[0] == arg && toks[1..] == args[i + 1..];
        next, j := acc.(positionalArgs := acc.positionalArgs + [arg]), i + 1;
      }
    }

    /** A "-x" token: looked up as it is written. */
    method ScanShortToken(args: seq<string>, i: nat, commandFlags: seq<FlagDef>, acc: ParseResult) returns (next: ParseResult, j: nat)
      requires i < |args| && acc.success && !StartsWith(args[i], "--") && StartsWith(args[i], "-") && |args[i]| > 1
      ensures i < j <= |args|
      ensures next.success ==> Scan(globalFlags, commandFlags, args[i..], acc) == Scan(globalFlags, commandFlags, args[j..], next)
      ensures !next.success ==> Scan(globalFlags, commandFlags, args[i..], acc) == next
    {
      var arg := args[i];
      var toks := args[i..];
      assert toks[0] == arg && toks[1..] == args[i + 1..];
      var found := FindFlagDef(arg, commandFlags);
      if found.None? {
        return UnknownFlag(acc, arg), i + 1;
      }
      var f := found.value;
      if f.kind == Boolean {
        next, j := Store(acc, f, BoolValue(true)), i + 1;
      } else {
        j := GreedyCollect(args, i + 1);
        GreedyTokens(args, i, j);
        next := Store(acc, f, ArgsValue(args[i + 1..j]));
      }
    }

    /** A "--name[=value]" token: the name is looked up, the value (if any) follows the first '='. */
    method ScanLongToken(args: seq<string>, i: nat, commandFlags: seq<FlagDef>, acc: ParseResult) returns (next: ParseResult, j: nat)
      requires i < |args| && acc.success && StartsWith(args[i], "--")
      ensures i < j <= |args|
      ensures next.success ==> Scan(globalFlags, commandFlags, args[i..], acc) == Scan(globalFlags, commandFlags, args[j..], next)
      ensures !next.success ==> Scan(globalFlags, commandFlags, args[i..], acc) == next
    {
      var toks := args[i..];
      assert toks[0] == args[i] && toks[1..] == args[i + 1..];
      var (name, value) := LongFlagParts(args[i]);
      var found := FindFlagDef(name, commandFlags);
      if found.None? {
        return UnknownFlag(acc, name), i + 1;
      }
      var f := found.value;
      if f.kind == Boolean {
        next, j := Store(acc, f, BoolValue(true)), i + 1;
      } else if value != "" {
        next, j := Store(acc, f, ArgsValue(SplitNonEmpty(value, ','))), i + 1;
      } else {
        j := GreedyCollect(args, i + 1);
        GreedyTokens(args, i, j);
        next := Store(acc, f, ArgsValue(args[i + 1..j]));
      }
    }

    /** The required-flag check of parse: the global flags first, then the command flags in scope. */
    method CheckRequiredFlags(scanned: ParseResult, commandFlags: seq<FlagDef>) returns (r: ParseResult)
      ensures r == CheckRequired(scanned, globalFlags, commandFlags)
    {
      r := scanned;
      if !r.success {
        return;
      }
      var k := FirstMissingIn(globalFlags, r.flags);
      if k.Some? {
        return r.(success := false, errorMessage := "Missing required flag: " + CanonicalName(globalFlags[k.value]));
      }
      k := FirstMissingIn(commandFlags, r.flags);
      if k.Some? {
        return r.(success := false, errorMessage := "Missing required flag: " + CanonicalName(commandFlags[k.value]));
      }
    }

    /**
     * execute, on the executor's current registry. The method only hands the
     * registry to CliDispatch.Execute, whose contract states what each
     * parse result leads to.
     */
    method Execute(r: ParseResult) returns (o: Outcome)
      ensures o == CliDispatch.Execute(State(), r)
    {
      o := CliDispatch.Execute(State(), r);
    }

    /** run: parse the arguments after the program name, report a failure or execute the result. */
    method Run(argv: seq<string>) returns (o: Outcome)
      ensures o == CliDispatch.Run(State(), argv)
    {
      var r := Parse(ArgvToArgs(argv));
      if !r.success {
        return Outcome(-1, "", ErrorReport(r.errorMessage), false);
      }
      o := Execute(r);
    }
  }

  /** The loop of find_flag over one list: the index of the first flag answering to `name`. */
  method FirstMatchIn(flags: seq<FlagDef>, name: string) returns (r: Option<nat>)
    ensures r == FirstMatch(flags, name)
  {
    var k := 0;
    while k < |flags|
      invariant 0 <= k <= |flags|
      invariant forall j | 0 <= j < k :: !Matches(flags[j], name)
    {
      if flags[k].shortName == name || flags[k].longName == name {
        FirstMatchAt(flags, name, k);
        return Some(k);
      }
      k := k + 1;
    }
    return None;
  }

  /** The loop of parse's check_required over one list: the index of the first missing required flag. */
  method FirstMissingIn(flags: seq<FlagDef>, present: map<string, FlagValue>) returns (r: Option<nat>)
    ensures r == FirstMissing(flags, present)
  {
    var k := 0;
    while k < |flags|
      invariant 0 <= k <= |flags|
      invariant forall j | 0 <= j < k :: !Missing(flags[j], present)
    {
      if flags[k].required && CanonicalName(flags[k]) !in present {
        FirstMissingAt(flags, present, k);
        return Some(k);
      }
      k := k + 1;
    }
    assert RequiredPresent(flags, present);
    return None;
  }

  /** The greedy value loop of parse: the index of the first token from `j` on that starts with "-". */
  method GreedyCollect(args: seq<string>, j: nat) returns (k: nat)
    requires j <= |args|
    ensures j <= k <= |args|
    ensures forall m | j <= m < k :: !IsDashed(args[m])
    ensures k == |args| || IsDashed(args[k])
  {
    k := j;
    while k < |args| && !IsDashed(args[k])
      invariant j <= k <= |args|
      invariant forall m | j <= m < k :: !IsDashed(args[m])
    {
      k := k + 1;
    }
  }

  lemma FirstMatchAt(flags: seq<FlagDef>, name: string, k: nat)
    requires k < |flags| && Matches(flags[k], name)
    requires forall j | 0 <= j < k :: !Matches(flags[j], name)
    ensures FirstMatch(flags, name) == Some(k)
  {
    var r := FirstMatch(flags, name);
    assert r.Some?;
  }

  /** The greedy loop from index i + 1 stops where GreedyEnd stops on the suffix args[i..]. */
  lemma GreedyTokens(args: seq<string>, i: nat, k: nat)
    requires i < k <= |args|
    requires forall m | i + 1 <= m < k :: !IsDashed(args[m])
    requires k == |args| || IsDashed(args[k])
    ensures GreedyEnd(args[i..], 1) == k - i
    ensures args[i..][1..k - i] == args[i + 1..k]
    ensures args[i..][k - i..] == args[k..]
  {
    var toks := args[i..];
    assert forall m | 1 <= m < k - i :: toks[m] == args[i + m];
    GreedyEndIs(toks, 1, k - i);
  }
}
