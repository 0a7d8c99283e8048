/**
 * What CliExecutor::parse(vector) computes, stated as functions: command-path
 * resolution, the left-to-right token scan into flags and positional
 * arguments, and the required-flag check. The executor's Parse method
 * (module Cli) is proved to return exactly ParseSpec.
 */
module CliParse {
  import opened Wrappers
  import opened Strings
  import opened CliTypes
  import opened CliRegistry

  /** A token that starts with "-": it stops command-path resolution and greedy value collection. */
  predicate IsDashed(s: string)
  {
    StartsWith(s, "-")
  }

  // ---------------------------------------------------------------------------
  // find_flag

  /** A flag answers to either of its names. */
  predicate Matches(f: FlagDef, name: string)
  {
    f.shortName == name || f.longName == name
  }

  /** The index of the first flag in `flags` that answers to `name`. */
  function FirstMatch(flags: seq<FlagDef>, name: string): (r: Option<nat>)
    ensures r.Some? ==> r.value < |flags| && Matches(flags[r.value], name)
    ensures r.Some? ==> forall j | 0 <= j < r.value :: !Matches(flags[j], name)
    ensures r.None? ==> forall j | 0 <= j < |flags| :: !Matches(flags[j], name)
  {
    if |flags| == 0 then None
    else if Matches(flags[0], name) then Some(0)
    else match FirstMatch(flags[1..], name)
      case None => None
      case Some(k) => Some(k + 1)
  }

  /**
   * find_flag: the command flags in scope are searched before the global
   * flags, each in registration order.
   */
  function FindFlag(globals: seq<FlagDef>, cmdFlags: seq<FlagDef>, name: string): (r: Option<FlagDef>)
    ensures r.Some? ==> Matches(r.value, name) && (r.value in cmdFlags || r.value in globals)
    ensures r.None? <==> (forall f | f in cmdFlags :: !Matches(f, name)) && (forall f | f in globals :: !Matches(f, name))
    ensures (exists f | f in cmdFlags :: Matches(f, name)) ==> r.Some? && r.value in cmdFlags
  {
    match FirstMatch(cmdFlags, name)
    case Some(k) => Some(cmdFlags[k])
    case None =>
      match FirstMatch(globals, name)
      case Some(k) => Some(globals[k])
      case None => None
  }

  // ---------------------------------------------------------------------------
  // Command-path resolution

  /**
   * Descends from the node at `path` while the next token does not start with
   * "-" and names a subcommand of the node reached so far.
   */
  function Descend(cmds: Commands, args: seq<string>, path: Path, i: nat): (r: (Path, nat))
    requires Reachable(cmds, path) && i <= |args|
    ensures Reachable(cmds, r.0) && i <= r.1 <= |args|
    ensures r.0 == path + args[i..r.1]
    ensures forall k | i <= k < r.1 :: !IsDashed(args[k])
    ensures r.1 == |args| || IsDashed(args[r.1]) || r.0 + [args[r.1]] !in cmds
    decreases |args| - i
  {
    if i < |args| && !IsDashed(args[i]) && path + [args[i]] in cmds then
      ReachableExtend(cmds, path, args[i]);
      var r := Descend(cmds, args, path + [args[i]], i + 1);
      assert path + args[i..r.1] == path + [args[i]] + args[i + 1..r.1];
      r
    else
      (path, i)
  }

  /** A long token also starts with "-". */
  lemma LongIsDashed(s: string)
    ensures StartsWith(s, "--") ==> IsDashed(s)
  {
    if StartsWith(s, "--") {
      assert s[..1] == s[..2][..1];
    }
  }

  /** Command-less mode: a default handler and no commands at all. */
  predicate Commandless(reg: Registry)
  {
    reg.defaultHandler.Some? && |reg.commands| == 0
  }

  /** The first token is taken as a command (path resolution runs and it is registered). */
  predicate StartsWithCommand(reg: Registry, args: seq<string>)
  {
    |args| > 0 && !Commandless(reg) && !IsDashed(args[0]) && [args[0]] in reg.commands
  }

  /** The first token is rejected as an unknown command. */
  predicate UnknownFirstCommand(reg: Registry, args: seq<string>)
  {
    |args| > 0 && !Commandless(reg) && !IsDashed(args[0]) && [args[0]] !in reg.commands && |reg.commands| > 0
  }

  /** The resolved command path and the index of the first token left for the scan. */
  function ResolvePath(reg: Registry, args: seq<string>): (r: (Path, nat))
    ensures Reachable(reg.commands, r.0) && r.1 <= |args| && r.0 == args[..r.1]
    ensures StartsWithCommand(reg, args) <==> |r.0| > 0
  {
    if StartsWithCommand(reg, args) then
      assert [args[0]] == args[..1];
      assert Reachable(reg.commands, [args[0]]) by { assert [args[0]][..1] == [args[0]]; }
      Descend(reg.commands, args, [args[0]], 1)
    else
      ([], 0)
  }

  lemma {:induction false} DescendAlong(cmds: Commands, args: seq<string>, n: nat, i: nat)
    requires 1 <= i <= n <= |args| && Reachable(cmds, args[..n])
    requires forall k | i <= k < n :: !IsDashed(args[k])
    requires n == |args| || IsDashed(args[n])
    ensures Reachable(cmds, args[..i])
    ensures Descend(cmds, args, args[..i], i) == (args[..n], n)
    decreases n - i
  {
    forall m | 1 <= m <= i
      ensures args[..i][..m] in cmds
    {
      assert args[..i][..m] == args[..n][..m];
    }
    if i < n {
      assert args[..i] + [args[i]] == args[..i + 1];
      assert args[..i + 1] == args[..n][..i + 1];
      DescendAlong(cmds, args, n, i + 1);
    }
  }

  /**
   * Path resolution takes a registered path whose segments do not start with
   * "-" whole, when what follows it is nothing or starts with "-".
   */
  lemma ResolveRegisteredPath(reg: Registry, path: Path, rest: seq<string>)
    requires |path| > 0 && Reachable(reg.commands, path)
    requires forall k | 0 <= k < |path| :: !IsDashed(path[k])
    requires |rest| > 0 ==> IsDashed(rest[0])
    ensures StartsWithCommand(reg, path + rest)
    ensures ResolvePath(reg, path + rest) == (path, |path|)
  {
    var args := path + rest;
    assert args[..|path|] == path;
    assert [args[0]] == path[..1];
    assert [args[0]] in reg.commands.Keys;
    forall k | 1 <= k < |path|
      ensures !IsDashed(args[k])
    {
      assert args[k] == path[k];
    }
    if |rest| > 0 {
      assert args[|path|] == rest[0];
    }
    DescendAlong(reg.commands, args, |path|, 1);
    assert args[..1] == [args[0]];
  }

  // ---------------------------------------------------------------------------
  // The token scan

  /** A long token split at its first '=' into the flag name and the inline value. */
  function LongFlagParts(arg: string): (r: (string, string))
    ensures '=' !in r.0
    ensures '=' in arg ==> arg == r.0 + "=" + r.1
    ensures '=' !in arg ==> r == (arg, "")
  {
    match IndexOf(arg, '=')
    case Some(k) =>
      assert arg == arg[..k] + "=" + arg[k + 1..];
      (arg[..k], arg[k + 1..])
    case None => (arg, "")
  }

  /** Splitting "name=value" at the first '=' gives back the name and the value. */
  lemma LongFlagPartsOf(name: string, value: string)
    requires '=' !in name
    ensures LongFlagParts(name + "=" + value) == (name, value)
  {
    var arg := name + "=" + value;
    assert arg[..|name|] == name;
    IndexOfAt(arg, '=', |name|);
    assert arg[|name| + 1..] == value;
  }

  /** Greedy value collection from index j: up to the next token starting with "-" or the end. */
  function GreedyEnd(toks: seq<string>, j: nat): (k: nat)
    requires j <= |toks|
    ensures j <= k <= |toks|
    ensures forall m | j <= m < k :: !IsDashed(toks[m])
    ensures k == |toks| || IsDashed(toks[k])
    decreases |toks| - j
  {
    if j == |toks| || IsDashed(toks[j]) then j else GreedyEnd(toks, j + 1)
  }

  lemma {:induction false} GreedyEndIs(toks: seq<string>, j: nat, k: nat)
    requires j <= k <= |toks|
    requires forall m | j <= m < k :: !IsDashed(toks[m])
    requires k == |toks| || IsDashed(toks[k])
    ensures GreedyEnd(toks, j) == k
    decreases k - j
  {
    if j < k {
      GreedyEndIs(toks, j + 1, k);
    }
  }

  /** The flag's canonical key now holds `v`. */
  function Store(acc: ParseResult, f: FlagDef, v: FlagValue): ParseResult
  {
    acc.(flags := acc.flags[CanonicalName(f) := v])
  }

  function UnknownFlag(acc: ParseResult, name: string): ParseResult
  {
    acc.(success := false, errorMessage := "Unknown flag: " + name)
  }

  /**
   * The scan of the remaining tokens `toks`, given the command flags in
   * scope. "--name[=value]" and "-x" (longer than one character) are flags;
   * every other token, a lone "-" included, is positional. The scan stops at
   * the first unknown flag, keeping what it had stored so far.
   */
  function Scan(globals: seq<FlagDef>, cmdFlags: seq<FlagDef>, toks: seq<string>, acc: ParseResult): (r: ParseResult)
    requires acc.success
    ensures r.commandPath == acc.commandPath && r.command == acc.command
    ensures |acc.positionalArgs| <= |r.positionalArgs|
    ensures r.positionalArgs[..|acc.positionalArgs|] == acc.positionalArgs
    ensures acc.flags.Keys <= r.flags.Keys
    decreases |toks|
  {
    if |toks| == 0 then acc
    else
      var arg := toks[0];
      if StartsWith(arg, "--") then
        var (name, value) := LongFlagParts(arg);
        match FindFlag(globals, cmdFlags, name)
        case None => UnknownFlag(acc, name)
        case Some(f) =>
          if f.kind == Boolean then
            Scan(globals, cmdFlags, toks[1..], Store(acc, f, BoolValue(true)))
          else if value != "" then
            Scan(globals, cmdFlags, toks[1..], Store(acc, f, ArgsValue(SplitNonEmpty(value, ','))))
          else
            var j := GreedyEnd(toks, 1);
            Scan(globals, cmdFlags, toks[j..], Store(acc, f, ArgsValue(toks[1..j])))
      else if StartsWith(arg, "-") && |arg| > 1 then
        match FindFlag(globals, cmdFlags, arg)
        case None => UnknownFlag(acc, arg)
        case Some(f) =>
          if f.kind == Boolean then
            Scan(globals, cmdFlags, toks[1..], Store(acc, f, BoolValue(true)))
          else
            var j := GreedyEnd(toks, 1);
            Scan(globals, cmdFlags, toks[j..], Store(acc, f, ArgsValue(toks[1..j])))
      else
        Scan(globals, cmdFlags, toks[1..], acc.(positionalArgs := acc.positionalArgs + [arg]))
  }

  /** Some flag in scope has `key` as its canonical name. */
  predicate KeyOfFlagInScope(globals: seq<FlagDef>, cmdFlags: seq<FlagDef>, key: string)
  {
    exists f | f in cmdFlags + globals :: CanonicalName(f) == key
  }

  /**
   * Every key the scan adds is the canonical name of a flag in scope (so
   * "-v" and "--verbose" land in one entry), and a failed scan reports
   * "Unknown flag: <name>".
   */
  lemma {:induction false} ScanOutcome(globals: seq<FlagDef>, cmdFlags: seq<FlagDef>, toks: seq<string>, acc: ParseResult)
    requires acc.success
    ensures var r := Scan(globals, cmdFlags, toks, acc);
      forall key | key in r.flags && key !in acc.flags :: KeyOfFlagInScope(globals, cmdFlags, key)
    ensures var r := Scan(globals, cmdFlags, toks, acc);
      !r.success ==> exists name :: r.errorMessage == "Unknown flag: " + name
    decreases |toks|
  {
    if |toks| > 0 {
      var arg := toks[0];
      var name := if StartsWith(arg, "--") then LongFlagParts(arg).0 else arg;
      if StartsWith(arg, "--") || (StartsWith(arg, "-") && |arg| > 1) {
        match FindFlag(globals, cmdFlags, name)
        case None =>
        case Some(f) =>
          assert f in cmdFlags + globals;
          var value := if StartsWith(arg, "--") then LongFlagParts(arg).1 else "";
          var j := GreedyEnd(toks, 1);
          var v := if f.kind == Boolean then BoolValue(true)
            else if value != "" then ArgsValue(SplitNonEmpty(value, ','))
            else ArgsValue(toks[1..j]);
          var rest := if f.kind == Boolean || value != "" then toks[1..] else toks[j..];
          assert Scan(globals, cmdFlags, toks, acc) == Scan(globals, cmdFlags, rest, Store(acc, f, v));
          ScanOutcome(globals, cmdFlags, rest, Store(acc, f, v));
      } else {
        ScanOutcome(globals, cmdFlags, toks[1..], acc.(positionalArgs := acc.positionalArgs + [arg]));
      }
    }
  }

  // ---------------------------------------------------------------------------
  // Required flags

  predicate Missing(f: FlagDef, present: map<string, FlagValue>)
  {
    f.required && CanonicalName(f) !in present
  }

  /** Every required flag of `flags` was given. */
  predicate RequiredPresent(flags: seq<FlagDef>, present: map<string, FlagValue>)
  {
    forall k | 0 <= k < |flags| :: !Missing(flags[k], present)
  }

  /** The index of the first required flag that was not given. */
  function FirstMissing(flags: seq<FlagDef>, present: map<string, FlagValue>): (r: Option<nat>)
    ensures r.Some? ==> r.value < |flags| && Missing(flags[r.value], present)
    ensures r.Some? ==> forall j | 0 <= j < r.value :: !Missing(flags[j], present)
    ensures r.None? <==> RequiredPresent(flags, present)
  {
    if |flags| == 0 then None
    else if Missing(flags[0], present) then Some(0)
    else match FirstMissing(flags[1..], present)
      case None => None
      case Some(k) => Some(k + 1)
  }

  /** A required flag that is missing, with none missing before it, is the one found. */
  lemma FirstMissingAt(flags: seq<FlagDef>, present: map<string, FlagValue>, k: nat)
    requires k < |flags| && Missing(flags[k], present)
    requires forall j | 0 <= j < k :: !Missing(flags[j], present)
    ensures FirstMissing(flags, present) == Some(k)
  {
  }

  /** Checking one list and then another finds the first missing flag of the two lists joined. */
  lemma FirstMissingConcat(a: seq<FlagDef>, b: seq<FlagDef>, present: map<string, FlagValue>)
    ensures FirstMissing(a + b, present) ==
      match FirstMissing(a, present)
      case Some(k) => Some(k)
      case None =>
        match FirstMissing(b, present)
        case Some(k) => Some(|a| + k)
        case None => None
  {
    if FirstMissing(a, present).Some? {
      FirstMissingInFront(a, b, present);
    } else if FirstMissing(b, present).Some? {
      FirstMissingBehind(a, b, present);
    } else {
      NoneMissingInEither(a, b, present);
    }
  }

  lemma FirstMissingInFront(a: seq<FlagDef>, b: seq<FlagDef>, present: map<string, FlagValue>)
    requires FirstMissing(a, present).Some?
    ensures FirstMissing(a + b, present) == FirstMissing(a, present)
  {
    var k := FirstMissing(a, present).value;
    forall j | 0 <= j <= k
      ensures (a + b)[j] == a[j]
    {
    }
    FirstMissingAt(a + b, present, k);
  }

  lemma FirstMissingBehind(a: seq<FlagDef>, b: seq<FlagDef>, present: map<string, FlagValue>)
    requires FirstMissing(a, present).None? && FirstMissing(b, present).Some?
    ensures FirstMissing(a + b, present) == Some(|a| + FirstMissing(b, present).value)
  {
    var k := FirstMissing(b, present).value;
    var ab := a + b;
    forall j | 0 <= j < |a| + k
      ensures !Missing(ab[j], present)
    {
      if j < |a| {
        PresentAt(a, present, j);
        assert ab[j] == a[j];
      } else {
        assert ab[j] == b[j - |a|];
      }
    }
    assert ab[|a| + k] == b[k];
    FirstMissingAt(ab, present, |a| + k);
  }

  /** With no required flag missing, each flag of the list is present or optional. */
  lemma PresentAt(flags: seq<FlagDef>, present: map<string, FlagValue>, j: nat)
    requires FirstMissing(flags, present).None? && j < |flags|
    ensures !Missing(flags[j], present)
  {
  }

  lemma NoneMissingInEither(a: seq<FlagDef>, b: seq<FlagDef>, present: map<string, FlagValue>)
    requires FirstMissing(a, present).None? && FirstMissing(b, present).None?
    ensures FirstMissing(a + b, present).None?
  {
    forall j | 0 <= j < |a + b|
      ensures !Missing((a + b)[j], present)
    {
      if j < |a| {
        assert (a + b)[j] == a[j];
      } else {
        assert (a + b)[j] == b[j - |a|];
      }
    }
  }

  /**
   * The required-flag check after a successful scan: the global flags are
   * checked first, then the command flags in scope; the first required flag
   * whose canonical key is absent fails the parse. The result is the first
   * missing flag of the two lists joined.
   */
  function CheckRequired(r: ParseResult, globals: seq<FlagDef>, cmdFlags: seq<FlagDef>): (c: ParseResult)
    ensures !r.success ==> c == r
    ensures r.success ==> c == match FirstMissing(globals + cmdFlags, r.flags)
      case None => r
      case Some(k) => r.(success := false, errorMessage := "Missing required flag: " + CanonicalName((globals + cmdFlags)[k]))
    ensures c.success <==> r.success && RequiredPresent(globals, r.flags) && RequiredPresent(cmdFlags, r.flags)
  {
    FirstMissingConcat(globals, cmdFlags, r.flags);
    if !r.success then r
    else match FirstMissing(globals, r.flags)
      case Some(k) => r.(success := false, errorMessage := "Missing required flag: " + CanonicalName(globals[k]))
      case None =>
        match FirstMissing(cmdFlags, r.flags)
        case Some(k) =>
          assert (globals + cmdFlags)[|globals| + k] == cmdFlags[k];
          r.(success := false, errorMessage := "Missing required flag: " + CanonicalName(cmdFlags[k]))
        case None => r
  }

  // ---------------------------------------------------------------------------
  // parse(vector)

  /** The result the scan starts from once the command path is known. */
  function ScanStart(path: Path): ParseResult
  {
    EmptyResult().(command := if |path| == 0 then "" else path[|path| - 1], commandPath := path)
  }

  /** The result parse(args) returns for the registry `reg`. */
  function ParseSpec(reg: Registry, args: seq<string>): (r: ParseResult)
    ensures |args| == 0 ==> (r.success <==> Commandless(reg))
    ensures |args| == 0 && !r.success ==> r.errorMessage == "No command specified"
    ensures UnknownFirstCommand(reg, args) ==> !r.success && r.errorMessage == "Unknown command: " + args[0]
    ensures Reachable(reg.commands, r.commandPath)
    ensures |r.commandPath| <= |args| && r.commandPath == args[..|r.commandPath|]
    ensures |r.commandPath| > 0 <==> StartsWithCommand(reg, args)
    ensures |r.commandPath| > 0 ==> r.command == r.commandPath[|r.commandPath| - 1]
    ensures |args| > 0 && r.success ==> RequiredPresent(reg.globalFlags, r.flags)
    ensures |args| > 0 && r.success ==> RequiredPresent(FlagsAlong(reg.commands, r.commandPath), r.flags)
  {
    if |args| == 0 then
      if Commandless(reg) then EmptyResult()
      else EmptyResult().(success := false, errorMessage := "No command specified")
    else if UnknownFirstCommand(reg, args) then
      EmptyResult().(success := false, errorMessage := "Unknown command: " + args[0])
    else
      var (path, i) := ResolvePath(reg, args);
      var cmdFlags := FlagsAlong(reg.commands, path);
      CheckRequired(Scan(reg.globalFlags, cmdFlags, args[i..], ScanStart(path)), reg.globalFlags, cmdFlags)
  }

  /** After a registered command path, parsing is the checked scan of the tokens that follow it. */
  lemma ParseAfterPath(reg: Registry, path: Path, rest: seq<string>)
    requires |path| > 0 && Reachable(reg.commands, path)
    requires forall k | 0 <= k < |path| :: !IsDashed(path[k])
    requires |rest| > 0 ==> IsDashed(rest[0])
    ensures var cmdFlags := FlagsAlong(reg.commands, path);
      ParseSpec(reg, path + rest) == CheckRequired(Scan(reg.globalFlags, cmdFlags, rest, ScanStart(path)), reg.globalFlags, cmdFlags)
  {
    ResolveRegisteredPath(reg, path, rest);
    assert (path + rest)[|path|..] == rest;
  }

  /** A command line that starts with a flag is scanned whole with no command flags in scope. */
  lemma ParseWithoutPath(reg: Registry, args: seq<string>)
    requires |args| > 0 && IsDashed(args[0])
    ensures ParseSpec(reg, args) == CheckRequired(Scan(reg.globalFlags, [], args, ScanStart([])), reg.globalFlags, [])
  {
    assert args[0..] == args;
  }

  /**
   * parse fails with one of four messages: "No command specified",
   * "Unknown command: <name>", "Unknown flag: <name>" or
   * "Missing required flag: <name>".
   */
  lemma ParseErrorKinds(reg: Registry, args: seq<string>)
    ensures var r := ParseSpec(reg, args);
      !r.success ==>
        r.errorMessage == "No command specified" ||
        (exists c :: r.errorMessage == "Unknown command: " + c) ||
        (exists n :: r.errorMessage == "Unknown flag: " + n) ||
        (exists n :: r.errorMessage == "Missing required flag: " + n)
  {
    if |args| > 0 && !UnknownFirstCommand(reg, args) {
      var (path, i) := ResolvePath(reg, args);
      ScanOutcome(reg.globalFlags, FlagsAlong(reg.commands, path), args[i..], ScanStart(path));
    }
  }

  // ---------------------------------------------------------------------------
  // Properties of the scan

  /** Tokens of which none is a flag are appended to the positional arguments in order. */
  lemma {:induction false} ScanAllPositional(globals: seq<FlagDef>, cmdFlags: seq<FlagDef>, toks: seq<string>, acc: ParseResult)
    requires acc.success
    requires forall k | 0 <= k < |toks| :: !IsDashed(toks[k]) || toks[k] == "-"
    ensures Scan(globals, cmdFlags, toks, acc) == acc.(positionalArgs := acc.positionalArgs + toks)
    decreases |toks|
  {
    if |toks| == 0 {
      assert acc.positionalArgs + toks == acc.positionalArgs;
    } else {
      var next := acc.(positionalArgs := acc.positionalArgs + [toks[0]]);
      ScanPositionalStep(globals, cmdFlags, toks, acc);
      ScanAllPositional(globals, cmdFlags, toks[1..], next);
      assert acc.positionalArgs + [toks[0]] + toks[1..] == acc.positionalArgs + toks;
    }
  }

  /** A token that is not a flag is appended to the positional arguments. */
  lemma ScanPositionalStep(globals: seq<FlagDef>, cmdFlags: seq<FlagDef>, toks: seq<string>, acc: ParseResult)
    requires acc.success && |toks| > 0
    requires !IsDashed(toks[0]) || toks[0] == "-"
    ensures Scan(globals, cmdFlags, toks, acc)
      == Scan(globals, cmdFlags, toks[1..], acc.(positionalArgs := acc.positionalArgs + [toks[0]]))
  {
    assert !StartsWith(toks[0], "--") by {
      if toks[0] == "-" { assert |toks[0]| < 2; }
    }
  }

  /**
   * With no commands registered, tokens of which none is a flag (a lone "-"
   * counts as positional) all become positional arguments, in their order.
   */
  lemma PositionalsInOrder(reg: Registry, args: seq<string>)
    requires |reg.commands| == 0
    requires forall k | 0 <= k < |args| :: !IsDashed(args[k]) || args[k] == "-"
    ensures ParseSpec(reg, args).positionalArgs == args
    ensures ParseSpec(reg, args).flags == map[]
    ensures |args| > 0 ==> (ParseSpec(reg, args).success <==> RequiredPresent(reg.globalFlags, map[]))
  {
    if |args| > 0 {
      assert !StartsWithCommand(reg, args);
      ScanAllPositional(reg.globalFlags, [], args, EmptyResult());
      assert args[0..] == args;
    }
  }

  /**
   * Path resolution stops at the deepest registered command: the first token
   * after the path that does not start with "-" is not a subcommand of it and
   * becomes the first positional argument.
   */
  lemma ParseStopsAtDeepestCommand(reg: Registry, args: seq<string>)
    requires StartsWithCommand(reg, args)
    ensures var r := ParseSpec(reg, args);
      var n := |r.commandPath|;
      n >= 1 && r.command == args[n - 1] &&
      (n < |args| && !IsDashed(args[n]) ==>
        r.commandPath + [args[n]] !in reg.commands && |r.positionalArgs| > 0 && r.positionalArgs[0] == args[n])
  {
    var (path, i) := ResolvePath(reg, args);
    var cmdFlags := FlagsAlong(reg.commands, path);
    assert i == |path|;
    if i < |args| && !IsDashed(args[i]) {
      var toks := args[i..];
      assert toks[0] == args[i];
      LongIsDashed(args[i]);
      var next := ScanStart(path).(positionalArgs := ScanStart(path).positionalArgs + [args[i]]);
      assert Scan(reg.globalFlags, cmdFlags, toks, ScanStart(path)) == Scan(reg.globalFlags, cmdFlags, toks[1..], next);
      var s := Scan(reg.globalFlags, cmdFlags, toks[1..], next);
      assert s.positionalArgs[..1] == [args[i]];
    }
  }

  /** A long token "--name[=value]" whose name no flag in scope answers to stops the scan with an error. */
  lemma ScanUnknownLongFlag(globals: seq<FlagDef>, cmdFlags: seq<FlagDef>, tok: string, rest: seq<string>, acc: ParseResult)
    requires acc.success && StartsWith(tok, "--")
    requires FindFlag(globals, cmdFlags, LongFlagParts(tok).0).None?
    ensures Scan(globals, cmdFlags, [tok] + rest, acc) == UnknownFlag(acc, LongFlagParts(tok).0)
  {
  }

  /** A short token "-x" that no flag in scope answers to stops the scan with an error. */
  lemma ScanUnknownShortFlag(globals: seq<FlagDef>, cmdFlags: seq<FlagDef>, tok: string, rest: seq<string>, acc: ParseResult)
    requires acc.success && StartsWith(tok, "-") && !StartsWith(tok, "--") && |tok| > 1
    requires FindFlag(globals, cmdFlags, tok).None?
    ensures Scan(globals, cmdFlags, [tok] + rest, acc) == UnknownFlag(acc, tok)
  {
  }

  /**
   * An unknown long flag where the scan begins fails the whole parse with
   * "Unknown flag: <name>"; the required-flag check does not replace that error.
   */
  lemma ParseUnknownFlagFails(reg: Registry, args: seq<string>)
    requires |args| > 0 && !UnknownFirstCommand(reg, args)
    requires var (path, i) := ResolvePath(reg, args);
      i < |args| && StartsWith(args[i], "--") &&
      FindFlag(reg.globalFlags, FlagsAlong(reg.commands, path), LongFlagParts(args[i]).0).None?
    ensures var i := ResolvePath(reg, args).1;
      !ParseSpec(reg, args).success &&
      ParseSpec(reg, args).errorMessage == "Unknown flag: " + LongFlagParts(args[i]).0
  {
    var (path, i) := ResolvePath(reg, args);
    var cmdFlags := FlagsAlong(reg.commands, path);
    assert args[i..] == [args[i]] + args[i + 1..];
    ScanUnknownLongFlag(reg.globalFlags, cmdFlags, args[i], args[i + 1..], ScanStart(path));
  }

  /** A flag written as its long name, as "--name=" or as its short name. */
  predicate GreedyForm(f: FlagDef, tok: string)
  {
    (tok == f.longName && StartsWith(tok, "--") && '=' !in tok) ||
    (tok == f.longName + "=" && StartsWith(f.longName, "--") && '=' !in f.longName) ||
    (tok == f.shortName && StartsWith(tok, "-") && !StartsWith(tok, "--") && |tok| > 1)
  }

  /** The name the scan looks a flag token up by. */
  function LookupName(tok: string): string
  {
    if StartsWith(tok, "--") then LongFlagParts(tok).0 else tok
  }

  lemma GreedyFormLookup(f: FlagDef, tok: string)
    requires GreedyForm(f, tok)
    ensures LookupName(tok) == if StartsWith(tok, "--") then f.longName else f.shortName
    ensures StartsWith(tok, "--") ==> LongFlagParts(tok).1 == ""
  {
    if tok == f.longName + "=" && StartsWith(f.longName, "--") && '=' !in f.longName {
      LongFlagPartsOf(f.longName, "");
      assert f.longName + "=" + "" == tok;
      assert tok[..2] == f.longName[..2];
    }
  }

  /** One step of the scan over a MultiArg flag token with no inline value. */
  lemma ScanGreedyStep(globals: seq<FlagDef>, cmdFlags: seq<FlagDef>, toks: seq<string>, acc: ParseResult, f: FlagDef)
    requires |toks| > 0 && acc.success && f.kind == MultiArg
    requires GreedyForm(f, toks[0]) && FindFlag(globals, cmdFlags, LookupName(toks[0])) == Some(f)
    ensures var j := GreedyEnd(toks, 1);
      Scan(globals, cmdFlags, toks, acc) == Scan(globals, cmdFlags, toks[j..], Store(acc, f, ArgsValue(toks[1..j])))
  {
    GreedyFormLookup(f, toks[0]);
  }

  /**
   * A MultiArg flag written as "--name", "--name=" or "-x" takes the tokens
   * after it, up to the next one starting with "-", as its values.
   */
  lemma ScanMultiArgGreedy(globals: seq<FlagDef>, cmdFlags: seq<FlagDef>, tok: string, vs: seq<string>, rest: seq<string>, acc: ParseResult, f: FlagDef)
    requires acc.success && f.kind == MultiArg
    requires GreedyForm(f, tok) && FindFlag(globals, cmdFlags, LookupName(tok)) == Some(f)
    requires forall k | 0 <= k < |vs| :: !IsDashed(vs[k])
    requires |rest| > 0 ==> IsDashed(rest[0])
    ensures Scan(globals, cmdFlags, [tok] + vs + rest, acc) == Scan(globals, cmdFlags, rest, Store(acc, f, ArgsValue(vs)))
  {
    var toks := [tok] + vs + rest;
    GreedySplit(tok, vs, rest);
    ScanGreedyStep(globals, cmdFlags, toks, acc, f);
  }

  /** The greedy run after a flag token stops exactly at the first dashed token after the values. */
  lemma GreedySplit(tok: string, vs: seq<string>, rest: seq<string>)
    requires forall k | 0 <= k < |vs| :: !IsDashed(vs[k])
    requires |rest| > 0 ==> IsDashed(rest[0])
    ensures var toks := [tok] + vs + rest;
      toks[0] == tok && GreedyEnd(toks, 1) == 1 + |vs| && toks[1..1 + |vs|] == vs && toks[1 + |vs|..] == rest
  {
    var toks := [tok] + vs + rest;
    var n := 1 + |vs|;
    forall m | 1 <= m < n
      ensures !IsDashed(toks[m])
    {
      assert toks[m] == vs[m - 1];
    }
    if |rest| > 0 {
      assert toks[n] == rest[0];
    }
    GreedyEndIs(toks, 1, n);
    assert toks[1..n] == vs;
    assert toks[n..] == rest;
  }

  /** A MultiArg flag written as "--name=a,b,c" takes the comma-separated values, empty ones dropped. */
  lemma ScanMultiArgInline(globals: seq<FlagDef>, cmdFlags: seq<FlagDef>, value: string, rest: seq<string>, acc: ParseResult, f: FlagDef)
    requires acc.success && f.kind == MultiArg
    requires StartsWith(f.longName, "--") && '=' !in f.longName && value != ""
    requires FindFlag(globals, cmdFlags, f.longName) == Some(f)
    ensures Scan(globals, cmdFlags, [f.longName + "=" + value] + rest, acc)
      == Scan(globals, cmdFlags, rest, Store(acc, f, ArgsValue(SplitNonEmpty(value, ','))))
  {
    var tok := f.longName + "=" + value;
    var toks := [tok] + rest;
    LongFlagPartsOf(f.longName, value);
    assert tok[..2] == f.longName[..2];
    assert toks[0] == tok && toks[1..] == rest;
  }

  /** A Boolean flag stores true, and anything after an '=' in its token is ignored. */
  lemma ScanBooleanFlag(globals: seq<FlagDef>, cmdFlags: seq<FlagDef>, tok: string, rest: seq<string>, acc: ParseResult, f: FlagDef, value: string)
    requires acc.success && f.kind == Boolean
    requires (StartsWith(f.longName, "--") && '=' !in f.longName && tok == f.longName + "=" + value) || GreedyForm(f, tok)
    requires FindFlag(globals, cmdFlags, LookupName(tok)) == Some(f)
    ensures Scan(globals, cmdFlags, [tok] + rest, acc) == Scan(globals, cmdFlags, rest, Store(acc, f, BoolValue(true)))
  {
    var toks := [tok] + rest;
    assert toks[0] == tok && toks[1..] == rest;
    if GreedyForm(f, tok) {
      GreedyFormLookup(f, tok);
    } else {
      LongFlagPartsOf(f.longName, value);
      assert tok[..2] == f.longName[..2];
    }
  }

  /**
   * The values of a MultiArg flag written "--name=a,b,c", "--name a b c",
   * "--name= a b c" or "-x a b c" are the same list.
   */
  lemma MultiArgFormsAgree(globals: seq<FlagDef>, cmdFlags: seq<FlagDef>, f: FlagDef, vs: seq<string>, rest: seq<string>, acc: ParseResult)
    requires acc.success && f.kind == MultiArg
    requires StartsWith(f.longName, "--") && '=' !in f.longName
    requires FindFlag(globals, cmdFlags, f.longName) == Some(f)
    requires |vs| > 0 && forall k | 0 <= k < |vs| :: |vs[k]| > 0 && ',' !in vs[k] && !IsDashed(vs[k])
    requires |rest| > 0 ==> IsDashed(rest[0])
    ensures var expected := Scan(globals, cmdFlags, rest, Store(acc, f, ArgsValue(vs)));
      Scan(globals, cmdFlags, [f.longName + "=" + Join(vs, [','])] + rest, acc) == expected &&
      Scan(globals, cmdFlags, [f.longName] + vs + rest, acc) == expected &&
      Scan(globals, cmdFlags, [f.longName + "="] + vs + rest, acc) == expected
    ensures GreedyForm(f, f.shortName) && FindFlag(globals, cmdFlags, f.shortName) == Some(f) ==>
      Scan(globals, cmdFlags, [f.shortName] + vs + rest, acc) == Scan(globals, cmdFlags, rest, Store(acc, f, ArgsValue(vs)))
  {
    MultiArgInlineAgrees(globals, cmdFlags, f, vs, rest, acc);
    LongFlagPartsOfName(f.longName);
    ScanMultiArgGreedy(globals, cmdFlags, f.longName, vs, rest, acc, f);
    GreedyFormLookup(f, f.longName + "=");
    ScanMultiArgGreedy(globals, cmdFlags, f.longName + "=", vs, rest, acc, f);
    if GreedyForm(f, f.shortName) && FindFlag(globals, cmdFlags, f.shortName) == Some(f) {
      ScanMultiArgGreedy(globals, cmdFlags, f.shortName, vs, rest, acc, f);
    }
  }

  /** The comma-joined form "--name=a,b,c" gives the list back. */
  lemma MultiArgInlineAgrees(globals: seq<FlagDef>, cmdFlags: seq<FlagDef>, f: FlagDef, vs: seq<string>, rest: seq<string>, acc: ParseResult)
    requires acc.success && f.kind == MultiArg
    requires StartsWith(f.longName, "--") && '=' !in f.longName
    requires FindFlag(globals, cmdFlags, f.longName) == Some(f)
    requires |vs| > 0 && forall k | 0 <= k < |vs| :: |vs[k]| > 0 && ',' !in vs[k]
    ensures Scan(globals, cmdFlags, [f.longName + "=" + Join(vs, [','])] + rest, acc)
      == Scan(globals, cmdFlags, rest, Store(acc, f, ArgsValue(vs)))
  {
    assert Join(vs, [',']) != "" by {
      if |vs| == 1 { assert Join(vs, [',']) == vs[0]; }
    }
    ScanMultiArgInline(globals, cmdFlags, Join(vs, [',']), rest, acc, f);
    SplitJoinRoundTrip(vs, ',');
  }

  lemma LongFlagPartsOfName(name: string)
    requires '=' !in name
    ensures LongFlagParts(name) == (name, "")
  {
  }

  /** A MultiArg flag given twice keeps only the values of its last occurrence. */
  lemma RepeatedFlagKeepsLast(globals: seq<FlagDef>, cmdFlags: seq<FlagDef>, f: FlagDef, vs1: seq<string>, vs2: seq<string>, acc: ParseResult)
    requires acc.success && f.kind == MultiArg
    requires StartsWith(f.shortName, "-") && !StartsWith(f.shortName, "--") && |f.shortName| > 1
    requires FindFlag(globals, cmdFlags, f.shortName) == Some(f)
    requires forall k | 0 <= k < |vs1| :: !IsDashed(vs1[k])
    requires forall k | 0 <= k < |vs2| :: !IsDashed(vs2[k])
    ensures Scan(globals, cmdFlags, [f.shortName] + vs1 + [f.shortName] + vs2, acc) == Store(acc, f, ArgsValue(vs2))
  {
    var s := f.shortName;
    assert [s] + vs1 + [s] + vs2 == [s] + vs1 + ([s] + vs2);
    ScanMultiArgGreedy(globals, cmdFlags, s, vs1, [s] + vs2, acc, f);
    var mid := Store(acc, f, ArgsValue(vs1));
    assert [s] + vs2 == [s] + vs2 + [];
    ScanMultiArgGreedy(globals, cmdFlags, s, vs2, [], mid, f);
    StoreTwice(acc, f, ArgsValue(vs1), ArgsValue(vs2));
  }

  /** Storing under the same key twice keeps the second value. */
  lemma StoreTwice(acc: ParseResult, f: FlagDef, v1: FlagValue, v2: FlagValue)
    ensures Store(Store(acc, f, v1), f, v2) == Store(acc, f, v2)
  {
    var k := CanonicalName(f);
    assert acc.flags[k := v1][k := v2] == acc.flags[k := v2];
  }
}
