/**
 * The data shapes of the command-line library: flag definitions, command
 * nodes, parse results, and the two small pure helpers that turn a
 * "-s,--long" names string into a flag's two names and pick the key a flag is
 * stored under.
 */
module CliTypes {
  import opened Wrappers
  import opened Strings

  datatype FlagType = Boolean | MultiArg

  /** A flag as registered: either name may be empty. */
  datatype FlagDef = FlagDef(
    shortName: string,
    longName: string,
    kind: FlagType,
    description: string,
    required: bool)

  /** The value stored for a flag: `true` for a Boolean flag, a list for a MultiArg one. */
  datatype FlagValue = BoolValue(b: bool) | ArgsValue(values: seq<string>)

  /** A command path such as ["git", "branch", "list"]. */
  type Path = seq<string>

  /**
   * One command node. The node's subcommands are not stored inside it: the
   * registry maps every full path to its node, and the subcommands of a node
   * at path p are the entries at p + [name].
   */
  datatype CommandDef = CommandDef(
    name: string,
    description: string,
    callback: Option<int>,
    flags: seq<FlagDef>)

  /**
   * The outcome of parsing. A handler is abstracted as the exit code it
   * returns, so a callback is an Option<int>.
   */
  datatype ParseResult = ParseResult(
    success: bool,
    errorMessage: string,
    command: string,
    commandPath: Path,
    flags: map<string, FlagValue>,
    positionalArgs: seq<string>)
  {
    /** Key membership: the flag appeared on the command line. */
    predicate HasFlag(name: string)
    {
      name in flags
    }

    /** The Boolean value stored under `name`; false when absent or when a list is stored. */
    function GetBool(name: string): (b: bool)
      ensures !HasFlag(name) ==> !b
      ensures HasFlag(name) && flags[name].ArgsValue? ==> !b
      ensures HasFlag(name) && flags[name].BoolValue? ==> b == flags[name].b
    {
      if name !in flags then false
      else match flags[name]
        case BoolValue(v) => v
        case ArgsValue(_) => false
    }

    /** The list stored under `name`; empty when absent or when a Boolean is stored. */
    function GetArgs(name: string): (vs: seq<string>)
      ensures !HasFlag(name) ==> vs == []
      ensures HasFlag(name) && flags[name].BoolValue? ==> vs == []
      ensures HasFlag(name) && flags[name].ArgsValue? ==> vs == flags[name].values
    {
      if name !in flags then []
      else match flags[name]
        case BoolValue(_) => []
        case ArgsValue(vs) => vs
    }
  }

  /** A result with every field at its default, as a freshly declared ParseResult. */
  function EmptyResult(): ParseResult
  {
    ParseResult(true, "", "", [], map[], [])
  }

  /**
   * Splits a names string such as "-v,--verbose" into (short name, long name).
   * With a comma, both sides are trimmed of spaces and tabs and the side that
   * starts with "--" is the long name (the first side when both do); without
   * one, the whole string is the long name if it starts with "--", else the
   * short name.
   */
  function ParseFlagNames(names: string): (r: (string, string))
    ensures ',' !in names && StartsWith(names, "--") ==> r == ("", names)
    ensures ',' !in names && !StartsWith(names, "--") ==> r == (names, "")
    ensures ',' in names ==> Trimmed(r.0) && Trimmed(r.1)
    ensures ',' in names && StartsWith(r.0, "--") ==> StartsWith(r.1, "--")
  {
    match IndexOf(names, ',')
    case Some(k) => OrderNames(Trim(names[..k]), Trim(names[k + 1..]))
    case None =>
      if StartsWith(names, "--") then ("", names) else (names, "")
  }

  /** The two sides of a comma: the one starting with "--" goes second. */
  function OrderNames(first: string, second: string): (r: (string, string))
    ensures r == (first, second) || r == (second, first)
    ensures StartsWith(r.0, "--") ==> StartsWith(r.1, "--")
  {
    if StartsWith(first, "--") then (second, first) else (first, second)
  }

  /** A name with no comma and no blank at either end, as a flag name written in a names string. */
  predicate PlainName(s: string)
  {
    |s| > 0 && ',' !in s && !IsBlank(s[0]) && !IsBlank(s[|s| - 1])
  }

  /** The names string is cut at its first comma. */
  lemma ParseFlagNamesAtComma(left: string, right: string)
    requires ',' !in left
    ensures var first, second := Trim(left), Trim(right);
      ParseFlagNames(left + "," + right) == OrderNames(first, second)
  {
    var names := left + "," + right;
    assert names[..|left|] == left;
    IndexOfAt(names, ',', |left|);
    assert names[|left| + 1..] == right;
  }

  /** Both sides of the comma lose their padding; the side starting with "--" becomes the long name. */
  lemma ParseFlagNamesPadded(a: string, b: string, pre1: string, post1: string, pre2: string, post2: string)
    requires PlainName(a) && PlainName(b)
    requires AllBlank(pre1) && AllBlank(post1) && AllBlank(pre2) && AllBlank(post2)
    ensures ParseFlagNames((pre1 + a + post1) + "," + (pre2 + b + post2))
      == if StartsWith(a, "--") then (b, a) else (a, b)
  {
    var left := pre1 + a + post1;
    var right := pre2 + b + post2;
    TrimPadded(pre1, a, post1);
    TrimPadded(pre2, b, post2);
    NoCommaPadded(pre1, a, post1);
    ParseFlagNamesAtComma(left, right);
  }

  /**
   * The round trip of flag names: a short name and a long name written in
   * either order around a comma, each padded with blanks, come back as
   * (short, long).
   */
  lemma ParseFlagNamesRoundTrip(short: string, long: string, pre1: string, post1: string, pre2: string, post2: string)
    requires PlainName(short) && !StartsWith(short, "--")
    requires PlainName(long) && StartsWith(long, "--")
    requires AllBlank(pre1) && AllBlank(post1) && AllBlank(pre2) && AllBlank(post2)
    ensures ParseFlagNames((pre1 + short + post1) + "," + (pre2 + long + post2)) == (short, long)
    ensures ParseFlagNames((pre1 + long + post1) + "," + (pre2 + short + post2)) == (short, long)
  {
    ParseFlagNamesPadded(short, long, pre1, post1, pre2, post2);
    ParseFlagNamesPadded(long, short, pre1, post1, pre2, post2);
  }

  lemma NoCommaPadded(pre: string, name: string, post: string)
    requires AllBlank(pre) && AllBlank(post) && ',' !in name
    ensures ',' !in pre + name + post
  {
    var s := pre + name + post;
    forall k | 0 <= k < |s| ensures s[k] != ',' {
      if k < |pre| { assert s[k] == pre[k]; }
      else if k < |pre| + |name| { assert s[k] == name[k - |pre|]; }
      else { assert s[k] == post[k - |pre| - |name|]; }
    }
  }

  /** A flag's single key in the parse result: the long name, or the short name when there is no long one. */
  function CanonicalName(f: FlagDef): (r: string)
    ensures r == f.longName || r == f.shortName
    ensures f.longName != "" ==> r == f.longName
  {
    if f.longName == "" then f.shortName else f.longName
  }

  /** A flag registered as "-v,--verbose" or "--verbose,-v" is stored under its long name. */
  lemma CanonicalOfRegisteredNames(short: string, long: string, kind: FlagType, description: string, required: bool)
    requires PlainName(short) && !StartsWith(short, "--")
    requires PlainName(long) && StartsWith(long, "--")
    ensures var (s, l) := ParseFlagNames(short + "," + long);
      CanonicalName(FlagDef(s, l, kind, description, required)) == long
    ensures var (s, l) := ParseFlagNames(long + "," + short);
      CanonicalName(FlagDef(s, l, kind, description, required)) == long
  {
    TrimPlain(short);
    TrimPlain(long);
    ParseFlagNamesAtComma(short, long);
    ParseFlagNamesAtComma(long, short);
  }

  lemma TrimPlain(name: string)
    requires PlainName(name)
    ensures Trim(name) == name
  {
    TrimPadded("", name, "");
    assert "" + name + "" == name;
  }

  /** A dotted command path split into its non-empty segments. */
  function SplitPath(path: string): (parts: Path)
    ensures forall k :: 0 <= k < |parts| ==> |parts[k]| > 0 && '.' !in parts[k]
  {
    SplitNonEmpty(path, '.')
  }

  /** Writing segments with dots between them and splitting again gives the segments back. */
  lemma SplitPathRoundTrip(parts: Path)
    requires forall k :: 0 <= k < |parts| ==> |parts[k]| > 0 && '.' !in parts[k]
    ensures SplitPath(Join(parts, ".")) == parts
  {
    SplitJoinRoundTrip(parts, '.');
  }
}
