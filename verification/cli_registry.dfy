/**
 * The registry of a CliExecutor: global flags and the command tree.
 *
 * The tree of CommandDef nodes (each holding a std::map of subcommands) is
 * kept as one map from full command path to node. The tree shape is the
 * invariant WellFormed: every registered path is non-empty, its node is named
 * after its last segment, and its parent path is registered too. The
 * subcommands of the node at p are then exactly the entries at p + [name].
 */
module CliRegistry {
  import opened Wrappers
  import opened Strings
  import opened CliTypes

  type Commands = map<Path, CommandDef>

  /** Everything a CliExecutor holds; a handler is abstracted as the exit code it returns. */
  datatype Registry = Registry(
    programName: string,
    description: string,
    usage: string,
    globalFlags: seq<FlagDef>,
    commands: Commands,
    defaultHandler: Option<int>)

  /** The path-keyed map is the flattening of a tree. */
  predicate WellFormed(cmds: Commands)
  {
    forall p | p in cmds :: |p| > 0 && cmds[p].name == p[|p| - 1] && (|p| > 1 ==> p[..|p| - 1] in cmds)
  }

  lemma NoCommandsWellFormed()
    ensures WellFormed(map[])
  {
  }

  /** Every non-empty prefix of `path` is a registered command. */
  predicate Reachable(cmds: Commands, path: Path)
  {
    forall n | 1 <= n <= |path| :: path[..n] in cmds
  }

  /** A node created on the way to a nested command: no description, no callback, no flags. */
  function Router(name: string): CommandDef
  {
    CommandDef(name, "", None, [])
  }

  /** The names of the subcommands of the node at `parent` (the top-level commands when `parent` is empty). */
  function ChildNames(cmds: Commands, parent: Path): (names: set<string>)
    ensures forall n | n in names :: parent + [n] in cmds
    ensures forall n | parent + [n] in cmds :: n in names
  {
    var names := set p | p in cmds && |p| == |parent| + 1 && p[..|parent|] == parent :: p[|parent|];
    assert forall n | n in names :: parent + [n] in cmds by {
      forall n | n in names
        ensures parent + [n] in cmds
      {
        var p :| p in cmds && |p| == |parent| + 1 && p[..|parent|] == parent && p[|parent|] == n;
        assert p == parent + [n];
      }
    }
    assert forall n | parent + [n] in cmds :: n in names by {
      forall n | parent + [n] in cmds
        ensures n in names
      {
        var p := parent + [n];
        assert p[..|parent|] == parent && p[|parent|] == n;
      }
    }
    names
  }

  // ---------------------------------------------------------------------------
  // find_command

  /** The walk of find_command from the node at path[..i] towards the node at `path`. */
  function Walk(cmds: Commands, path: Path, i: nat): (r: Option<CommandDef>)
    requires 1 <= i <= |path| && path[..i] in cmds
    ensures r.Some? <==> forall n | i < n <= |path| :: path[..n] in cmds
    ensures r.Some? ==> path in cmds && r.value == cmds[path]
    decreases |path| - i
  {
    if i == |path| then
      assert path[..i] == path;
      Some(cmds[path])
    else if path[..i + 1] !in cmds then None
    else Walk(cmds, path, i + 1)
  }

  /**
   * find_command: None for the empty path; otherwise the top-level command is
   * looked up and each further segment is looked up among the subcommands of
   * the node reached so far.
   */
  function FindCommand(cmds: Commands, path: Path): (r: Option<CommandDef>)
    ensures r.Some? <==> |path| > 0 && Reachable(cmds, path)
    ensures r.Some? ==> path in cmds && r.value == cmds[path]
  {
    if |path| == 0 || path[..1] !in cmds then None
    else Walk(cmds, path, 1)
  }

  lemma {:induction false} WellFormedReachable(cmds: Commands, path: Path)
    requires WellFormed(cmds) && path in cmds
    ensures Reachable(cmds, path)
    decreases |path|
  {
    if |path| > 1 {
      var parent := path[..|path| - 1];
      WellFormedReachable(cmds, parent);
      forall n | 1 <= n <= |path|
        ensures path[..n] in cmds
      {
        if n < |path| { assert path[..n] == parent[..n]; }
        else { assert path[..n] == path; }
      }
    } else {
      assert path[..1] == path;
    }
  }

  /** In a well-formed tree the walk finds exactly the registered paths. */
  lemma FindCommandIsLookup(cmds: Commands, path: Path)
    requires WellFormed(cmds)
    ensures FindCommand(cmds, path) == if path in cmds then Some(cmds[path]) else None
  {
    if path in cmds {
      WellFormedReachable(cmds, path);
    } else if |path| > 0 {
      assert path[..|path|] == path;
    }
  }

  /**
   * The command flags in scope at `path`: the flags of each node on the path,
   * the top-level command's first.
   */
  function FlagsAlong(cmds: Commands, path: Path): (r: seq<FlagDef>)
    requires Reachable(cmds, path)
    ensures forall n, f | 1 <= n <= |path| && f in cmds[path[..n]].flags :: f in r
    ensures forall f | f in r :: exists n :: 1 <= n <= |path| && f in cmds[path[..n]].flags
    decreases |path|
  {
    if |path| == 0 then []
    else
      var parent := path[..|path| - 1];
      assert Reachable(cmds, parent) by {
        forall n | 1 <= n <= |parent|
          ensures parent[..n] in cmds
        {
          assert parent[..n] == path[..n];
        }
      }
      assert forall n | 1 <= n <= |parent| :: parent[..n] == path[..n];
      assert path[..|path|] == path;
      FlagsAlong(cmds, parent) + cmds[path].flags
  }

  lemma ReachableExtend(cmds: Commands, path: Path, name: string)
    requires Reachable(cmds, path) && path + [name] in cmds
    ensures Reachable(cmds, path + [name])
  {
    var q := path + [name];
    forall n | 1 <= n <= |q|
      ensures q[..n] in cmds
    {
      if n <= |path| { assert q[..n] == path[..n]; }
      else { assert q[..n] == q; }
    }
  }

  /** Descending one level adds the new node's flags after the ones already in scope. */
  lemma FlagsAlongExtend(cmds: Commands, path: Path, name: string)
    requires Reachable(cmds, path) && path + [name] in cmds
    ensures Reachable(cmds, path + [name])
    ensures FlagsAlong(cmds, path + [name]) == FlagsAlong(cmds, path) + cmds[path + [name]].flags
  {
    ReachableExtend(cmds, path, name);
    assert (path + [name])[..|path|] == path;
  }

  // ---------------------------------------------------------------------------
  // Registration

  /** A flag built from a names string such as "-v,--verbose". */
  function MakeFlag(names: string, kind: FlagType, description: string, required: bool): (f: FlagDef)
    ensures (f.shortName, f.longName) == ParseFlagNames(names)
    ensures f.kind == kind && f.description == description && f.required == required
  {
    var (short, long) := ParseFlagNames(names);
    FlagDef(short, long, kind, description, required)
  }

  /** The built-in flag every executor starts with. */
  function HelpFlag(): FlagDef
  {
    MakeFlag("-h,--help", Boolean, "Show help message", false)
  }

  lemma HelpNamesSplit()
    ensures ParseFlagNames("-h,--help") == ("-h", "--help")
  {
    var short, long := "-h", "--help";
    assert short + "," + long == "-h,--help";
    assert PlainName(short) && PlainName(long);
    TrimPlain(short);
    TrimPlain(long);
    assert !StartsWith(short, "--");
    ParseFlagNamesAtComma(short, long);
  }

  /** The built-in help flag is "-h" / "--help", stored under "--help". */
  lemma HelpFlagNames()
    ensures HelpFlag() == FlagDef("-h", "--help", Boolean, "Show help message", false)
    ensures CanonicalName(HelpFlag()) == "--help"
  {
    HelpNamesSplit();
  }

  /**
   * add_command: the node `name` is (re)created at the top level with no
   * flags and no subcommands, so a node that was there loses its whole subtree.
   */
  function CommandAdded(cmds: Commands, name: string, description: string, callback: Option<int>): (r: Commands)
    ensures [name] in r && r[[name]] == CommandDef(name, description, callback, [])
    ensures forall p | p in r && |p| > 1 :: p[0] != name
    ensures forall p | p in cmds && |p| > 0 && p[0] != name :: p in r && r[p] == cmds[p]
    ensures forall p | p in r && p != [name] :: p in cmds
  {
    var kept := map p | p in cmds && !(|p| > 1 && p[0] == name) :: cmds[p];
    kept[[name] := CommandDef(name, description, callback, [])]
  }

  lemma CommandAddedWellFormed(cmds: Commands, name: string, description: string, callback: Option<int>)
    requires WellFormed(cmds)
    ensures WellFormed(CommandAdded(cmds, name, description, callback))
  {
    var r := CommandAdded(cmds, name, description, callback);
    forall p | p in r
      ensures |p| > 0 && r[p].name == p[|p| - 1] && (|p| > 1 ==> p[..|p| - 1] in r)
    {
      if p != [name] {
        assert p in cmds;
        if |p| > 1 {
          var parent := p[..|p| - 1];
          assert parent[0] == p[0];
          assert parent in cmds;
        }
      }
    }
  }

  /** The non-empty prefixes parts[..1], …, parts[..n]. */
  function Prefixes(parts: Path, n: nat): (ps: set<Path>)
    requires n <= |parts|
    ensures forall p | p in ps :: 1 <= |p| <= n && p == parts[..|p|]
    ensures forall k | 1 <= k <= n :: parts[..k] in ps
  {
    set k | 1 <= k <= n :: parts[..k]
  }

  /**
   * The tree after the loop of add_nested_command has walked `n` segments:
   * every missing node on the way is created as a router, and nodes that were
   * already there are left as they were.
   */
  function WithRouters(cmds: Commands, parts: Path, n: nat): (r: Commands)
    requires n <= |parts|
    ensures forall p :: p in r <==> p in cmds || (1 <= |p| <= n && p == parts[..|p|])
    ensures forall p | p in cmds :: r[p] == cmds[p]
    ensures forall p | p in r && p !in cmds :: r[p] == Router(p[|p| - 1])
  {
    map p | p in cmds.Keys + Prefixes(parts, n) :: if p in cmds then cmds[p] else Router(p[|p| - 1])
  }

  /** Before the walk nothing has been added. */
  lemma WithRoutersNone(cmds: Commands, parts: Path)
    ensures WithRouters(cmds, parts, 0) == cmds
  {
  }

  /** One step of the walk: the next node on the path is created as a router when it is missing. */
  lemma WithRoutersStep(cmds: Commands, parts: Path, n: nat)
    requires n < |parts|
    ensures var m := WithRouters(cmds, parts, n);
      WithRouters(cmds, parts, n + 1) == if parts[..n + 1] in m then m else m[parts[..n + 1] := Router(parts[n])]
  {
    var m := WithRouters(cmds, parts, n);
    var node := parts[..n + 1];
    var target := if node in m then m else m[node := Router(parts[n])];
    forall p
      ensures p in target <==> p in cmds || (1 <= |p| <= n + 1 && p == parts[..|p|])
    {
      if |p| == n + 1 && p == parts[..|p|] {
        assert p == node;
      }
    }
    forall p | p in target && p !in cmds
      ensures target[p] == Router(p[|p| - 1])
    {
      if p == node && node !in m {
        assert p[|p| - 1] == parts[n];
      }
    }
    WalkUnique(cmds, parts, n + 1, target);
  }

  /** The walk's result is the only map with its keys and its values. */
  lemma WalkUnique(cmds: Commands, parts: Path, n: nat, a: Commands)
    requires n <= |parts|
    requires forall p :: p in a <==> p in cmds || (1 <= |p| <= n && p == parts[..|p|])
    requires forall p | p in cmds :: a[p] == cmds[p]
    requires forall p | p in a && p !in cmds :: a[p] == Router(p[|p| - 1])
    ensures a == WithRouters(cmds, parts, n)
  {
    var w := WithRouters(cmds, parts, n);
    assert a.Keys == w.Keys;
  }

  /**
   * add_nested_command for a non-empty list of segments: the missing nodes on
   * the path are created as routers and the final node gets the description
   * and the callback, keeping its flags and its subcommands.
   */
  function NestedAdded(cmds: Commands, parts: Path, description: string, callback: Option<int>): (r: Commands)
    requires |parts| > 0
    ensures forall p :: p in r <==> p in cmds || (1 <= |p| <= |parts| && p == parts[..|p|])
    ensures parts in r && r[parts].description == description && r[parts].callback == callback
    ensures parts in cmds ==> r[parts].name == cmds[parts].name && r[parts].flags == cmds[parts].flags
    ensures parts !in cmds ==> r[parts].name == parts[|parts| - 1] && r[parts].flags == []
    ensures forall p | p in cmds && p != parts :: r[p] == cmds[p]
    ensures forall p | p in r && p !in cmds && p != parts :: r[p] == Router(p[|p| - 1])
  {
    var m := WithRouters(cmds, parts, |parts|);
    assert parts[..|parts|] == parts;
    m[parts := m[parts].(description := description, callback := callback)]
  }

  /** After the walk has created every node of the path, only the last node's description and callback change. */
  lemma NestedAddedAfterWalk(cmds: Commands, parts: Path, description: string, callback: Option<int>)
    requires |parts| > 0
    ensures var m := WithRouters(cmds, parts, |parts|);
      parts in m && NestedAdded(cmds, parts, description, callback) == m[parts := m[parts].(description := description, callback := callback)]
  {
    assert parts[..|parts|] == parts;
  }

  lemma NestedAddedWellFormed(cmds: Commands, parts: Path, description: string, callback: Option<int>)
    requires WellFormed(cmds) && |parts| > 0
    ensures WellFormed(NestedAdded(cmds, parts, description, callback))
  {
    var r := NestedAdded(cmds, parts, description, callback);
    forall p | p in r
      ensures |p| > 0 && r[p].name == p[|p| - 1] && (|p| > 1 ==> p[..|p| - 1] in r)
    {
      if p !in cmds {
        NewNodeOnPath(cmds, parts, description, callback, p);
      }
    }
  }

  /** After add_nested_command every non-empty prefix of the path is registered. */
  lemma NestedAddedReachable(cmds: Commands, parts: Path, description: string, callback: Option<int>)
    requires |parts| > 0
    ensures Reachable(NestedAdded(cmds, parts, description, callback), parts)
  {
    var r := NestedAdded(cmds, parts, description, callback);
    forall n | 1 <= n <= |parts|
      ensures parts[..n] in r
    {
      assert parts[..n][..|parts[..n]|] == parts[..n];
    }
  }

  /** A node the walk created is a prefix of the path, named after its last segment, below another prefix. */
  lemma NewNodeOnPath(cmds: Commands, parts: Path, description: string, callback: Option<int>, p: Path)
    requires |parts| > 0
    requires p in NestedAdded(cmds, parts, description, callback) && p !in cmds
    ensures var r := NestedAdded(cmds, parts, description, callback);
      |p| > 0 && r[p].name == p[|p| - 1] && (|p| > 1 ==> p[..|p| - 1] in r)
  {
    assert 1 <= |p| <= |parts| && p == parts[..|p|];
    if |p| > 1 {
      assert p[..|p| - 1] == parts[..|p| - 1];
    }
  }

  /**
   * add_command_flag / add_nested_command_flag: when find_command reaches a
   * node, the flag is appended to that node's flags; otherwise nothing changes.
   */
  function FlagAdded(cmds: Commands, path: Path, flag: FlagDef): (r: Commands)
    ensures FindCommand(cmds, path).None? ==> r == cmds
    ensures FindCommand(cmds, path).Some? ==>
      path in cmds && path in r && r[path] == cmds[path].(flags := cmds[path].flags + [flag])
    ensures r.Keys == cmds.Keys
    ensures forall p | p in cmds && p != path :: r[p] == cmds[p]
  {
    match FindCommand(cmds, path)
    case None => cmds
    case Some(node) => cmds[path := node.(flags := node.flags + [flag])]
  }

  /** The node the lookup found, with the flag appended, is the whole change. */
  lemma FlagAddedFound(cmds: Commands, path: Path, flag: FlagDef, found: Option<CommandDef>)
    requires found == FindCommand(cmds, path)
    ensures found.None? ==> FlagAdded(cmds, path, flag) == cmds
    ensures found.Some? ==> FlagAdded(cmds, path, flag) == cmds[path := found.value.(flags := found.value.flags + [flag])]
  {
  }

  lemma FlagAddedWellFormed(cmds: Commands, path: Path, flag: FlagDef)
    requires WellFormed(cmds)
    ensures WellFormed(FlagAdded(cmds, path, flag))
  {
  }
}
