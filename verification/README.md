# cpp-cli in Dafny

This project models the core of cpp-cli, a small C++ command-line toolkit:

- **The command-line library** (`CliExecutor`). A program registers:
  - global flags;
  - commands, nested commands written as dotted paths ("remote.add");
  - per-command flags.

  It then parses an argument vector into a `ParseResult`. The result holds:
  - a success bit and an error message;
  - the deepest command reached and its path;
  - a map from each flag's canonical name to `true` or to a list of values;
  - the positional arguments.

  It executes the matching handler, or prints help when `--help` was given or the command has no handler. It also renders the help texts.
- **The fullscreen terminal.** A frame buffer with a pending buffer and a current buffer. `set_content` fits lines to the terminal size. `flush` writes only the rows that changed, or every row after a forced redraw or a resize.
- **The fullscreen demo.** It has a pattern screen, a blocks screen and a Pascal's-triangle screen.
- **The puzzle tools:**
  - the safe dial (positions and zero crossings);
  - `tail`;
  - the paper-roll printing grid (neighbour counting by convolution and repeated removal);
  - the tachyon manifold (beams split row by row);
  - the cephalopod homework (column arithmetic in two readings);
  - the maximum joltage of a line of digits;
  - the movie-theatre corner candidates.

The Dafny takes the form of the code it models:
- Pure helpers are functions with lemmas.
- Objects that update their fields are classes:
  - `Cli.CliExecutor`;
  - `Fullscreen.FullscreenTerminal`;
  - `Safes.Safe`;
  - `Tachyon.TachyonManifold`;
  - `Cephalopods.Homework`;
  - `MovieTheatre.MovieTheatreState`.
- Loops are methods with invariants. Each such method is proved equal to a specification function, and the properties are proved about that function.

Modules, one per file:
- `Wrappers` (Option).
- `Strings`: the standard-library string operations the code relies on (`find`, `getline` splitting, trimming, `std::stoi`, `std::to_string`).
- `Ordering`: `std::string` ordering and the key order of a `std::map`.
- `CliTypes`, `CliRegistry`, `CliParse`, `CliHelp`, `CliDispatch` and `Cli`: the command-line library.
- `Fullscreen` and `FullscreenDemo`.
- `Safes`, `Tail`, `Printing`, `Tachyon`, `Cephalopods`, `MaxJoltage` and `MovieTheatre`.

Conventions:
- Inputs that come from outside are parameters:
  - the terminal size the system reports (`None` when it cannot tell);
  - the clock reading of the demo;
  - the contents of a file.
- A handler is represented by the exit code it returns. Output is the text that would be written.
- An exception thrown by the code is `None` in an `Option` result.

## Model

| member | source | states |
|---|---|---|
| CliTypes.ParseResult.GetBool | src/core/cli.cc:16-23 | false when the flag is absent or holds a list, else the stored Boolean |
| CliTypes.ParseResult.GetArgs | src/core/cli.cc:25-32 | empty when the flag is absent or holds a Boolean, else the stored list |
| CliTypes.ParseFlagNames | src/core/cli.cc:55-87 | without a comma the whole string is the long name when it starts with "--", else the short name; with one, both names are trimmed, and a short name starting with "--" means both do |
| CliTypes.ParseFlagNamesAtComma | src/core/cli.cc:58-61 | the names string is cut at its first comma |
| CliTypes.ParseFlagNamesPadded | src/core/cli.cc:63-77 | blanks around either side of the comma are dropped; the side starting with "--" becomes the long name |
| CliTypes.ParseFlagNamesRoundTrip | src/core/cli.cc:55-87 | a short and a long name written in either order around a comma, with any blank padding, come back as (short, long) |
| CliTypes.CanonicalName | src/core/cli.cc:207-209 | the key of a flag is its long name, or its short name when it has no long one |
| CliTypes.CanonicalOfRegisteredNames | src/core/cli.cc:207-209 | a flag registered as "-v,--verbose" or "--verbose,-v" is stored under "--verbose" |
| CliTypes.SplitPath | src/core/cli.cc:100-110 | a dotted path splits into its non-empty, dot-free segments |
| CliTypes.SplitPathRoundTrip | src/core/cli.cc:100-110 | joining non-empty dot-free segments with dots and splitting gives the segments back |
| Ordering.LessTotal | src/core/cli.cc:460-466 | the std::string order is total on distinct strings |
| Ordering.LessAsym | src/core/cli.cc:460-466 | the order is asymmetric |
| Ordering.LessTrans | src/core/cli.cc:460-466 | the order is transitive |
| Ordering.LeastExists | src/core/cli.cc:537-543 | every non-empty finite set of names has a least element |
| Ordering.LeastUnique | src/core/cli.cc:537-543 | the least element is unique |
| Ordering.SortedKeys | src/core/cli.cc:537-543 | the iteration order of a std::map: every key exactly once, strictly increasing |
| Strings.IndexOf | src/core/cli.cc:58 | std::string::find of a character: the first index holding it, None exactly when it is absent |
| Strings.SplitNonEmpty | src/core/cli.cc:100-110 | the getline pieces between delimiters, empty ones dropped: non-empty and delimiter-free |
| Strings.SplitJoinRoundTrip | src/core/cli.cc:100-110 | splitting a join of non-empty delimiter-free parts gives the parts back |
| Strings.Trim | src/core/cli.cc:64-67 | trimming leaves neither a leading nor a trailing space or tab |
| Strings.TrimPadded | src/core/cli.cc:64-69 | trimming removes exactly the blank padding around a word that does not start or end with a blank |
| Strings.NatToString | src/tools/fullscreen_demo/main.cpp:206 | std::to_string of a natural number: digits only, no leading zero, and their decimal value is the number |
| Strings.IntToString | src/tools/fullscreen_demo/main.cpp:260 | "%d" of any integer: a minus sign before the digits of a negative one |
| Strings.IntToStringHasNo | src/tools/fullscreen_demo/main.cpp:206 | a decimal rendering contains no character other than digits and '-' |
| Strings.Stoi | src/tools/movie-theatre/include/movie_theatre.hpp:65-68 | std::stoi: skips leading white space, reads a sign and at least one digit, ignores what follows; None when no digit is read or the value leaves the int range |
| Strings.StoiOfSignedDigits | src/tools/movie-theatre/include/movie_theatre.hpp:65-68 | std::stoi of an optional minus sign and digits, followed by a non-digit, reads exactly those digits |
| Strings.StoiOfIntToString | src/tools/safes/include/safes.hpp:47 | std::stoi reads back the decimal rendering of any int, whatever non-digit follows |
| Strings.ReadChar | src/tools/maxjoltage/include/maxjoltage.hpp:14 | std::stoi of a one-character string: the digit's value, None for any other character |
| Strings.ReadCharIsStoi | src/tools/maxjoltage/include/maxjoltage.hpp:14 | ReadChar agrees with the std::stoi model on every character |
| Strings.Repeat | src/tools/fullscreen_demo/main.cpp:104 | std::string(n, c): n copies of c |
| CliRegistry.ChildNames | src/core/cli.cc:535-543 | the subcommand names of a node are exactly the names one level below its path |
| CliRegistry.Walk | src/core/cli.cc:112-140 | the walk down the tree succeeds exactly when every longer prefix of the path is registered, and yields the node at the path |
| CliRegistry.FindCommand | src/core/cli.cc:112-140 | find_command succeeds exactly when the path is non-empty and reachable from the root, and yields that node |
| CliRegistry.WellFormedReachable | src/core/cli.cc:142-166 | in a registry built by the add operations every registered path is reachable |
| CliRegistry.FindCommandIsLookup | src/core/cli.cc:112-140 | in such a registry find_command is a plain lookup of the path |
| CliRegistry.FlagsAlong | src/core/cli.cc:251-263 | the command flags gathered while descending are exactly the flags of the nodes on the path |
| CliRegistry.FlagsAlongExtend | src/core/cli.cc:256-263 | descending one level appends that node's flags |
| CliRegistry.MakeFlag | src/core/cli.cc:89-93 | a new flag carries the names parsed from its names string and the given kind, description and required bit |
| CliRegistry.HelpFlagNames | src/core/cli.cc:40-45 | the built-in help flag is "-h"/"--help", Boolean, not required, stored under "--help" |
| CliRegistry.CommandAdded | src/core/cli.cc:95-98 | add_command puts a fresh node with no flags at [name], drops the old subtree under it, and keeps every other command |
| CliRegistry.CommandAddedWellFormed | src/core/cli.cc:95-98 | add_command keeps the registry well formed |
| CliRegistry.Prefixes | src/core/cli.cc:148-161 | the set of non-empty prefixes of a path, up to a length |
| CliRegistry.WithRouters | src/core/cli.cc:148-161 | creating the intermediate nodes adds a handler-less node named by its last segment at each missing prefix, and changes nothing already there |
| CliRegistry.WithRoutersStep | src/core/cli.cc:156-161 | one more prefix adds a node only when the prefix was missing |
| CliRegistry.NestedAdded | src/core/cli.cc:142-166 | add_nested_command creates missing ancestors, sets description and handler at the path, and keeps the node's name and flags when it already existed |
| CliRegistry.NestedAddedWellFormed | src/core/cli.cc:142-166 | add_nested_command keeps the registry well formed |
| CliRegistry.NestedAddedReachable | src/core/cli.cc:142-166 | after add_nested_command every non-empty prefix of the path is registered, so the new command can be found |
| CliRegistry.FlagAdded | src/core/cli.cc:168-188 | a command flag is appended to the node at the path when find_command finds it, and nothing changes otherwise |
| CliRegistry.FlagAddedWellFormed | src/core/cli.cc:168-188 | adding a command flag keeps the registry well formed |
| CliParse.FirstMatch | src/core/cli.cc:190-205 | the first flag in the list whose short or long name is the name, None when there is none |
| CliParse.FindFlag | src/core/cli.cc:190-205 | find_flag looks in the command's flags first and then in the global ones; None exactly when neither has a match |
| CliParse.Descend | src/core/cli.cc:255-269 | the descent consumes non-dashed arguments naming subcommands and stops at a dash, at the end, or at an unknown name |
| CliParse.ResolvePath | src/core/cli.cc:239-286 | the command path is a prefix of the arguments, reachable, and non-empty exactly when the first argument names a command |
| CliParse.DescendAlong | src/core/cli.cc:255-269 | the descent reaches exactly a registered path followed by a dashed argument or the end |
| CliParse.ResolveRegisteredPath | src/core/cli.cc:239-286 | arguments that spell a registered path and then start a flag resolve to that path |
| CliParse.LongFlagParts | src/core/cli.cc:297-304 | "--name=value" splits at its first '=', and a flag without '=' has an empty value |
| CliParse.LongFlagPartsOf | src/core/cli.cc:297-304 | splitting name + "=" + value gives back name and value |
| CliParse.GreedyEnd | src/core/cli.cc:331-337 | a MultiArg flag collects the following arguments up to the next dashed one |
| CliParse.GreedyEndIs | src/core/cli.cc:331-337 | the collection ends exactly at the first dashed argument |
| CliParse.Scan | src/core/cli.cc:288-371 | scanning the flags and positionals keeps the command, keeps earlier positionals in order, and never drops a flag already stored |
| CliParse.ScanOutcome | src/core/cli.cc:288-371 | every flag stored belongs to the command or the globals, and a scan fails only with "Unknown flag: " |
| CliParse.FirstMissing | src/core/cli.cc:376-391 | the first required flag absent from the result, None exactly when all required flags are present |
| CliParse.FirstMissingConcat | src/core/cli.cc:376-391 | the globals are checked before the command flags |
| CliParse.CheckRequired | src/core/cli.cc:376-391 | a successful result fails with "Missing required flag: " and the first missing flag's key; it stays successful exactly when every required global and command flag is present |
| CliParse.ParseSpec | src/core/cli.cc:219-394 | no arguments fails with "No command specified" unless no command is registered; an unknown first command fails; the path is a reachable prefix of the arguments; a success has every required flag |
| CliParse.ParseAfterPath | src/core/cli.cc:239-394 | after a registered path the rest is scanned with the path's flags and then checked for required flags |
| CliParse.ParseWithoutPath | src/core/cli.cc:234-239 | arguments starting with a dash are scanned with the global flags only |
| CliParse.ParseErrorKinds | src/core/cli.cc:219-394 | a failed parse carries one of the four error messages of the parser |
| CliParse.ScanAllPositional | src/core/cli.cc:367-370 | arguments that are not flags become positionals in order |
| CliParse.PositionalsInOrder | src/core/cli.cc:367-370 | without commands, plain arguments are all positional, in order, and no flag is stored |
| CliParse.ParseStopsAtDeepestCommand | src/core/cli.cc:239-286 | the command is the deepest one named; the next plain argument, if any, is the first positional |
| CliParse.ScanUnknownLongFlag | src/core/cli.cc:306-311 | an unknown long flag fails with "Unknown flag: " and its name before any '=' |
| CliParse.ScanUnknownShortFlag | src/core/cli.cc:342-349 | an unknown short flag fails with "Unknown flag: " and the argument |
| CliParse.ParseUnknownFlagFails | src/core/cli.cc:289-311 | a parse whose first flag after the path is unknown fails with that name |
| CliParse.GreedyFormLookup | src/core/cli.cc:292-344 | a flag written bare is looked up by its long or short name |
| CliParse.ScanGreedyStep | src/core/cli.cc:330-340 | a MultiArg flag takes the following non-dashed arguments as its list |
| CliParse.ScanMultiArgGreedy | src/core/cli.cc:330-340 | a MultiArg flag followed by values and then a dash stores exactly those values |
| CliParse.ScanMultiArgInline | src/core/cli.cc:321-329 | "--name=a,b,c" stores the non-empty comma-separated pieces |
| CliParse.ScanBooleanFlag | src/core/cli.cc:313-316 | a Boolean flag, bare or with "=value", stores true |
| CliParse.MultiArgFormsAgree | src/core/cli.cc:292-366 | "--name=a,b", "--name a b", "--name= a b" and "-n a b" store the same list |
| CliParse.RepeatedFlagKeepsLast | src/core/cli.cc:353-366 | a flag given twice keeps the last list |
| CliParse.StoreTwice | src/core/cli.cc:292-366 | storing a flag twice is storing the second value |
| CliHelp.FlagNames | src/core/cli.cc:473-482 | a flag's names column starts with its short name and ends with its long name |
| CliHelp.FlagLineMentions | src/core/cli.cc:472-493 | an option line shows both names, the description, " <args>" for a MultiArg flag and " (required)" for a required one |
| CliHelp.FlagLinesList | src/core/cli.cc:470-494 | every flag of a list has its line in the options section |
| CliHelp.Children | src/core/cli.cc:535-543 | the subcommands are listed once each, in std::map order |
| CliHelp.EntryLinesList | src/core/cli.cc:458-468 | every listed command has its entry line |
| CliHelp.ChildLinesListed | src/core/cli.cc:535-543 | every subcommand of a node appears with its description |
| CliHelp.TopHelp | src/core/cli.cc:441-497 | help() as a definition: the header, the usage line, a "Commands:" section when there are commands and an "Options:" section when there are global flags, in that order; TopHelpOpens, TopHelpShowsUsage and TopHelpLists state what it shows |
| CliHelp.TopHelpOpens | src/core/cli.cc:441-447 | the top-level help starts with the program name |
| CliHelp.TopHelpShowsUsage | src/core/cli.cc:450-451 | a custom usage string is shown after "Usage: " and the program name |
| CliHelp.TopHelpLists | src/core/cli.cc:458-494 | the top-level help lists every top-level command and every global flag |
| CliHelp.CommandStringJoin | src/core/cli.cc:516-520 | the command string is the program name and the path joined with spaces |
| CliHelp.NamedCommandHelp | src/core/cli.cc:499-501 | help for an unknown single command name is "Unknown command: " and the name |
| CliHelp.CommandHelp | src/core/cli.cc:503-601 | help(path) as a definition: "Unknown command: " and the path for an unregistered path, else the header, usage, subcommand, command-option and global-option sections; CommandHelpUnknown, CommandHelpSections, CommandHelpOpens and CommandHelpLists state what it shows |
| CliHelp.CommandHelpUnknown | src/core/cli.cc:503-512 | help for an unregistered path is "Unknown command: " and the path joined with spaces |
| CliHelp.CommandHelpSections | src/core/cli.cc:514-601 | a command's help is its header, usage, subcommands, command options and global options, in that order |
| CliHelp.CommandHelpOpens | src/core/cli.cc:516-526 | a command's help starts with the program name and the path |
| CliHelp.CommandHelpHeadsSubcommands | src/core/cli.cc:535-545 | a command with subcommands has a "Subcommands:" section |
| CliHelp.CommandHelpLists | src/core/cli.cc:535-598 | a command's help lists every subcommand, every command flag and every global flag |
| CliDispatch.Execute | src/core/cli.cc:396-429 | a failed parse gives -1; --help shows the top or command help and gives 0; a handler runs exactly when one is registered for the reached command, or as default for an empty path, and its code is returned; an empty path without a default handler gives -1; a command without a handler shows its help |
| CliDispatch.ArgvToArgs | src/core/cli.cc:211-217 | the program name is dropped from argv |
| CliDispatch.Run | src/core/cli.cc:431-439 | run prints "Error: " and the message and returns -1 on a failed parse, else executes |
| CliDispatch.CheckNoneRequired | src/core/cli.cc:376-391 | with no required flags the required check changes nothing |
| CliDispatch.ParsePathAlone | src/core/cli.cc:239-394 | a registered path alone parses to that command with no flags or positionals |
| CliDispatch.RunDispatchesPath | src/core/cli.cc:396-439 | running a registered path alone runs its handler, or shows its help when it has none |
| CliDispatch.ScanLongBoolean | src/core/cli.cc:313-316 | a bare long Boolean flag stores true |
| CliDispatch.ParseLongBooleanAlone | src/core/cli.cc:289-316 | a lone long Boolean global flag parses to true under its key |
| CliDispatch.ParseLongBooleanAfterPath | src/core/cli.cc:239-316 | a long Boolean flag after a path parses to true under its key |
| CliDispatch.RunTopHelp | src/core/cli.cc:401-409 | "prog --help" shows the top-level help |
| CliDispatch.RunCommandHelp | src/core/cli.cc:401-409 | "prog path --help" shows the command's help |
| Cli.CliExecutor.constructor | src/core/cli.cc:40-45 | a new executor has the name and description, no usage, only the help flag, no commands and no default handler |
| Cli.CliExecutor.SetUsage | src/core/cli.cc:47-49 | only the usage changes |
| Cli.CliExecutor.SetHandler | src/core/cli.cc:51-53 | only the default handler changes |
| Cli.CliExecutor.AddFlag | src/core/cli.cc:89-93 | the flag is appended to the global flags |
| Cli.CliExecutor.AddCommand | src/core/cli.cc:95-98 | the registry becomes CommandAdded of the old one and stays well formed |
| Cli.CliExecutor.AddNestedCommand | src/core/cli.cc:142-166 | an empty path changes nothing; otherwise the registry becomes NestedAdded of the old one, well formed |
| Cli.CliExecutor.CreateRouters | src/core/cli.cc:148-161 | the walk leaves the registry as WithRouters of the old one: every missing node on the path is created as a router named by its last part, existing nodes untouched |
| Cli.CliExecutor.AddCommandFlag | src/core/cli.cc:168-176 | the registry becomes FlagAdded at [name] |
| Cli.CliExecutor.AddNestedCommandFlag | src/core/cli.cc:178-188 | the registry becomes FlagAdded at the split path |
| Cli.CliExecutor.FindCommandNode | src/core/cli.cc:112-140 | the loop agrees with FindCommand |
| Cli.CliExecutor.FindFlagDef | src/core/cli.cc:190-205 | the loops agree with FindFlag |
| Cli.CliExecutor.Parse | src/core/cli.cc:219-394 | the imperative parser returns exactly ParseSpec of the registry and the arguments |
| Cli.CliExecutor.DescendPath | src/core/cli.cc:239-286 | the descent loop returns ResolvePath and the flags along the path |
| Cli.CliExecutor.ScanTokens | src/core/cli.cc:288-371 | the token loop computes Scan |
| Cli.CliExecutor.ScanToken | src/core/cli.cc:288-371 | one token step advances and agrees with Scan |
| Cli.CliExecutor.ScanLongToken | src/core/cli.cc:292-341 | one long-flag step advances and agrees with Scan |
| Cli.CliExecutor.ScanShortToken | src/core/cli.cc:342-366 | one short-flag step: the token is looked up as written, an unknown one fails the scan with "Unknown flag: " and the token, a Boolean stores true, a multi-arg flag collects up to the next dashed token; the step advances and agrees with Scan |
| Cli.CliExecutor.CheckRequiredFlags | src/core/cli.cc:376-391 | the loop computes CheckRequired |
| Cli.CliExecutor.Execute | src/core/cli.cc:396-429 | agrees with the dispatch specification |
| Cli.CliExecutor.Run | src/core/cli.cc:431-439 | agrees with the dispatch specification |
| Cli.GreedyCollect | src/core/cli.cc:331-337 | the collection stops at the first dashed argument or the end |
| Fullscreen.SizeOf | src/core/fullscreen_terminal.cc:67-77 | the reported size, or 24 by 80 when the size cannot be read |
| Fullscreen.Resize | src/core/fullscreen_terminal.cc:83-86 | std::vector::resize: exactly n lines, the kept ones unchanged and new ones empty |
| Fullscreen.ResizeTwice | src/core/fullscreen_terminal.cc:113-114 | resizing and then shrinking is shrinking at once |
| Fullscreen.ResizeSame | src/core/fullscreen_terminal.cc:113-114 | resizing to the current length changes nothing |
| Fullscreen.Truncate | src/core/fullscreen_terminal.cc:90-93 | a line cut to at most cols characters, a prefix of the original |
| Fullscreen.Fit | src/core/fullscreen_terminal.cc:79-95 | the pending buffer: rows lines, each at most cols wide |
| Fullscreen.FitShape | src/core/fullscreen_terminal.cc:79-95 | exactly rows lines, each the content line cut to cols characters, empty past the content |
| Fullscreen.FitIdempotent | src/core/fullscreen_terminal.cc:79-95 | setting content that already fits keeps it |
| Fullscreen.AfterDiff | src/core/fullscreen_terminal.cc:129-150 | the current buffer after the scan keeps its length |
| Fullscreen.Scanned | src/core/fullscreen_terminal.cc:131-134 | the scan covers min(rows, pending lines) |
| Fullscreen.AfterDiffStep | src/core/fullscreen_terminal.cc:136-147 | a scanned row is copied into the current buffer when the current buffer has it |
| Fullscreen.DiffWritesExact | src/core/fullscreen_terminal.cc:129-150 | rows are written in increasing order with their pending text, and a row is written exactly when it is scanned and missing or different on screen |
| Fullscreen.DiffWritesNothing | src/core/fullscreen_terminal.cc:129-150 | when the screen already shows the pending rows nothing is written |
| Fullscreen.SecondDiffWritesNothing | src/core/fullscreen_terminal.cc:129-150 | a second update straight after the first writes nothing |
| Fullscreen.RedrawWritesNonEmpty | src/core/fullscreen_terminal.cc:118-126 | after a forced redraw every scanned non-empty row is written |
| Fullscreen.FullscreenTerminal.constructor | src/core/fullscreen_terminal.cc:16-20 | not fullscreen, no redraw pending, size as reported |
| Fullscreen.FullscreenTerminal.Enter | src/core/fullscreen_terminal.cc:28-48 | nothing when already fullscreen; else fullscreen with both buffers rows empty lines |
| Fullscreen.FullscreenTerminal.Exit | src/core/fullscreen_terminal.cc:50-61 | nothing when not fullscreen; else leaves fullscreen |
| Fullscreen.FullscreenTerminal.GetSize | src/core/fullscreen_terminal.cc:63-65 | the cached size |
| Fullscreen.FullscreenTerminal.SetContent | src/core/fullscreen_terminal.cc:79-95 | the pending buffer becomes Fit of the content; nothing else changes |
| Fullscreen.FullscreenTerminal.Clear | src/core/fullscreen_terminal.cc:97-100 | the pending buffer becomes rows empty lines |
| Fullscreen.FullscreenTerminal.ForceRedraw | src/core/fullscreen_terminal.cc:102 | only the redraw flag is set |
| Fullscreen.FullscreenTerminal.Quit | src/core/fullscreen_terminal.cc:186 | only the quit flag is set |
| Fullscreen.FullscreenTerminal.SignalResize | src/core/fullscreen_terminal.cc:286-292 | only the resize flag is set |
| Fullscreen.FullscreenTerminal.UpdateScreenDiff | src/core/fullscreen_terminal.cc:129-150 | the writes are DiffWrites of the old buffers and the current buffer becomes AfterDiff |
| Fullscreen.FullscreenTerminal.Flush | src/core/fullscreen_terminal.cc:104-127 | nothing outside fullscreen; a pending resize takes the new size, resizes both buffers and forces a redraw; a redraw clears the screen, writes the non-empty rows and clears the flag; otherwise the diff is written |
| Fullscreen.FlushSettles | src/core/fullscreen_terminal.cc:104-150 | after a flush in fullscreen the screen shows the pending text on every scanned row |
| FullscreenDemo.BinomialEdges | src/tools/fullscreen_demo/main.cpp:189-197 | each row of the triangle starts and ends with 1 and is 0 past its end |
| FullscreenDemo.Absorption | src/tools/fullscreen_demo/main.cpp:193 | k C(n,k) = n C(n-1,k-1) |
| FullscreenDemo.AbsorptionLeft | src/tools/fullscreen_demo/main.cpp:193 | (n-j) C(n,j) = n C(n-1,j) |
| FullscreenDemo.PascalStep | src/tools/fullscreen_demo/main.cpp:193 | C(n,k-1)(n-k+1) = k C(n,k), so the division in the recurrence is exact |
| FullscreenDemo.BinomialSymmetric | src/tools/fullscreen_demo/main.cpp:189-197 | each row reads the same from both ends |
| FullscreenDemo.ComputePascalRow | src/tools/fullscreen_demo/main.cpp:189-197 | the multiplicative recurrence yields n+1 entries, starting with 1, equal to row n of Pascal's triangle |
| FullscreenDemo.PascalRow | src/tools/fullscreen_demo/main.cpp:189-197 | row n has n+1 binomial entries |
| FullscreenDemo.Renderings | src/tools/fullscreen_demo/main.cpp:206 | each entry in decimal |
| FullscreenDemo.FormatRow | src/tools/fullscreen_demo/main.cpp:200-209 | the renderings joined with two spaces |
| FullscreenDemo.SplitDoubleSpaced | src/tools/fullscreen_demo/main.cpp:200-209 | splitting at spaces a double-space join of space-free non-empty parts gives the parts back |
| FullscreenDemo.FormatRowSplits | src/tools/fullscreen_demo/main.cpp:200-209 | a formatted row splits back into the decimal renderings of its entries |
| FullscreenDemo.PatternLine | src/tools/fullscreen_demo/main.cpp:47-58 | a pattern line is exactly cols characters of '-' or '+' |
| FullscreenDemo.PatternContent | src/tools/fullscreen_demo/main.cpp:44-58 | the pattern screen has rows lines, each cols characters of the pattern |
| FullscreenDemo.CheckerLine | src/tools/fullscreen_demo/main.cpp:107-113 | '#' where row + column is even, ' ' elsewhere |
| FullscreenDemo.CheckerAlternates | src/tools/fullscreen_demo/main.cpp:107-113 | neighbouring rows are complementary and the pattern has period two |
| FullscreenDemo.CheckerRow | src/tools/fullscreen_demo/main.cpp:107-113 | the character loop builds CheckerLine |
| FullscreenDemo.BlocksContent | src/tools/fullscreen_demo/main.cpp:99-116 | rows lines of cols characters, all '#' or the checkerboard |
| FullscreenDemo.DisplayedRow | src/tools/fullscreen_demo/main.cpp:221-237 | the row shown is elapsed / 500 capped at rows - 5 |
| FullscreenDemo.DisplayedRowFitting | src/tools/fullscreen_demo/main.cpp:221-237 | the same with the cap at rows - 6 |
| FullscreenDemo.Padding | src/tools/fullscreen_demo/main.cpp:249-252 | half the free columns, rounded down, and none when the line is too wide |
| FullscreenDemo.Centre | src/tools/fullscreen_demo/main.cpp:253 | the padding spaces followed by the line |
| FullscreenDemo.CentreFits | src/tools/fullscreen_demo/main.cpp:247-255 | a line that fits is centred to within one column and stays within the width |
| FullscreenDemo.TriangleCount | src/tools/fullscreen_demo/main.cpp:241 | rows 0 to the last row: one more than the last row |
| FullscreenDemo.BuildTriangle | src/tools/fullscreen_demo/main.cpp:240-245 | each shown row computed and formatted |
| FullscreenDemo.PascalScreen | src/tools/fullscreen_demo/main.cpp:226-262 | a two-line header with the title, the centred triangle rows 0 to the last row and a three-line footer with "Row: " and the row number |
| FullscreenDemo.TriangleLines | src/tools/fullscreen_demo/main.cpp:247-254 | one centred triangle row per index, in order |
| FullscreenDemo.PascalContent | src/tools/fullscreen_demo/main.cpp:226-262 | the loop of the update callback builds exactly PascalScreen of the current row and screen width |
| FullscreenDemo.PascalOverflowsAtCap | src/tools/fullscreen_demo/main.cpp:231-262 | as written, once the cap is reached the frame has rows + 1 lines |
| FullscreenDemo.PascalFitsWithCorrectedCap | src/tools/fullscreen_demo/main.cpp:231-262 | with the cap at rows - 6 the frame always fits |
| Safes.Pow10 | src/tools/safes/include/safes.hpp:26 | 10^n is at least 1, and at least 10 for n at least 1 |
| Safes.SafeModulus | src/tools/safes/include/safes.hpp:26 | the dial size is positive, and at least 10 for one digit or more |
| Safes.CRem | src/tools/safes/include/safes.hpp:71-76 | C++ % truncates: the remainder has the sign of the dividend and differs from it by a multiple of m |
| Safes.Wrap | src/tools/safes/include/safes.hpp:71-76 | the wrapped position is on the dial and congruent to the unwrapped one |
| Safes.WrapIsMod | src/tools/safes/include/safes.hpp:71-76 | wrapping the C++ remainder is the mathematical modulus |
| Safes.ZeroCrossings | src/tools/safes/include/safes.hpp:79-96 | the count of turn_count_zeros as a definition; ZeroCrossingsCorrect proves it is the number of zeros met |
| Safes.RightHits | src/tools/safes/include/safes.hpp:79-96 | the reference count for a right turn: how many of the positions passed are multiples of the dial size; RightHitsClosed gives its closed form |
| Safes.LeftHits | src/tools/safes/include/safes.hpp:79-96 | the reference count for a left turn; LeftHitsMirror relates it to RightHits |
| Safes.RightHitsClosed | src/tools/safes/include/safes.hpp:79-96 | the zeros met turning right one step at a time follow the closed form |
| Safes.LeftHitsMirror | src/tools/safes/include/safes.hpp:79-96 | turning left is turning right on the mirrored dial |
| Safes.ZeroCrossingsCorrect | src/tools/safes/include/safes.hpp:79-96 | the shortcut of turn_count_zeros counts exactly the moments the turning dial points at 0 |
| Safes.InstructionFromString | src/tools/safes/include/safes.hpp:43-49 | 'L' first means Left, anything else Right, and the steps are std::stoi of the rest; None for an empty string or a rest std::stoi rejects |
| Safes.InstructionRoundTrip | src/tools/safes/include/safes.hpp:43-49 | an instruction written as letter and number is read back |
| Safes.Step | src/tools/safes/include/safes.hpp:98-104 | one instruction leaves the dial on a position |
| Safes.EndOnZeroIsHit | src/tools/safes/include/safes.hpp:79-96 | a turn that comes to rest on 0 after moving points at 0 at least once |
| Safes.WalkAmountCountsTheWalk | src/tools/safes/include/safes.hpp:98-112 | counting along the turn apply_instruction makes, the dial ends where apply_instruction leaves it, the count is the number of moments that turn points at 0, and resting on 0 after a move counts |
| Safes.CountingAmountMissesRestOnZero | src/tools/safes/include/safes.hpp:106-112 | as written, from 10 on a dial of 100 "L10" rests on 0 and meets 0 once, yet the count is 0 |
| Safes.Safe.constructor | src/tools/safes/include/safes.hpp:58-64 | keeps the position and digits, with the dial size 10^digits |
| Safes.Safe.TurnRight | src/tools/safes/include/safes.hpp:70-73 | the new position is the wrapped sum |
| Safes.Safe.TurnLeft | src/tools/safes/include/safes.hpp:74-77 | the new position is the wrapped difference |
| Safes.Safe.TurnCountZeros | src/tools/safes/include/safes.hpp:79-96 | the count is the shortcut, which for a position on the dial is the number of zeros met, and the dial turns by the amount |
| Safes.Safe.ApplyInstruction | src/tools/safes/include/safes.hpp:98-104 | the position moves by Step |
| Safes.Safe.ApplyInstructionCountZeros | src/tools/safes/include/safes.hpp:106-112 | as written: Left counts and turns by +steps and Right by -steps, the reverse of apply_instruction |
| Safes.ParseEach | src/tools/safes/include/safes.hpp:129-131 | with InstructionFromString as the reader: one instruction per string, each what its string reads as, and None as soon as one string cannot be read |
| Safes.ParseEachAll | src/tools/safes/include/safes.hpp:129-131 | the list is read exactly when every string in it is |
| Safes.Positions | src/tools/safes/include/safes.hpp:120-136 | one position per instruction plus the initial one, which comes first |
| Safes.PositionsFollowSteps | src/tools/safes/include/safes.hpp:120-136 | each recorded position follows from the previous one by its instruction |
| Safes.GetPositions | src/tools/safes/include/safes.hpp:120-136 | the loop computes the positions, None when an instruction cannot be read or the digits are fewer than one |
| Safes.ZeroCountIsIndexCount | src/tools/safes/include/safes.hpp:163-171 | the count is the number of indices holding 0 |
| Safes.CountZeros | src/tools/safes/include/safes.hpp:163-171 | the loop counts the positions equal to 0 |
| Safes.Crack | src/tools/safes/include/safes.hpp:177-183 | the password is the number of recorded positions at 0 |
| Safes.Crossings | src/tools/safes/include/safes.hpp:141-158 | one (position, count) pair per instruction |
| Safes.CrossingsCountHits | src/tools/safes/include/safes.hpp:141-158 | each pair's count is the number of zeros met during that instruction's turn, from where the previous one left the dial |
| Safes.GetPositionZeroCrossings | src/tools/safes/include/safes.hpp:141-158 | the loop computes the pairs, None on an unreadable instruction or too few digits |
| Safes.CountSumNonNegative | src/tools/safes/include/safes.hpp:190-200 | a sum of hit counts is never negative |
| Safes.CrackTrue | src/tools/safes/include/safes.hpp:190-200 | the password is the sum of the per-instruction counts |
| Tail.LastNLines | src/tools/tail/include/tail.hpp:18-27 | the last min(n, length) lines, the whole input when n covers it |
| Tail.LastNLinesSnoc | src/tools/tail/include/tail.hpp:39-48 | the ring buffer invariant: adding a line to the kept ones and dropping the front when over n keeps the last n |
| Tail.LastNLinesIdempotent | src/tools/tail/include/tail.hpp:18-27 | taking the last n twice is taking them once |
| Tail.LastNLinesNested | src/tools/tail/include/tail.hpp:18-27 | the last m of the last n are the last min(m, n) |
| Tail.TailLines | src/tools/tail/include/tail.hpp:56-62 | always a success holding the last n input lines |
| Tail.TailFile | src/tools/tail/include/tail.hpp:30-53 | a file that cannot be opened gives "Cannot open file: " and the name; otherwise the buffered loop yields the last n lines |
| Printing.PadLines | src/tools/printing/include/printing.hpp:84-99 | a border of '.' above, below and on both sides of every line |
| Printing.PadLinesRoundTrip | src/tools/printing/include/printing.hpp:84-99 | removing the border gives the lines back |
| Printing.PadLinesRectangular | src/tools/printing/include/printing.hpp:84-99 | padding a rectangle gives a rectangle two wider |
| Printing.LineToRow | src/tools/printing/include/printing.hpp:107-114 | 1 for '@', 0 for anything else |
| Printing.LinesToGrid | src/tools/printing/include/printing.hpp:122-128 | each line converted |
| Printing.LinesToGridCells | src/tools/printing/include/printing.hpp:122-128 | a cell is 1 exactly where the line has '@' |
| Printing.ConvolveCellClipped | src/tools/printing/include/printing.hpp:139-148 | the loops compute the kernel-weighted sum with negatives clipped to 0 |
| Printing.NeighborsKernelIsNeighborSum | src/tools/printing/include/printing.hpp:33-38 | the neighbours kernel adds the eight cells around the centre |
| Printing.NeighborsKernelShape | src/tools/printing/include/printing.hpp:33-38 | the kernel is a valid 3 by 3 grid |
| Printing.GridConvolvePaddingAssumed | src/tools/printing/include/printing.hpp:170-206 | the loops build the convolution specification |
| Printing.ConvolveRow | src/tools/printing/include/printing.hpp:187-203 | one row of the convolution: -1 at both ends and for 0 cells, the clipped sum elsewhere |
| Printing.Convolved | src/tools/printing/include/printing.hpp:170-206 | the result of grid_convolve_padding_assumed as a definition; ConvolvedFrame, ConvolvedCellAt and ConvolvedEmpty state its shape, frame and cells |
| Printing.ConvolvedFrame | src/tools/printing/include/printing.hpp:170-206 | the result has the input's shape, a frame of -1, and the cell sums inside |
| Printing.ConvolvedCellAt | src/tools/printing/include/printing.hpp:191-199 | an inner cell holds its convolved value |
| Printing.ConvolvedEmpty | src/tools/printing/include/printing.hpp:172-178 | the result is empty exactly when a grid is invalid or smaller than the kernel |
| Printing.NeighborGridCounts | src/tools/printing/include/printing.hpp:297-300 | padding, converting and convolving gives a framed grid holding each roll's number of neighbouring rolls, -1 elsewhere |
| Printing.NeighborGridCell | src/tools/printing/include/printing.hpp:297-300 | one cell of that grid |
| Printing.PaddedConvolvedCell | src/tools/printing/include/printing.hpp:297-300 | the convolved padded grid counts the rolls around each roll |
| Printing.NeighborGridFramed | src/tools/printing/include/printing.hpp:297-300 | the neighbour grid has a -1 frame |
| Printing.RemovableMap | src/tools/printing/include/printing.hpp:240-250 | the map build_can_remove_map returns, as a definition; RemovableMapKeys states its keys and values |
| Printing.RemovableMapKeys | src/tools/printing/include/printing.hpp:240-250 | the map holds exactly the cells with a count from 0 to 3, mapped to their count |
| Printing.BuildCanRemoveMap | src/tools/printing/include/printing.hpp:240-250 | the loops build that map |
| Printing.RemoveOne | src/tools/printing/include/printing.hpp:266-274 | removing one cell keeps the grid's shape |
| Printing.RemoveCell | src/tools/printing/include/printing.hpp:266-274 | the loops decrement the non-negative neighbours, not below -1, and set the cell to -1 |
| Printing.RemovedAroundAdd | src/tools/printing/include/printing.hpp:263-275 | removing one more cell lowers a neighbour's count by one |
| Printing.RemovalStep | src/tools/printing/include/printing.hpp:263-275 | removing the cells one after another agrees with removing the set at once, so the map order does not matter |
| Printing.AfterRemovalNone | src/tools/printing/include/printing.hpp:263-275 | removing nothing changes nothing |
| Printing.RemoveAndUpdateMap | src/tools/printing/include/printing.hpp:261-279 | the grid after removing the map's cells and the map rebuilt from it |
| Printing.RemoveAll | src/tools/printing/include/printing.hpp:263-275 | the loop removes every cell of the set |
| Printing.AfterRemoval | src/tools/printing/include/printing.hpp:263-275 | removing a set of cells keeps the grid's shape; AfterRemovalCells, AfterRemovalShrinks and AfterRemovalFramed state its cells |
| Printing.AfterRemovalCells | src/tools/printing/include/printing.hpp:263-275 | a removed cell becomes -1, a cell with no removed neighbour keeps its value, and counts only fall |
| Printing.AfterRemovalShrinks | src/tools/printing/include/printing.hpp:263-275 | the cells still counted after a round are among the old ones minus the removed |
| Printing.AfterRemovalFramed | src/tools/printing/include/printing.hpp:263-275 | removal keeps the -1 frame |
| Printing.FramedBlocksInside | src/tools/printing/include/printing.hpp:266-273 | in a framed grid every removable cell has all its neighbours inside the grid |
| Printing.CanRemove | src/tools/printing/include/printing.hpp:218-220 | can_remove as a definition: a count from 0 to below the minimum of neighbours to keep |
| Printing.RemovableAreRolls | src/tools/printing/include/printing.hpp:218-220 | only cells with a count are removable |
| Printing.RoundsBound | src/tools/printing/include/printing.hpp:311-324 | the counts added over the rounds never exceed the cells there were |
| Printing.RoundShrinks | src/tools/printing/include/printing.hpp:313-316 | each round takes its removable cells away |
| Printing.NeighborGridRolls | src/tools/printing/include/printing.hpp:297-302 | the counted cells of the initial grid are exactly the rolls |
| Printing.TotalCanRemoveBound | src/tools/printing/include/printing.hpp:294-331 | the total never exceeds the number of rolls, whatever the iteration limit |
| Printing.NeighborGridOf | src/tools/printing/include/printing.hpp:297-300 | the grid of neighbour counts |
| Printing.RoundOf | src/tools/printing/include/printing.hpp:313-316 | one round of removal keeps the frame and rebuilds the map |
| Printing.TotalCanRemoveSpec | src/tools/printing/include/printing.hpp:294-331 | the value of total_can_remove as a definition; TotalCanRemoveBound bounds it by the number of rolls |
| Printing.TotalCanRemove | src/tools/printing/include/printing.hpp:294-331 | the loop adds the initial map size and each round's map size, for at most max_iterations rounds |
| Printing.CountRemovals | src/tools/printing/include/printing.hpp:311-324 | the loop of rounds computes the specified total |
| Tachyon.CellToChar | src/tools/tachyon-manifold/include/tachyon_manifold.hpp:39-52 | every cell has one of the four characters |
| Tachyon.CharToCell | src/tools/tachyon-manifold/include/tachyon_manifold.hpp:54-67 | exactly the four characters are accepted |
| Tachyon.CellCharRoundTrip | src/tools/tachyon-manifold/include/tachyon_manifold.hpp:39-67 | the two conversions are inverse |
| Tachyon.StringToRow | src/tools/tachyon-manifold/include/tachyon_manifold.hpp:69-75 | a row converts when every character is known, one cell per character |
| Tachyon.RowToString | src/tools/tachyon-manifold/include/tachyon_manifold.hpp:86-92 | one character per cell |
| Tachyon.RowRoundTrip | src/tools/tachyon-manifold/include/tachyon_manifold.hpp:69-92 | a rendered row reads back to itself |
| Tachyon.StringRoundTrip | src/tools/tachyon-manifold/include/tachyon_manifold.hpp:69-92 | a readable string renders back to itself |
| Tachyon.LinesToManifold | src/tools/tachyon-manifold/include/tachyon_manifold.hpp:77-84 | the lines convert when each does, row by row |
| Tachyon.ManifoldToStringIsJoin | src/tools/tachyon-manifold/include/tachyon_manifold.hpp:94-106 | the rows joined with newlines, no trailing newline |
| Tachyon.RowStrings | src/tools/tachyon-manifold/include/tachyon_manifold.hpp:94-106 | the rendered rows |
| Tachyon.RenderedRowsIsJoin | src/tools/tachyon-manifold/include/tachyon_manifold.hpp:96-100 | each row followed by a newline |
| Tachyon.RowStepWritesBeams | src/tools/tachyon-manifold/include/tachyon_manifold.hpp:130-160 | the next row only gains beams, cells past the scan are untouched, and there are at most as many splits as beams |
| Tachyon.RowStepLights | src/tools/tachyon-manifold/include/tachyon_manifold.hpp:130-160 | below a start, and below or beside a beam meeting a splitter, the next row has a beam |
| Tachyon.CellStepWrites | src/tools/tachyon-manifold/include/tachyon_manifold.hpp:131-159 | one cell's step only writes beams |
| Tachyon.CellStep | src/tools/tachyon-manifold/include/tachyon_manifold.hpp:131-159 | one column of the loop keeps the row and count widths; CellStepWrites, CellStepLights and SplitCounts state its effect |
| Tachyon.Split | src/tools/tachyon-manifold/include/tachyon_manifold.hpp:139-152 | a beam meeting a splitter keeps the row and count widths; SplitCounts states the counts it moves |
| Tachyon.SplitCounts | src/tools/tachyon-manifold/include/tachyon_manifold.hpp:139-152 | each in-range neighbour of a split becomes a beam and gains the beam's old count plus its own, the split column drops to 0 when a neighbour exists, one split is counted and the columns beyond the neighbours keep their cells and counts |
| Tachyon.RowStep | src/tools/tachyon-manifold/include/tachyon_manifold.hpp:130-160 | the first n columns of the loop keep the row and count widths; RowStepWritesBeams, RowStepLights and RowStepUntouched state its effect |
| Tachyon.CellStepLights | src/tools/tachyon-manifold/include/tachyon_manifold.hpp:131-159 | one cell's step lights what it should |
| Tachyon.RowStepUntouched | src/tools/tachyon-manifold/include/tachyon_manifold.hpp:130-160 | a cell with no start or beam at or next to it above keeps its value and count |
| Tachyon.Update | src/tools/tachyon-manifold/include/tachyon_manifold.hpp:122-170 | one update keeps the state consistent |
| Tachyon.UpdateAdvances | src/tools/tachyon-manifold/include/tachyon_manifold.hpp:122-170 | without a next row nothing changes; else one more row is completed, only the next row changes and splits do not fall |
| Tachyon.UpdateSplitsBound | src/tools/tachyon-manifold/include/tachyon_manifold.hpp:137-156 | a row adds at most as many splits as it has beams |
| Tachyon.HasMoreRows | src/tools/tachyon-manifold/include/tachyon_manifold.hpp:185-187 | has_more_rows as a definition: fewer rows completed than all but the last; RunToEndFinishes shows solving stops when it turns false |
| Tachyon.RunToEndFinishes | src/tools/tachyon-manifold/include/tachyon_manifold.hpp:177-183 | solving ends on the last row, keeps the completed rows and never loses splits |
| Tachyon.TachyonManifold.constructor | src/tools/tachyon-manifold/include/tachyon_manifold.hpp:109-111 | no row completed, no split, one zero count per column of the first row |
| Tachyon.TachyonManifold.FromLines | src/tools/tachyon-manifold/include/tachyon_manifold.hpp:109-111 | None exactly when a character is unknown, else the initial state of the parsed manifold |
| Tachyon.TachyonManifold.CurrentRowAsString | src/tools/tachyon-manifold/include/tachyon_manifold.hpp:114-120 | the current row's text reads back to the current row |
| Tachyon.TachyonManifold.UpdateManifold | src/tools/tachyon-manifold/include/tachyon_manifold.hpp:122-170 | the object's state moves by Update |
| Tachyon.TachyonManifold.SplitBeam | src/tools/tachyon-manifold/include/tachyon_manifold.hpp:139-152 | the split writes beams beside the splitter and moves the timeline counts |
| Tachyon.TachyonManifold.Solve | src/tools/tachyon-manifold/include/tachyon_manifold.hpp:177-183 | the state runs to the end; the result is the splits and the sum of the timeline counts |
| Tachyon.TachyonManifold.ManifoldLines | src/tools/tachyon-manifold/include/tachyon_manifold.hpp:195-202 | the completed rows and the current one, each reading back to its row |
| Cephalopods.CharOperator | src/tools/cephalopods/include/cephalopods.hpp:24-40 | '+' and '*' are the operators, each rendering back to its character |
| Cephalopods.ProductZero | src/tools/cephalopods/include/cephalopods.hpp:148-153 | a product is 0 exactly when a factor is 0 |
| Cephalopods.ReadLoop | src/tools/cephalopods/include/cephalopods.hpp:52-60 | the extraction loop reads every value the reader yields |
| Cephalopods.ReadNumber | src/tools/cephalopods/include/cephalopods.hpp:52-60 | one `>> long long` extraction consumes at least one character when it reads, so the extraction loop ends |
| Cephalopods.ReadAllOfJoined | src/tools/cephalopods/include/cephalopods.hpp:52-60 | values written with single spaces, each rendering read back whole, are read back in order by the extraction loop |
| Cephalopods.GetIntsFromLine | src/tools/cephalopods/include/cephalopods.hpp:52-60 | the numbers `>>` extracts from a line |
| Cephalopods.ReadDigitsOf | src/tools/cephalopods/include/cephalopods.hpp:52-60 | a sign and digits followed by a non-digit read as their value |
| Cephalopods.ReadNumberOfInt | src/tools/cephalopods/include/cephalopods.hpp:52-60 | a decimal rendering reads back as its integer |
| Cephalopods.IntsFromLineRoundTrip | src/tools/cephalopods/include/cephalopods.hpp:52-60 | numbers written with single spaces are read back in order |
| Cephalopods.GetOperatorsFromLine | src/tools/cephalopods/include/cephalopods.hpp:76-84 | the operators `>>` extracts from a line |
| Cephalopods.ReadOperatorOf | src/tools/cephalopods/include/cephalopods.hpp:24-40 | an operator's character reads as that operator |
| Cephalopods.ReadOperator | src/tools/cephalopods/include/cephalopods.hpp:24-40 | one `>> HomeworkOperator` extraction consumes at least one character when it reads |
| Cephalopods.OperatorsFromLineRoundTrip | src/tools/cephalopods/include/cephalopods.hpp:76-84 | operators written with single spaces are read back in order |
| Cephalopods.PositionsFromSound | src/tools/cephalopods/include/cephalopods.hpp:86-113 | every listed operator is at its position, in increasing order |
| Cephalopods.PositionsFromComplete | src/tools/cephalopods/include/cephalopods.hpp:86-113 | every operator character of the line is listed |
| Cephalopods.GetOperatorsWithPositions | src/tools/cephalopods/include/cephalopods.hpp:86-113 | the loop lists the operators with their columns |
| Cephalopods.CellValue | src/tools/cephalopods/include/cephalopods.hpp:64-74 | a digit's value, 0 for anything else |
| Cephalopods.GetIntsFromLineTrue | src/tools/cephalopods/include/cephalopods.hpp:64-74 | one value per character, the digit or 0 |
| Cephalopods.GetInputsTrue | src/tools/cephalopods/include/cephalopods.hpp:117-125 | every line but the last converted |
| Cephalopods.NaiveReadsRendered | src/tools/cephalopods/include/cephalopods.hpp:127-140 | rows of numbers and a line of operators written with spaces are read back |
| Cephalopods.AddColumn | src/tools/cephalopods/include/cephalopods.hpp:142-146 | the std::accumulate of a column from 0, as a definition; ColumnFolds proves it is the column's sum |
| Cephalopods.MultiplyColumn | src/tools/cephalopods/include/cephalopods.hpp:148-153 | the std::accumulate of a column from 1 by multiplication, as a definition; ColumnFolds proves it is the column's product and 0 exactly when an entry is |
| Cephalopods.ColumnFolds | src/tools/cephalopods/include/cephalopods.hpp:142-153 | AddColumn and MultiplyColumn are the sum and product of the column, and the product is 0 exactly when an entry is |
| Cephalopods.PopDigit | src/tools/cephalopods/include/cephalopods.hpp:171-188 | the last digit splits off the stacked value: it is worth the current power of ten and the rest the next one |
| Cephalopods.StackedDigits | src/tools/cephalopods/include/cephalopods.hpp:171-188 | stacking the digits top to bottom is their decimal value |
| Cephalopods.ColumnDigits | src/tools/cephalopods/include/cephalopods.hpp:171-188 | the non-zero digits of a column, top to bottom |
| Cephalopods.NonZeroColumnOfRows | src/tools/cephalopods/include/cephalopods.hpp:171-188 | the column's non-zero entries are those digits |
| Cephalopods.ColumnIsDecimal | src/tools/cephalopods/include/cephalopods.hpp:171-188 | get_column reads a column's digits top to bottom as a decimal number, blanks skipped |
| Cephalopods.ColumnExample | src/tools/cephalopods/unit_tests/test_cephalopods.cpp:77-94 | a column of 1, 4, 6 reads 146 |
| Cephalopods.NaiveExamples | src/tools/cephalopods/unit_tests/test_cephalopods.cpp:8-26 | the addition example gives 21 and the multiplication one 32 |
| Cephalopods.RectangularIsWellFormed | src/tools/cephalopods/include/cephalopods.hpp:198-240 | rectangular input meets what solve_true indexes |
| Cephalopods.Homework.constructor | src/tools/cephalopods/include/cephalopods.hpp:127-140 | the true reading keeps digit rows and operator positions; the naive one reads numbers and operators |
| Cephalopods.SolveNaive | src/tools/cephalopods/include/cephalopods.hpp:155-169 | the answer of solve() as a definition: the sum over the first n columns of their sum or product; SolveNaiveOfThree and NaiveExamples state values of it |
| Cephalopods.Homework.Solve | src/tools/cephalopods/include/cephalopods.hpp:155-169 | the sum over columns of their sum or product by operator |
| Cephalopods.Homework.GetColumn | src/tools/cephalopods/include/cephalopods.hpp:171-188 | the loop computes the column's stacked value |
| Cephalopods.Homework.GetProblemInputs | src/tools/cephalopods/include/cephalopods.hpp:190-196 | the column values of a problem |
| Cephalopods.ProblemWidth | src/tools/cephalopods/include/cephalopods.hpp:207-210 | the width passed to get_problem_inputs, as a definition: up to the next operator, or for the last one to the end of the first row, minus one |
| Cephalopods.SolveTrueSpec | src/tools/cephalopods/include/cephalopods.hpp:198-240 | the answer of solve_true as a definition: the sum over the first n problems of the sum or product of their column values |
| Cephalopods.Homework.SolveTrue | src/tools/cephalopods/include/cephalopods.hpp:198-240 | the sum over operators of their problem's result |
| Cephalopods.DoHomework | src/tools/cephalopods/include/cephalopods.hpp:244-258 | None for no lines, else the naive answer |
| Cephalopods.DoHomeworkTrue | src/tools/cephalopods/include/cephalopods.hpp:260-274 | None for no lines, else the true answer |
| MaxJoltage.LineToVector | src/tools/maxjoltage/include/maxjoltage.hpp:11-17 | every character read as a digit; None exactly when one is not a digit |
| MaxJoltage.MaxOf | src/tools/maxjoltage/include/maxjoltage.hpp:31 | std::max_element: an entry at least as large as every entry |
| MaxJoltage.Find | src/tools/maxjoltage/include/maxjoltage.hpp:34-35 | std::find: the leftmost index holding the value |
| MaxJoltage.MaximumJoltage | src/tools/maxjoltage/include/maxjoltage.hpp:19-45 | 0 for an empty line, the digit for one character, None when a character is not a digit |
| MaxJoltage.FirstAt | src/tools/maxjoltage/include/maxjoltage.hpp:31-35 | the first digit chosen is before the last position |
| MaxJoltage.SecondAt | src/tools/maxjoltage/include/maxjoltage.hpp:39-40 | the second digit chosen is after the first |
| MaxJoltage.BestPairOf | src/tools/maxjoltage/include/maxjoltage.hpp:27-44 | the vector search as a definition: 10 times the largest entry before the last, plus the largest entry after its leftmost occurrence; BestPairOfIsBest proves it is the best pair |
| MaxJoltage.BestPairOfIsBest | src/tools/maxjoltage/include/maxjoltage.hpp:27-44 | the search finds the largest 10 v[a] + v[b] with a before b, and its pair reaches it |
| MaxJoltage.MaximumJoltageLong | src/tools/maxjoltage/include/maxjoltage.hpp:27-44 | a line of two digits or more goes through the vector search |
| MaxJoltage.MaximumJoltageIsBestPair | src/tools/maxjoltage/include/maxjoltage.hpp:19-45 | for two digits or more the answer is the largest two-digit number formed by a digit and a later one, and some pair reaches it |
| MovieTheatre.ParseLine | src/tools/movie-theatre/include/movie_theatre.hpp:54-74 | None without a comma; a point's coordinates are within the int range |
| MovieTheatre.ParseSides | src/tools/movie-theatre/include/movie_theatre.hpp:65-73 | a point exactly when std::stoi reads both sides, and it is the pair of their values |
| MovieTheatre.ParseLineRoundTrip | src/tools/movie-theatre/include/movie_theatre.hpp:54-74 | a point written "x,y" is read back |
| MovieTheatre.ParseAll | src/tools/movie-theatre/include/movie_theatre.hpp:77-89 | the candidate list as a definition: the lines parse_line accepts, in order; the ParseAll lemmas state its properties |
| MovieTheatre.ParseAllAppend | src/tools/movie-theatre/include/movie_theatre.hpp:77-89 | parsing two blocks of lines keeps their order |
| MovieTheatre.ParseAllAtMost | src/tools/movie-theatre/include/movie_theatre.hpp:77-89 | there are never more candidates than lines |
| MovieTheatre.ParseAllKeepsAccepted | src/tools/movie-theatre/include/movie_theatre.hpp:77-89 | when every line parses the candidates are their points in order |
| MovieTheatre.ParseAllDropsRejected | src/tools/movie-theatre/include/movie_theatre.hpp:77-89 | when no line parses there are no candidates |
| MovieTheatre.ParseInputData | src/tools/movie-theatre/include/movie_theatre.hpp:77-89 | the loop keeps the parsed lines and skips the rest |
| MovieTheatre.Before | src/tools/movie-theatre/include/movie_theatre.hpp:40-46 | the comparison of sort_by_x_then_y: by x, then by y |
| MovieTheatre.SortedByXThenY | src/tools/movie-theatre/include/movie_theatre.hpp:40-46 | no later entry comes before an earlier one, as a definition; SortedUnique shows it fixes the order |
| MovieTheatre.SortedUnique | src/tools/movie-theatre/include/movie_theatre.hpp:40-46 | two sorted orderings of the same points are equal, so the sort's result does not depend on the algorithm |
| MovieTheatre.MovieTheatreState.constructor | src/tools/movie-theatre/include/movie_theatre.hpp:17-18 | keeps the lines and parses the corner candidates from them |
| MovieTheatre.MovieTheatreState.Maximise | src/tools/movie-theatre/include/movie_theatre.hpp:21-27 | the stub answers 0 |
| MovieTheatre.MovieTheatreState.InvalidHasNoCandidates | src/tools/movie-theatre/include/movie_theatre.hpp:30-33 | input that fails validation has no candidates |
| MovieTheatre.MovieTheatreState.SortByXThenY | src/tools/movie-theatre/include/movie_theatre.hpp:40-46 | the array ends sorted by x then y, a permutation of what it held |
| MovieTheatre.MovieTheatreState.InsertAt | src/tools/movie-theatre/include/movie_theatre.hpp:40-46 | one more entry joins the sorted prefix, the array a permutation of before |
| MovieTheatre.MovieTheatreState.Distance | src/tools/movie-theatre/include/movie_theatre.hpp:91-94 | the Manhattan distance is non-negative and 0 exactly for equal points |
| MovieTheatre.DistanceMetric | src/tools/movie-theatre/include/movie_theatre.hpp:91-94 | the distance is symmetric and obeys the triangle inequality |
| MovieTheatre.SortExample | src/tools/movie-theatre/unit_tests/test_movie_theatre.cpp:85-111 | the order the sort test expects is sorted by x then y |
| MovieTheatre.SkipsLineWithoutComma | src/tools/movie-theatre/unit_tests/test_movie_theatre.cpp:42-49 | a line without a comma between two points is skipped |

## Left out

- Terminal I/O is not modelled: termios raw mode, the alternate screen, cursor movement, ANSI sequences, `get_key`, signal handler installation, and the destructor. The frame buffer writes are a sequence of (row, text) pairs, and the terminal size is an input.
- `run_loop` is not modelled because it sleeps and reads keys. Its parts are modelled: `flush`, `quit`, and the resize flag set by `SignalResize`.
- The counter screen of the demo is not modelled because it formats the wall-clock time with `snprintf`. The Pascal screen takes the elapsed milliseconds as an input.
- Handlers are their exit codes. `printf`/`std::cout` output of `help` and errors is the returned text.
- Integer widths are not modelled:
  - `int` and `long long` overflow in the safe dial, the Manhattan distance, the Pascal entries (beyond row 66) and the homework sums;
  - `std::pow` is taken as exact 10^n.
  - `std::stoi`'s out-of-range exception is modelled, because the input is text.
- Cephalopods.GetIntsFromLine: `operator>>` into `long long` is modelled as reading an optional sign and digits. Stream failure on out-of-range values and other stream state are not modelled.
- Safes.Safe.constructor: requires at least one digit. The `std::invalid_argument` it throws otherwise is the `None` of `GetPositions`, `GetPositionZeroCrossings`, `Crack` and `CrackTrue`.
- Safes.Safe.ApplyInstructionCountZeros: keeps the code's reversed direction, which is listed under Findings. `GetPositionZeroCrossings` and `CrackTrue` use it as written.
- Printing: the `std::map` is modelled as a Dafny map, and its iteration order is not modelled. `RemovalStep` shows that the removal order does not change the result.
- Printing: the printing helpers (`print_grid`, `print_can_remove_map`), the verbose trace and the max-iterations warning are not modelled.
- Printing: `total_can_remove` requires rectangular input. The code indexes outside a ragged grid, which is undefined behaviour.
- Tachyon: the trace of timeline counts on `std::cerr` is not modelled.
- Tachyon: `get_rows_completed`, `get_total_rows` and `get_beam_splits_count` are plain field reads and are not modelled.
- Tachyon: the destructor is declared but never defined, so it is not modelled.
- Tachyon: rows of different widths are not modelled, because the code indexes them out of bounds.
- Tachyon.TachyonManifold.FromLines: the constructor's `std::invalid_argument` on an unknown character is this factory's `None`.
- MaxJoltage: the `printf` trace is not modelled.
- MovieTheatre.MovieTheatreState.SortByXThenY: `std::sort` is modelled as insertion sort. `SortedUnique` shows that any sort yields the same sequence.
- MovieTheatre: the `std::cerr` warning for a skipped line is not modelled.
- MovieTheatre: the test that expects 50 from `maximise` is not modelled, because `maximise` is a stub returning 0.
- Cli: the command tree is stored as a map from full paths to nodes, rather than nodes holding maps of children. `FindCommandIsLookup` shows that lookups agree.
- Cli: `parse(argc, argv)` is reduced to dropping the program name (`ArgvToArgs`). The conversion of C strings is not modelled.

## Findings

| source | as written | input that shows it | evidently intended | confidence | as-written member | corrected member |
|---|---|---|---|---|---|---|
| src/tools/fullscreen_demo/main.cpp:231-262 | the shown row is capped at `size.rows - 5`, and rows 0 to the cap are drawn. The frame is 2 header lines, cap + 1 triangle lines and 3 footer lines, which is rows + 1 lines. `set_content` then drops the last line, "Press 'q' or Ctrl-C to exit" | a 24-row terminal after 9.5 s or more: cap 19 gives 25 lines | the cap leaves room for header and footer: `size.rows - 6` | high (proved; not executed) | FullscreenDemo.PascalOverflowsAtCap | FullscreenDemo.PascalFitsWithCorrectedCap |
| src/tools/safes/include/safes.hpp:106-112 | `apply_instruction_count_zeros` passes +steps to `turn_count_zeros` for Left and -steps for Right. It turns and counts the reverse of the turn `apply_instruction` makes, so `crack_true` counts zeros for a mirrored walk | initial position 10, dial of 100, instruction "L10": `apply_instruction` rests on 0, the count is 0 | count along the turn `apply_instruction` makes: -steps for Left, +steps for Right. The mirrored walk gives the same totals only when the dial starts at 0 or at half its size | medium (proved; not executed) | Safes.CountingAmountMissesRestOnZero | Safes.WalkAmountCountsTheWalk |
