# Retrace and compiler wrappers of the R8 prebuilts, modelled in Dafny

This project models the command-line tools that ship with the platform's R8
prebuilts.

**retrace** reads a stack trace and rewrites its obfuscated frames with the
help of ProGuard mapping files. Four parts are modelled:

- **Line parsing.** An input line is an exception line (`Exception in thread "…" `,
  `Caused by: `, `Suppressed: `) or a frame line (`at <class>.<method>(<source>[:<line>])`).
  Each is a line with a hole that can be plugged with a new text.
- **The mapping table.** `RETRACERS` maps a map id to a lazy retracer. It is
  filled from the checkout or from the build server:
  - in the checkout: the prebuilt R8 map, and `proguard_dictionary` files found
    below the search paths;
  - on the build server: `mappings: { … }` blocks of meta-mapping files, each
    naming a remote map that `fetch_artifact` downloads on first use.
- **The retrace loop.** It groups an optional exception line with the run of
  frames that share the first frame's source file. It then picks a retracer
  from the source-file marker (`R8_<version>_<hash>` or `go/retraceme <hash>`),
  falling back to the default map.
- **Printing.** Each result is printed as a root-to-leaf path of result nodes.
  More than one result gets a banner, and `<OR>` lines separate the results.

The model also covers `main`'s flag loop, `parseSearchPath`,
`findDefaultRetracer`, the map-table listing and the held-back `Info:` and
`Warning:` messages.

The **d8** and **r8** wrappers read their own flags out of the argument list
before handing the rest to the compiler:

- `D8Wrapper` checks the shard and no-dex flags and splits class files
  between program and class path by shard.
- `R8Wrapper` records about a dozen switches, two resource paths and a deps
  file, and collects ProGuard rules. `applyWrapperArguments` then turns these
  into compiler configuration.
- `DepsFileWriter` collects input dependencies in a set and writes them as
  one make rule, with spaces escaped.

## Modules

| file | module | what it models |
|---|---|---|
| `wrappers.dfy` | `Wrappers` | `Option` and `Result` |
| `sequences.dfy` | `Sequences` | sequence facts the proofs share |
| `javastring.dfy` | `JavaString` | `indexOf`, `lastIndexOf`, `trim`, `replace`, `Integer.parseInt`/`toString` |
| `ordering.dfy` | `StringOrder` | `String.compareTo` order and sorting of a set of strings |
| `console.dfy` | `Console` | standard output, standard error and the held-back messages |
| `lines.dfy` | `StackLines` | `LineWithHole`, `FrameLine`, `ExceptionLine`, `tryParseFrameLine`, `indexOfExceptionStart`, `tryParseExceptionLine` |
| `identity.dfy` | `MapIdentity` | `BuildInfo`, `MapInfo`, the source-file markers, the mapping-file header and `getQuotedString` |
| `resolvers.dfy` | `Resolvers` | the file system and `fetch_artifact` as values; `fetchArtifactCommand`, `fetchArtifact`, `fetchArtifactGlob`, the lazy retracers |
| `metamapping.dfy` | `MetaMapping` | the meta-mapping block parser and `deriveMappingFileFromMetaMapping` |
| `registry.dfy` | `Registry` | `RETRACERS`, both ways of filling it, `findDefaultRetracer`, the map table |
| `reconstruct.dfy` | `Reconstruction` | `ResultNode`, `retraceOptionalExceptionLine`, `retraceFrameRecursive` and the printing of `retraceStackTrace` |
| `orchestrator.dfy` | `Retracing` | `determineRetracer`, `retraceStackTrace` and `retrace` |
| `retrace_cli.dfy` | `RetraceCli` | `parseSearchPath` and `main` |
| `deps_file_writer.dfy` | `DepsFile` | `DepsFileWriter` |
| `d8_wrapper.dfy` | `D8` | `D8Wrapper` |
| `r8_wrapper.dfy` | `R8` | `R8Wrapper` |

The retrace loop is stated against specification functions.

- `Segments` is what the passes read, one segment per pass.
- `Output` is what the passes print and how the run ends.
- The loop methods are proved to print exactly `Output(Segments(…))`.

An input line is abstracted as a `Reading`: the line plus what the two line
parsers make of it. This keeps the parsers out of the loop's proofs.

The R8 library's `Retracer` is a parameter: a function from a map file to a
retracer. That retracer answers `retraceThrownException` and `retraceFrame`
as given sequences.

### Behaviour worth noting

- An `R8_<version>_<hash>` marker is looked up under its **version**, which is
  the `MapInfo` id. The hash is not used for the lookup
  (`src/com/android/tools/r8wrappers/retrace/RetraceWrapper.java:396-401`).
- An R8 marker with no table entry records an `Info:` message. The lookup then
  falls through to the AOSP lookup, which never matches an R8 marker, and then
  to the default map
  (`src/com/android/tools/r8wrappers/retrace/RetraceWrapper.java:573-583`).
- A location whose text after the last `:` is not an int gives no line number.
  Its source file is still only the text before that `:`
  (`src/com/android/tools/r8wrappers/retrace/RetraceWrapper.java:449-457`).

Two quirks are kept:

- The hole of an escaping exception starts at the closing quote.
- `tryParseFrameLine` throws when the last `.` before `(` lies before the
  class start. This is the `OutOfBounds` outcome, and it ends the run.

Printing a missing result node ends the run in the same way: a
`NullPointerException` in `ResultNode.print`.

## Model

| member | source | states |
|---|---|---|
| JavaString.IndexOfChar | src/com/android/tools/r8wrappers/retrace/RetraceWrapper.java:430-436 | `indexOf(c, from)` is -1 exactly when no index at or after `from` holds `c`; otherwise it holds `c` and nothing between `from` and it does |
| JavaString.LastIndexOfBefore | src/com/android/tools/r8wrappers/retrace/RetraceWrapper.java:438 | `lastIndexOf(c, i)` is -1 exactly when no index at or below `i` holds `c`; otherwise it holds `c` and nothing after it up to `i` does |
| JavaString.IndexOfSub | src/com/android/tools/r8wrappers/retrace/RetraceWrapper.java:426 | `indexOf(pat, from)` is -1 exactly when `pat` occurs nowhere at or after `from`; otherwise it is the first such occurrence |
| JavaString.TrimStartSpec | src/com/android/tools/r8wrappers/retrace/RetraceWrapper.java:1107 | trim drops exactly the longest prefix of characters at or below `' '` |
| JavaString.TrimEndSpec | src/com/android/tools/r8wrappers/retrace/RetraceWrapper.java:1107 | trim drops exactly the longest suffix of characters at or below `' '` |
| JavaString.TrimSpec | src/com/android/tools/r8wrappers/retrace/RetraceWrapper.java:1107 | the result of trim is a slice of the input that neither starts nor ends with a trimmed character |
| JavaString.TrimOfClean | src/com/android/tools/r8wrappers/retrace/RetraceWrapper.java:1107 | trim leaves a string with clean ends unchanged |
| JavaString.ReplaceAbsent | src/com/android/tools/r8wrappers/retrace/RetraceWrapper.java:844 | `replace` of a pattern that does not occur changes nothing |
| JavaString.ReplaceTrailing | src/com/android/tools/r8wrappers/retrace/RetraceWrapper.java:844 | when the pattern occurs only at the end, `replace` rewrites exactly that occurrence |
| JavaString.ParseJavaInt | src/com/android/tools/r8wrappers/retrace/RetraceWrapper.java:452-457 | `Integer.parseInt` gives only values in the 32-bit range, and only for text starting with a digit or a sign |
| JavaString.ParseSigned | src/com/android/tools/r8wrappers/retrace/RetraceWrapper.java:452-457 | text read as a sign (none, `+` or `-`) and the rest is accepted exactly when the rest is a non-empty run of digits whose signed value fits in 32 bits, and then it is that value |
| JavaString.LeadingZero | src/com/android/tools/r8wrappers/retrace/RetraceWrapper.java:452-457 | a leading zero does not change the value of a digit run |
| JavaString.ParseExamples | src/com/android/tools/r8wrappers/retrace/RetraceWrapper.java:452-457 | `+7` and `007` read as 7; `12a`, the empty text and a lone `-` are refused |
| JavaString.ParseRangeEdges | src/com/android/tools/r8wrappers/retrace/RetraceWrapper.java:452-457 | `2147483647` and `-2147483648` read back; `2147483648` is refused |
| JavaString.NatToStringSpec | src/com/android/tools/r8wrappers/retrace/RetraceWrapper.java:694 | `Integer.toString` of a non-negative value is digits without a leading zero that read back as the value |
| JavaString.ParseRendered | src/com/android/tools/r8wrappers/retrace/RetraceWrapper.java:452-457 | `parseInt` reads back what `toString` writes, for every int |
| JavaString.NatToStringInjective | src/com/android/tools/r8wrappers/retrace/RetraceWrapper.java:694 | distinct line numbers are written differently |
| StringOrder.LessIrreflexive | src/com/android/tools/r8wrappers/retrace/RetraceWrapper.java:1025 | `String::compareTo` order: no string is below itself |
| StringOrder.LessAsymmetric | src/com/android/tools/r8wrappers/retrace/RetraceWrapper.java:1025 | `String::compareTo` order is asymmetric |
| StringOrder.LessTransitive | src/com/android/tools/r8wrappers/retrace/RetraceWrapper.java:1025 | `String::compareTo` order is transitive |
| StringOrder.LessTotal | src/com/android/tools/r8wrappers/retrace/RetraceWrapper.java:1025 | of two distinct strings one is below the other |
| StringOrder.Insert | src/com/android/tools/r8wrappers/retrace/RetraceWrapper.java:1024-1025 | inserting into an ascending list keeps it ascending and adds exactly the new element |
| StringOrder.StrictlySortedUnique | src/com/android/tools/r8wrappers/utils/DepsFileWriter.java:50-51 | two ascending lists of the same elements are equal, so sorting a hash set does not depend on its iteration order |
| StringOrder.SortedList | src/com/android/tools/r8wrappers/retrace/RetraceWrapper.java:1024-1025 | copying a set to a list and sorting gives its elements, each once, in ascending order |
| Console.Console.Info | src/com/android/tools/r8wrappers/retrace/RetraceWrapper.java:338-340 | the message is held back behind `Info: `; nothing is printed |
| Console.Console.Warning | src/com/android/tools/r8wrappers/retrace/RetraceWrapper.java:342-344 | the message is held back behind `Warning: `; nothing is printed |
| Console.Console.Flush | src/com/android/tools/r8wrappers/retrace/RetraceWrapper.java:334-336 | every held-back message goes to standard error, in order; the list is not cleared |
| Console.Console.Fail | src/com/android/tools/r8wrappers/retrace/RetraceWrapper.java:346-349 | `error` flushes the held-back messages and then ends the run with the message |
| MapIdentity.SuffixesDiffer | src/com/android/tools/r8wrappers/retrace/RetraceWrapper.java:185-191 | the meta-mapping suffix ends in `.textproto`, the mapping suffix in `.zip`, and they differ |
| MapIdentity.AospMarkerShape | src/com/android/tools/r8wrappers/retrace/RetraceWrapper.java:504-512 | a `go/retraceme ` marker is read exactly from source files starting with it, and names id and hash alike |
| MapIdentity.R8MarkerShape | src/com/android/tools/r8wrappers/retrace/RetraceWrapper.java:514-526 | an `R8_` marker is read exactly when a `_` follows the prefix; the version runs to the first such `_` and the hash is the rest |
| MapIdentity.AospMarkerRoundTrip | src/com/android/tools/r8wrappers/retrace/RetraceWrapper.java:504-512 | an AOSP marker reads back the hash written into it |
| MapIdentity.R8MarkerRoundTrip | src/com/android/tools/r8wrappers/retrace/RetraceWrapper.java:514-526 | an R8 marker reads back its version and hash when the version holds no `_` |
| MapIdentity.MarkersExclusive | src/com/android/tools/r8wrappers/retrace/RetraceWrapper.java:318-321 | no source file carries both markers |
| MapIdentity.TryParseMapHeaderLine | src/com/android/tools/r8wrappers/retrace/RetraceWrapper.java:417-422 | a value exactly when the line starts with the marker, and then the rest of the line |
| MapIdentity.HeaderLengthSpec | src/com/android/tools/r8wrappers/retrace/RetraceWrapper.java:355-359 | the header is the leading run of `#` lines: every line in it is a comment and the line after it is not |
| MapIdentity.FirstHeaderValueSpec | src/com/android/tools/r8wrappers/retrace/RetraceWrapper.java:360-365 | a value is found exactly when some header line carries the marker, and it comes from the first such line |
| MapIdentity.ReadMapHeaderInfo | src/com/android/tools/r8wrappers/retrace/RetraceWrapper.java:351-372 | the reading loop gives the first id and first hash header of the leading comment lines, when both are there |
| MapIdentity.HeaderIgnoresBody | src/com/android/tools/r8wrappers/retrace/RetraceWrapper.java:357-358 | lines after the first non-comment line never change the result |
| MapIdentity.DeclaredMapInfo | src/com/android/tools/r8wrappers/retrace/RetraceWrapper.java:351-372 | a file opening with its id and hash headers is identified by them; later headers do not override them |
| MapIdentity.QuotedRoundTrip | src/com/android/tools/r8wrappers/retrace/RetraceWrapper.java:837-839 | a value written between quotes reads back whole, inner quotes included, when the text around it has none |
| MapIdentity.QuotedNeedsTwo | src/com/android/tools/r8wrappers/retrace/RetraceWrapper.java:837-839 | with fewer than two quotes `getQuotedString` fails |
| StackLines.PlugSplices | src/com/android/tools/r8wrappers/retrace/RetraceWrapper.java:245-247 | `plug(s)` is the text before the hole, then `s`, then the text after it |
| StackLines.PlugHoleText | src/com/android/tools/r8wrappers/retrace/RetraceWrapper.java:245-247 | plugging the hole with its own text gives the line back |
| StackLines.PlugInjective | src/com/android/tools/r8wrappers/retrace/RetraceWrapper.java:245-247 | different replacements give different lines |
| StackLines.LocationSplit | src/com/android/tools/r8wrappers/retrace/RetraceWrapper.java:446-461 | without a `:` the location is the source file and there is no line number; with one the source file ends at the last `:` and the line number is there exactly when the rest parses as an int |
| StackLines.FrameParseOutcome | src/com/android/tools/r8wrappers/retrace/RetraceWrapper.java:424-470 | no frame exactly when `at `, a `(` after it, a `)` after that or a `.` before the `(` is missing; out of bounds exactly when that `.` lies before the class start; otherwise a frame whose hole runs from the class start through the `)` |
| StackLines.FrameAfterFirstAt | src/com/android/tools/r8wrappers/retrace/RetraceWrapper.java:442-444 | the hole of a frame starts right after the first `at ` |
| StackLines.FrameHoleText | src/com/android/tools/r8wrappers/retrace/RetraceWrapper.java:438-465 | the hole reads `<class>.<method>(<location>)`; the location has no `)`, the class no `(`, the method neither `(` nor `.` |
| StackLines.FrameRoundTrip | src/com/android/tools/r8wrappers/retrace/RetraceWrapper.java:424-470 | a frame line written with indentation, `at ` and a frame text parses back to its class, method, source file and line number, with the hole covering exactly that text |
| StackLines.LocationClean | src/com/android/tools/r8wrappers/retrace/RetraceWrapper.java:687-695 | the location written into a rewritten frame holds no `)` when its source file holds none |
| StackLines.LocationOfRendered | src/com/android/tools/r8wrappers/retrace/RetraceWrapper.java:446-461 | a written `<source>[:<line>]` reads back to its source file and line number |
| StackLines.IndexOfExceptionStart | src/com/android/tools/r8wrappers/retrace/RetraceWrapper.java:472-489 | the class start is -1 or a position after the start of the line and within it |
| StackLines.CausedByRoundTrip | src/com/android/tools/r8wrappers/retrace/RetraceWrapper.java:472-502 | a line holding `Caused by: <class>:` at some position, with no earlier `Caused by: ` and no thread marker, has its class start right after the marker and parses to that class, the hole covering exactly it |
| StackLines.SuppressedRoundTrip | src/com/android/tools/r8wrappers/retrace/RetraceWrapper.java:472-502 | the same for `Suppressed: `, on a line with no `Caused by: ` and no thread marker |
| StackLines.EscapingRoundTrip | src/com/android/tools/r8wrappers/retrace/RetraceWrapper.java:472-502 | after the first `Exception in thread "`, the first `" ` at or after the marker's end starts the class; the parsed exception text is `" <class>`, closing quote included |
| StackLines.ExceptionParseOutcome | src/com/android/tools/r8wrappers/retrace/RetraceWrapper.java:491-502 | no exception line exactly when no marker is found or no `:` follows it; otherwise the class runs from the start to the first `:` after it, and that is the hole |
| StackLines.ExceptionStartSpaced | src/com/android/tools/r8wrappers/retrace/RetraceWrapper.java:472-489 | every marker puts a space before the point where the class starts |
| Resolvers.RelativizeResolve | src/com/android/tools/r8wrappers/retrace/RetraceWrapper.java:841-845 | relativizing a path resolved below a base gives the relative name back |
| Resolvers.WalkMembers | src/com/android/tools/r8wrappers/retrace/RetraceWrapper.java:730-762 | a walk visits exactly the regular files at or below its root |
| Resolvers.FetchArtifactCommandOptions | src/com/android/tools/r8wrappers/retrace/RetraceWrapper.java:867-881 | the command starts with `fetch_artifact` and ends with the artifact; the option pairs give back the build id, the target, the branch exactly when there is one and the zip entry exactly when there is one |
| Resolvers.Workspace.EnsureFetchArtifactCommand | src/com/android/tools/r8wrappers/retrace/RetraceWrapper.java:853-865 | fails with the install message exactly when the tool cannot be started |
| Resolvers.Workspace.EnsureTempBuildDir | src/com/android/tools/r8wrappers/retrace/RetraceWrapper.java:931-941 | gives `<tempDir>/<bid>_<target>`, which exists afterwards, and runs nothing |
| Resolvers.Workspace.Run | src/com/android/tools/r8wrappers/retrace/RetraceWrapper.java:892-897 | a tool run is recorded once and writes the files it creates below its directory |
| Resolvers.Workspace.FetchArtifact | src/com/android/tools/r8wrappers/retrace/RetraceWrapper.java:883-908 | a file already in the per-build directory is used and nothing runs; a tool that cannot be started ends the run with nothing run; otherwise the command runs once, and a nonzero exit fails with the command and its output after flushing |
| Resolvers.Workspace.FetchArtifactGlob | src/com/android/tools/r8wrappers/retrace/RetraceWrapper.java:910-929 | echoes the command with `--preserve_directory_structure`, runs it once, passes its standard output through, and fails on a nonzero exit after flushing |
| Resolvers.RemoteLocationIsCommand | src/com/android/tools/r8wrappers/retrace/RetraceWrapper.java:157-160 | a remote map location is the fetch command joined with spaces, and splits back into it |
| Resolvers.LazyRetracer.GetRetracer | src/com/android/tools/r8wrappers/retrace/RetraceWrapper.java:113-171 | a built retracer is reused; a local map is used where it is; a remote one is fetched first; only a success is kept, and only a remote fetch can fail, flushing the held-back messages unless the tool could not be started |
| MetaMapping.ScanBlock | src/com/android/tools/r8wrappers/retrace/RetraceWrapper.java:798-813 | a block read from line `j` ends within the file, past `j` when there is a line to read |
| MetaMapping.BlockEndSpec | src/com/android/tools/r8wrappers/retrace/RetraceWrapper.java:798-803 | a block body ends one past its first line whose trimmed text starts with `}`, or at the end of the file when there is none |
| MetaMapping.FirstFailSpec | src/com/android/tools/r8wrappers/retrace/RetraceWrapper.java:798-813 | every line before the first failing one reads well, and that one fails |
| MetaMapping.ScanBlockOutcome | src/com/android/tools/r8wrappers/retrace/RetraceWrapper.java:798-813 | reading a block body succeeds exactly when no line up to its end fails, and then stops at that end; otherwise it fails with the error of the first failing line |
| MetaMapping.EarlierAccepted | src/com/android/tools/r8wrappers/retrace/RetraceWrapper.java:790-834 | when every block before line `i` is accepted, a failure from `i` on is the failure of the whole file |
| MetaMapping.EntryOf | src/com/android/tools/r8wrappers/retrace/RetraceWrapper.java:815-820 | a block gives an entry exactly when it has all three fields, its type is `R8` and its id has 64 characters |
| MetaMapping.ReadMetaMapping | src/com/android/tools/r8wrappers/retrace/RetraceWrapper.java:792-833 | the nested loops compute `ParseMetaMapping` of the file's lines |
| MetaMapping.ReadBlock | src/com/android/tools/r8wrappers/retrace/RetraceWrapper.java:798-813 | the inner loop computes `ScanBlock` from the line after the block start |
| MetaMapping.EntriesHaveFullIds | src/com/android/tools/r8wrappers/retrace/RetraceWrapper.java:815-819 | every accepted entry has a 64-character id |
| MetaMapping.NoBlocksNoEntries | src/com/android/tools/r8wrappers/retrace/RetraceWrapper.java:792-794 | a file without a `mappings: … {` line gives no entries and no error |
| MetaMapping.UnknownKeyAborts | src/com/android/tools/r8wrappers/retrace/RetraceWrapper.java:804-812 | in any block, a line that is not `}` or one of the keys, after lines that read well, fails the whole file with `no match` when every earlier block is accepted |
| MetaMapping.InvalidBlockRejected | src/com/android/tools/r8wrappers/retrace/RetraceWrapper.java:814-831 | a block that reads well but describes no entry fails the whole file, when every earlier block is accepted; the message quotes the block from its first line to its end |
| MetaMapping.MissingTypeRejected | src/com/android/tools/r8wrappers/retrace/RetraceWrapper.java:814-831 | any block whose lines read well but hold no type line is rejected that way |
| MetaMapping.MissingTypeExample | src/com/android/tools/r8wrappers/retrace/RetraceWrapper.java:824-831 | for example, a block closed before its type line is rejected; the message names line 0 and quotes the block through the `}` |
| MetaMapping.WellFormedBlock | src/com/android/tools/r8wrappers/retrace/RetraceWrapper.java:794-823 | a well-formed block is read back as the entry it describes |
| MetaMapping.DeriveFromStem | src/com/android/tools/r8wrappers/retrace/RetraceWrapper.java:841-845 | a meta-mapping file whose suffix occurs only at its end maps to the archive with the same stem, which ends in `.zip` |
| Registry.RegisterKeys | src/com/android/tools/r8wrappers/retrace/RetraceWrapper.java:823 | registering adds exactly the entries' ids |
| Registry.RegisterLastWins | src/com/android/tools/r8wrappers/retrace/RetraceWrapper.java:823 | a later registration under an id replaces an earlier one |
| Registry.RegisterUntouched | src/com/android/tools/r8wrappers/retrace/RetraceWrapper.java:823 | an id no entry names keeps what it had |
| Registry.EndingWith | src/com/android/tools/r8wrappers/retrace/RetraceWrapper.java:773 | keeps exactly the paths of the list that end with the suffix |
| Registry.EndingWithAppend | src/com/android/tools/r8wrappers/retrace/RetraceWrapper.java:773 | the walk order is kept: filtering two runs of paths one after the other gives the two filtered runs one after the other |
| Registry.RemoteRetracers | src/com/android/tools/r8wrappers/retrace/RetraceWrapper.java:815-823 | one remote retracer per accepted block, in order, registered under the block's id |
| Registry.Registry.Put | src/com/android/tools/r8wrappers/retrace/RetraceWrapper.java:717-718 | the id now maps to a fresh, unbuilt lazy retracer; every other id keeps its retracer |
| Registry.Registry.PopulateLocal | src/com/android/tools/r8wrappers/retrace/RetraceWrapper.java:706-764 | nothing without a checkout root; otherwise the prebuilt map, then the dictionaries below each search path, and a missing search path fails |
| Registry.Registry.RegisterPrebuilt | src/com/android/tools/r8wrappers/retrace/RetraceWrapper.java:712-719 | an identified prebuilt map is registered under its id; otherwise an `Info:` message is held back |
| Registry.Registry.RegisterSearchPaths | src/com/android/tools/r8wrappers/retrace/RetraceWrapper.java:720-763 | the search paths are walked in order; the first that does not exist fails with its resolved path, and the table then holds what was found before it |
| Registry.Registry.RegisterSearchPath | src/com/android/tools/r8wrappers/retrace/RetraceWrapper.java:721-729 | a search path that exists registers the dictionaries below it; otherwise it fails with `Invalid search path entry` |
| Registry.Registry.RegisterDictionaries | src/com/android/tools/r8wrappers/retrace/RetraceWrapper.java:730-762 | the files of a walk are visited in order and each dictionary is registered |
| Registry.Registry.VisitFile | src/com/android/tools/r8wrappers/retrace/RetraceWrapper.java:742-751 | a `proguard_dictionary` whose header names an id and hash is registered under the id; any other file changes nothing |
| Registry.Registry.FetchMetaMappings | src/com/android/tools/r8wrappers/retrace/RetraceWrapper.java:779-789 | meta-mapping files already there are used without fetching; otherwise the glob is fetched once and the files are collected again |
| Registry.Registry.PopulateRemote | src/com/android/tools/r8wrappers/retrace/RetraceWrapper.java:777-835 | nothing is fetched or printed when meta-mapping files are there; otherwise a missing tool or a failed glob ends the run with its message and registers nothing, and a glob that succeeds prints the banner, the command, the tool output and the count; then files that all parse register every block and give no abort, and the first file that does not ends the run with its error; standard error gets the held-back messages exactly when the run ends with an error |
| Registry.Registry.GlobMetaMappings | src/com/android/tools/r8wrappers/retrace/RetraceWrapper.java:782-785 | without the tool it fails with the install message and changes nothing; otherwise the per-build directory exists afterwards, the banner, the command and the tool output are printed, the glob runs once, and a nonzero exit fails with the glob message after flushing |
| Registry.Registry.GlobAndCollect | src/com/android/tools/r8wrappers/retrace/RetraceWrapper.java:782-789 | the glob fetch, then the files it left, counted: on success the files collected from the per-build directory and the count line |
| Registry.Registry.RegisterMetaMappings | src/com/android/tools/r8wrappers/retrace/RetraceWrapper.java:790-834 | the files are read in order; all of them registered, or the first that does not parse ends the run |
| Registry.Registry.FindDefaultRetracer | src/com/android/tools/r8wrappers/retrace/RetraceWrapper.java:1057-1085 | no default without a key; a regular file is a local map; otherwise exactly one matching map location is accepted, none or several fail with the message listing them |
| Registry.Registry.MapTable | src/com/android/tools/r8wrappers/retrace/RetraceWrapper.java:1023-1031 | one line `<id> -> <location>` per id, ids strictly ascending and each once |
| Registry.MatchesOf | src/com/android/tools/r8wrappers/retrace/RetraceWrapper.java:1064-1069 | exactly the ids whose map location contains the key, each once |
| Reconstruction.PrintedLink | src/com/android/tools/r8wrappers/retrace/RetraceWrapper.java:663-672 | linking prints the new lines, in order, below what the parent prints |
| Reconstruction.LinkPresent | src/com/android/tools/r8wrappers/retrace/RetraceWrapper.java:670-672 | linking below a node never gives a missing node |
| Reconstruction.RenderedSpaced | src/com/android/tools/r8wrappers/retrace/RetraceWrapper.java:687-695 | each rewritten line keeps the frame line's prefix and so holds a space |
| Reconstruction.FrameResultsExtend | src/com/android/tools/r8wrappers/retrace/RetraceWrapper.java:652-704 | every result extends what its parent prints, and one that starts below a node is never missing |
| Reconstruction.FrameResultsSpaced | src/com/android/tools/r8wrappers/retrace/RetraceWrapper.java:652-704 | results starting below lines that hold a space print only such lines |
| Reconstruction.OneLinePerFrame | src/com/android/tools/r8wrappers/retrace/RetraceWrapper.java:652-704 | when each frame rewrites to one frame, every result adds exactly one line per remaining frame |
| Reconstruction.UnretraceableFrame | src/com/android/tools/r8wrappers/retrace/RetraceWrapper.java:676-703 | a frame with no retraced element leaves no result |
| Reconstruction.ExceptionResultsPresent | src/com/android/tools/r8wrappers/retrace/RetraceWrapper.java:628-650 | with an exception line every result is a node that prints only spaced lines |
| Reconstruction.ThrownRootsShape | src/com/android/tools/r8wrappers/retrace/RetraceWrapper.java:639-649 | each candidate class starts its own root, a lone node holding the plugged line |
| Reconstruction.SeparatedFails | src/com/android/tools/r8wrappers/retrace/RetraceWrapper.java:619-625 | printing fails exactly when a result node is missing |
| Reconstruction.SeparatedBranches | src/com/android/tools/r8wrappers/retrace/RetraceWrapper.java:619-625 | the output split at the `<OR>` lines gives the branches back, with one separator fewer than branches |
| Reconstruction.AmbiguousExceptionBlock | src/com/android/tools/r8wrappers/retrace/RetraceWrapper.java:605-625 | a block with an exception line never fails while printing; k > 1 results print the banner, then k branches with k - 1 separators |
| Reconstruction.PrintNode | src/com/android/tools/r8wrappers/retrace/RetraceWrapper.java:293-298 | prints the ancestors' lines, then the node's own line |
| Reconstruction.PrintIdentity | src/com/android/tools/r8wrappers/retrace/RetraceWrapper.java:528-533 | prints the exception line if any, then each frame line |
| Reconstruction.LinkRewritten | src/com/android/tools/r8wrappers/retrace/RetraceWrapper.java:680-696 | each rewritten frame links one node holding the plugged frame text |
| Reconstruction.RetraceFrameRecursive | src/com/android/tools/r8wrappers/retrace/RetraceWrapper.java:652-704 | computes `FrameResults`: the parent when the frames are used up, otherwise the results of each element in order |
| Reconstruction.RetraceElements | src/com/android/tools/r8wrappers/retrace/RetraceWrapper.java:676-703 | the results of the elements, concatenated in order |
| Reconstruction.RetraceOptionalExceptionLine | src/com/android/tools/r8wrappers/retrace/RetraceWrapper.java:628-650 | computes `Results`: from the empty context and no parent, or from one root per candidate class |
| Reconstruction.PrintBlock | src/com/android/tools/r8wrappers/retrace/RetraceWrapper.java:605-625 | no results prints the block as read; several print the banner first; then the results separated by `<OR>` |
| Reconstruction.PrintSeparated | src/com/android/tools/r8wrappers/retrace/RetraceWrapper.java:619-625 | the loop prints `Separated(results, 0)` and stops at the first missing node |
| Retracing.DeterminePriority | src/com/android/tools/r8wrappers/retrace/RetraceWrapper.java:573-583 | a registered R8 id wins; an unregistered one leaves an `Info:` and falls back; a registered AOSP hash wins next; otherwise the default |
| Retracing.DetermineLazy | src/com/android/tools/r8wrappers/retrace/RetraceWrapper.java:573-583 | the chosen retracer is a registered one or the default |
| Retracing.DetermineRetracer | src/com/android/tools/r8wrappers/retrace/RetraceWrapper.java:391-407 | the method chooses `Determine` of the table and holds back exactly its notes |
| Retracing.ParseFrameAt | src/com/android/tools/r8wrappers/retrace/RetraceWrapper.java:550 | parsing line `i` as a frame gives its reading |
| Retracing.ParseExceptionAt | src/com/android/tools/r8wrappers/retrace/RetraceWrapper.java:541 | parsing line `i` as an exception line gives its reading |
| Retracing.Run | src/com/android/tools/r8wrappers/retrace/RetraceWrapper.java:558-567 | the frames of a run never reach past the end of the input |
| Retracing.Next | src/com/android/tools/r8wrappers/retrace/RetraceWrapper.java:540-567 | each pass moves forward and the next one starts within the input, so the loop ends |
| Retracing.FrameTextsLines | src/com/android/tools/r8wrappers/retrace/RetraceWrapper.java:528-533 | printing a run without a retracer prints one line per frame, the line it was read from |
| Retracing.RunFrames | src/com/android/tools/r8wrappers/retrace/RetraceWrapper.java:558-567 | a run's frames come from consecutive lines and share the source file; it ends at the end of the input, at a line that is no frame of that file, or where parsing threw |
| Retracing.NextStackMaximal | src/com/android/tools/r8wrappers/retrace/RetraceWrapper.java:558-569 | a block's frames share its first frame's source file, and the line after the block, re-examined by the next pass, is no frame of that file |
| Retracing.StacksShareSourceFile | src/com/android/tools/r8wrappers/retrace/RetraceWrapper.java:558-567 | every block groups frames of one source file |
| Retracing.SegmentsCover | src/com/android/tools/r8wrappers/retrace/RetraceWrapper.java:535-571 | every input line lands in exactly one segment, in order: all of the input without a crash, up to the crash with one |
| Retracing.UnresolvedOutput | src/com/android/tools/r8wrappers/retrace/RetraceWrapper.java:585-596 | with no retracer for any block each pass prints what it read; only a crash ends the run early |
| Retracing.IdentityWhenUnresolved | src/com/android/tools/r8wrappers/retrace/RetraceWrapper.java:535-571 | with no retracer for any block the output is exactly the input lines in order, or a prefix of them when a frame line throws |
| Retracing.RetraceStackTrace | src/com/android/tools/r8wrappers/retrace/RetraceWrapper.java:585-626 | prints `StackOutput` of the block for the chosen retracer and writes nothing to standard error, unless fetching a remote map fails before anything is printed and flushes the held-back messages; either way it holds back the notes of choosing the retracer |
| Retracing.RetraceWith | src/com/android/tools/r8wrappers/retrace/RetraceWrapper.java:597-625 | builds the chosen retracer, then prints the rebuilt block |
| Retracing.PrintRetraced | src/com/android/tools/r8wrappers/retrace/RetraceWrapper.java:598-625 | prints the block rebuilt from the map file, and fails only where `StackOutput` says so |
| Retracing.BuildRetracer | src/com/android/tools/r8wrappers/retrace/RetraceWrapper.java:597 | gives the map file the retracer is built from; only a remote map can fail, and nothing is printed to standard output |
| Retracing.CollectFrames | src/com/android/tools/r8wrappers/retrace/RetraceWrapper.java:558-567 | the inner loop computes `Run`, and the next pass starts right after the collected frames |
| Retracing.RetracePass | src/com/android/tools/r8wrappers/retrace/RetraceWrapper.java:540-569 | one pass prints `SegmentOutput` of `Next` and continues where `Next` says, unless a remote fetch fails and flushes the held-back messages; it holds back the segment's notes |
| Retracing.RetraceRun | src/com/android/tools/r8wrappers/retrace/RetraceWrapper.java:558-569 | the stack case of a pass: the same output, standard error and held-back notes as `RetracePass` |
| Retracing.StackSegment | src/com/android/tools/r8wrappers/retrace/RetraceWrapper.java:585-596 | a stack block's output, notes and fallibility are those of the retracer its top frame picks |
| Retracing.NotesWhenRegistered | src/com/android/tools/r8wrappers/retrace/RetraceWrapper.java:573-583 | when every R8 id met is registered, no pass holds back a message |
| Retracing.NotesAppend | src/com/android/tools/r8wrappers/retrace/RetraceWrapper.java:535-571 | the messages held back by passes that all completed, then by more passes, are the two lists one after the other |
| Retracing.Retrace | src/com/android/tools/r8wrappers/retrace/RetraceWrapper.java:535-571 | prints `Output(Segments(input))`, holds back `Notes` of the segments and ends as `Output` says, writing nothing to standard error; or stops at a segment whose remote fetch failed, after printing and holding back everything before it, and flushes the held-back messages |
| RetraceCli.KeptClean | src/com/android/tools/r8wrappers/retrace/RetraceWrapper.java:1100-1114 | every search-path entry is non-empty, trimmed and free of `:` |
| RetraceCli.SearchPathRoundTrip | src/com/android/tools/r8wrappers/retrace/RetraceWrapper.java:1100-1114 | clean entries joined with `:` parse back to themselves |
| RetraceCli.Round | src/com/android/tools/r8wrappers/retrace/RetraceWrapper.java:1105-1111 | one round moves forward, and yields the trimmed part up to the next `:` unless it is blank |
| RetraceCli.ParseSearchPath | src/com/android/tools/r8wrappers/retrace/RetraceWrapper.java:1100-1114 | the do-while loop gives the trimmed non-empty parts, in order |
| RetraceCli.ParseArguments | src/com/android/tools/r8wrappers/retrace/RetraceWrapper.java:953-1014 | the flag loop and the `--bid`/`--target` check compute `Configure` |
| RetraceCli.ParseAppend | src/com/android/tools/r8wrappers/retrace/RetraceWrapper.java:953-1006 | reading flags that read well, then the rest, is reading them all at once |
| RetraceCli.LastValueWins | src/com/android/tools/r8wrappers/retrace/RetraceWrapper.java:959-998 | a value flag given again replaces the earlier value |
| RetraceCli.HelpAnswered | src/com/android/tools/r8wrappers/retrace/RetraceWrapper.java:955-958 | `-h` or `--help` after well-formed flags prints the usage, whatever follows |
| RetraceCli.FailureAt | src/com/android/tools/r8wrappers/retrace/RetraceWrapper.java:953-1006 | a failing argument after flags that read well fails the loop with its message |
| RetraceCli.FailureLocated | src/com/android/tools/r8wrappers/retrace/RetraceWrapper.java:953-1006 | every failure of the loop is a missing value, an unknown option or a second input file, at an argument where the flags before it read well |
| RetraceCli.RenderRoundTrip | src/com/android/tools/r8wrappers/retrace/RetraceWrapper.java:953-1014 | the flags written for a set of options read back as them; `--bid` and `--target` come together |
| RetraceCli.RunRetrace | src/com/android/tools/r8wrappers/retrace/RetraceWrapper.java:943-1055 | a bad flag fails with its message after flushing; help prints the usage; a run with no maps and no default prints standard input unchanged unless a frame line throws |
| RetraceCli.RunWith | src/com/android/tools/r8wrappers/retrace/RetraceWrapper.java:1016-1054 | the no-map run prints its input unchanged |
| RetraceCli.Populate | src/com/android/tools/r8wrappers/retrace/RetraceWrapper.java:1018-1022 | a fresh, unbuilt table: empty without a build and a checkout root; from the checkout scan, with its abort and its held-back infos, without a build; with a build, the install and glob failures, then every block of the meta-mapping files, or the error of the first that does not parse; with a build, nothing is held back, and standard error gets the held-back messages exactly when the run ends with an error |
| RetraceCli.PickAndRetrace | src/com/android/tools/r8wrappers/retrace/RetraceWrapper.java:1033-1048 | with an empty table and no default, standard input is printed unchanged unless a frame line throws |
| RetraceCli.RetraceInput | src/com/android/tools/r8wrappers/retrace/RetraceWrapper.java:1038-1049 | with no retracer at all the input lines are printed unchanged unless a frame line throws |
| DepsFile.EscapeIsEach | src/com/android/tools/r8wrappers/utils/DepsFileWriter.java:71-73 | escape puts a backslash before every space and changes nothing else |
| DepsFile.UnescapeEscape | src/com/android/tools/r8wrappers/utils/DepsFileWriter.java:71-73 | escaping loses nothing: the path reads back from its escaped form |
| DepsFile.Ascending | src/com/android/tools/r8wrappers/utils/DepsFileWriter.java:50-51 | the sorted copy of the set is strictly ascending and has exactly its elements |
| DepsFile.DepsFileWriter.Accept | src/com/android/tools/r8wrappers/utils/DepsFileWriter.java:44-46 | the dependency joins the set; the origin plays no part |
| DepsFile.DepsFileWriter.Finished | src/com/android/tools/r8wrappers/utils/DepsFileWriter.java:49-69 | writes `escape(dependent):`, then ` escape(dep)` for each dependency in ascending order, then a newline |
| DepsFile.RuleRoundTrip | src/com/android/tools/r8wrappers/utils/DepsFileWriter.java:59-65 | the rule reads back to its dependent file and dependency list, when the dependent has no `:` and no dependency ends in a backslash |
| DepsFile.RecordedOnceAscending | src/com/android/tools/r8wrappers/utils/DepsFileWriter.java:50-64 | the rule lists every recorded dependency exactly once, in strictly ascending order |
| DepsFile.TrailingBackslashAmbiguous | src/com/android/tools/r8wrappers/utils/DepsFileWriter.java:71-73 | without that condition the rule is ambiguous: `["a\", "b"]` and `["a b"]` give the same text |
| D8.D8Wrapper.ParseWrapperArguments | src/com/android/tools/r8wrappers/D8Wrapper.java:111-164 | the loop and the checks compute `ParseArgs`: the new fields and the arguments for D8, or the exception |
| D8.ReadFlagsAppend | src/com/android/tools/r8wrappers/D8Wrapper.java:113-155 | reading `a` and then `b` is reading `a + b` |
| D8.MissingArgument | src/com/android/tools/r8wrappers/D8Wrapper.java:116-141 | a value-taking flag as the last argument fails with `Missing argument to <flag>` |
| D8.PassedInOrder | src/com/android/tools/r8wrappers/D8Wrapper.java:149-163 | without value-taking flags D8 gets the arguments other than `--info`, in order, and only the info switch changes |
| D8.ShardFlagsChecked | src/com/android/tools/r8wrappers/D8Wrapper.java:156-162 | the run goes on exactly when the shard flags come both or neither and sharding has a no-dex archive |
| D8.JavaRem | src/com/android/tools/r8wrappers/D8Wrapper.java:170 | Java `%`: the remainder leaves a multiple, is smaller than the divisor and takes the dividend's sign |
| D8.EntriesPartitioned | src/com/android/tools/r8wrappers/D8Wrapper.java:166-180 | without sharding no entry is on the class path and the program entries are the class files; with sharding every class file is exactly one of the two |
| D8.NegativeHashInNoShard | src/com/android/tools/r8wrappers/D8Wrapper.java:170-171 | as written, a class file with hash code -1 is compiled by neither of two shards |
| D8.EachClassInOneShard | src/com/android/tools/r8wrappers/D8Wrapper.java:166-172 | with the floor remainder every class file is compiled by exactly one shard |
| D8.CorrectionAgrees | src/com/android/tools/r8wrappers/D8Wrapper.java:166-172 | for non-negative hash codes the corrected and written definitions agree |
| R8.SwitchOnSets | src/com/android/tools/r8wrappers/R8Wrapper.java:154-253 | a switch sets its own field and leaves every other field as it was |
| R8.R8Wrapper.AssignSwitch | src/com/android/tools/r8wrappers/R8Wrapper.java:154-253 | the switch's own field becomes true and every other field stays |
| R8.R8Wrapper.SetSwitch | src/com/android/tools/r8wrappers/R8Wrapper.java:154-253 | the settings become `SwitchOn` of the old ones |
| R8.R8Wrapper.TakePath | src/com/android/tools/r8wrappers/R8Wrapper.java:169-207 | the path cases take the next argument, or fail when a resource path is already set or no argument follows |
| R8.R8Wrapper.AddRule | src/com/android/tools/r8wrappers/R8Wrapper.java:220-244 | the ProGuard cases add their rule, reading the next argument for one-argument options |
| R8.R8Wrapper.Dispatch | src/com/android/tools/r8wrappers/R8Wrapper.java:153-260 | the switch computes `StepAt` of the argument |
| R8.R8Wrapper.ParseWrapperArguments | src/com/android/tools/r8wrappers/R8Wrapper.java:149-263 | the loop computes `ReadFlags`: the new fields and the arguments for R8, or the exception |
| R8.ReadFlagsAppend | src/com/android/tools/r8wrappers/R8Wrapper.java:151-261 | reading `a` and then `b` is reading `a + b` |
| R8.PassedInOrder | src/com/android/tools/r8wrappers/R8Wrapper.java:255-262 | arguments the wrapper does not act on reach R8 unchanged and in order |
| R8.ZeroArgRuleKept | src/com/android/tools/r8wrappers/R8Wrapper.java:220-232 | a zero-argument option becomes a rule word for word and is not passed on; `-dontoptimize` also sets `dontOptimize` |
| R8.OneArgRuleKept | src/com/android/tools/r8wrappers/R8Wrapper.java:234-244 | a one-argument option and the next argument become the single rule `<option> <argument>`; without a next argument the read is out of bounds |
| R8.MultiDexDropped | src/com/android/tools/r8wrappers/R8Wrapper.java:209-212 | dropping `--multi-dex` changes nothing |
| R8.ReadKeeps | src/com/android/tools/r8wrappers/R8Wrapper.java:149-263 | reading never clears a switch or a path it has set |
| R8.SwitchUntouched | src/com/android/tools/r8wrappers/R8Wrapper.java:149-263 | a switch no argument selects keeps its field |
| R8.ResourceInputTaken | src/com/android/tools/r8wrappers/R8Wrapper.java:169-177 | `--resource-input` and its path record the path and read on |
| R8.ResourceInputRepeated | src/com/android/tools/r8wrappers/R8Wrapper.java:171-173 | `--resource-input` once a path is recorded ends the run |
| R8.SecondResourceInput | src/com/android/tools/r8wrappers/R8Wrapper.java:169-177 | a second `--resource-input` fails, however far after the first |
| R8.ResourceOutputTaken | src/com/android/tools/r8wrappers/R8Wrapper.java:178-186 | `--resource-output` and its path record the path and read on |
| R8.ResourceOutputRepeated | src/com/android/tools/r8wrappers/R8Wrapper.java:180-182 | `--resource-output` once a path is recorded ends the run |
| R8.SecondResourceOutput | src/com/android/tools/r8wrappers/R8Wrapper.java:178-186 | a second `--resource-output` fails, however far after the first |
| R8.DefaultInitCondition | src/com/android/tools/r8wrappers/R8Wrapper.java:110-116 | the default-init property is set exactly when neither compat mode nor `--no-implicit-default-init` is set |
| R8.DefaultInitOn | src/com/android/tools/r8wrappers/R8Wrapper.java:110-116 | arguments that never give either flag leave the conversion on |
| R8.DefaultInitOff | src/com/android/tools/r8wrappers/R8Wrapper.java:110-116 | either flag, anywhere in the arguments, turns the conversion off |
| R8.ResourcesPaired | src/com/android/tools/r8wrappers/R8Wrapper.java:278-294 | applying fails, naming both flags, exactly when only one resource path was given |
| R8.RulesHandedOver | src/com/android/tools/r8wrappers/R8Wrapper.java:283-308 | the collected rules are the last configuration, present exactly when there are any; the ids keep rule comes first when shrinking is optimized and not forced |

## Left out

- Process spawning: `fetch_artifact` is a parameter. It is a function from a command to an exit code, its standard output and the files it creates. Whether it can be started is a boolean. Its standard error, which both fetches pass through to the wrapper's, is not modelled.
- The file system is a value: the regular files with their contents, and the directories. `Files.walkFileTree` and `Files.walk` visit the files below a path in one given order. Symbolic links, I/O errors and `visitFileFailed` are not modelled.
- `getProjectRoot` reads where the jar is installed. The checkout root is a parameter instead, and the `Info:` message it holds back when there is none is not modelled.
- `deleteDirectory` and the removal of the temporary directory are not modelled. A fresh temporary directory name is a parameter.
- The R8 library is a parameter: `Retracer`, `ProguardMapProducer` and `Reference.classFromTypeName`. A class reference is its type name.
- The usage text is one constant line. The version and help output of the compiler wrappers belong to the compiler and are not modelled.
- `D8Command`/`R8Command` parsing, `D8.run`/`R8.run`, `applyCommonCompilerArguments`, `AOSPResourceProvider` and the archive providers are compiler glue and are not modelled. D8's `applyWrapperArguments` is covered only through `isProgramEntry` and `isClassPathEntry`.
- `String.hashCode` and the class-file filter `includeClassFileEntries` are function parameters.
- `Path.compareTo` is modelled as the lexicographic order of the path text, and `Paths.get` keeps the text as it is. On Unix, Java compares the bytes of the UTF-8 encoded paths. That is code-point order, the same as the model's order of Unicode scalar values.
- StringOrder.Less: `String::compareTo` (src/com/android/tools/r8wrappers/retrace/RetraceWrapper.java:1025, the order of the mapping table) compares UTF-16 code units, and the model compares Unicode scalar values. The two orders differ only when a character above U+FFFF meets one in U+E000 to U+FFFF.
- MetaMapping.EntryOf: `|id|` counts Unicode scalar values, and Java's `id.length()` (src/com/android/tools/r8wrappers/retrace/RetraceWrapper.java:819) counts UTF-16 code units. An id holding a character above U+FFFF therefore has a different length in the two.
- Resolvers.FetchFailedMessage, Resolvers.GlobFailedMessage, Resolvers.NotInstalledMessage and Registry.AbortOf join their lines with `'\n'`, while the source joins them with `System.lineSeparator()`, which is `"\r\n"` on Windows. The tool output inside a fetch failure is read by lines and joined the same way.
- Resolvers.Echoed: the inherited standard output of the tool is recorded as one printed element. The source passes the bytes through as they come, and adds no line end of its own.
- DepsFile.DepsFileWriter.Finished: an `IOException` from the writer is not modelled. Its result is the text written.
- D8.D8Wrapper.ParseWrapperArguments: after an exception the fields are left unspecified, because the run ends there.
- R8.R8Wrapper.ParseWrapperArguments: after an exception the fields are left unspecified, because the run ends there.
- Retracing.Retrace: where fetching a remote map fails, the contract says that the run stops at a segment whose map is remote, after printing everything before it, and not which fetch failed. The fetch tool is free to fail.
- Retracing.RetraceStackTrace: the failure case of a remote fetch is stated the same way, and so are RetraceWith, RetracePass and RetraceRun.
- ForwardingDiagnosticsHander (src/com/android/tools/r8wrappers/retrace/RetraceWrapper.java:90-105) is not modelled. The R8 library reports through it while a retracer is built (lines 133-134 and 163-165): an error flushes the held-back messages and ends the run, and warnings and infos join the held-back messages. The model's `Retracer` is total and reports nothing, which is why building a retracer from a local map never fails or holds back a message in the model, and only a remote fetch can fail.
- ScanBlock: its own contract gives only bounds on where a block ends. Where it ends and how it fails are stated by ScanBlockOutcome, BlockEndSpec and FirstFailSpec.
- IndexOfExceptionStart: its own contract gives only bounds. Where the class starts after each marker is stated by CausedByRoundTrip, SuppressedRoundTrip and EscapingRoundTrip, over any line that holds the marker and the class at a position.
- RetraceCli.RunRetrace: the contract states the error, help and no-map cases. The other runs are specified by the members it calls.
- RetraceCli.RunWith: states only the run with no mapping table. The rest is specified by Populate, PickAndRetrace and the registry methods.
- RetraceCli.PickAndRetrace: states only the run with an empty table and no default map.
- RetraceCli.RetraceInput: states only the run with no retracer. Retracing.Retrace gives the general case.
- JavaString.ParseJavaInt: only ASCII digits are read. `Integer.parseInt` also accepts other Unicode decimal digits.
- JavaString.TrimSpec: trim is stated over `char` values at or below `' '`, as in Java; no Unicode whitespace is involved.
- `System.setProperty` calls are modelled only as the set of properties `main` and `applyWrapperArguments` set. `WrapperFlag` and `WrapperDiagnosticsHandler` hold no logic.

## Findings

| source | as written | input that shows it | evidently intended | confidence | as-written member | corrected member |
|---|---|---|---|---|---|---|
| src/com/android/tools/r8wrappers/D8Wrapper.java:170-171 | `entry.hashCode() % shard_count == shard_number` uses Java's truncating `%`, which is negative for a negative hash code | two shards, a class file whose `hashCode()` is -1: the remainder is -1, so neither shard 0 nor shard 1 compiles it, and both put it on the class path | each class file is compiled by exactly one shard (`Math.floorMod`) | medium, not executed | D8.NegativeHashInNoShard | D8.EachClassInOneShard |
