# laravel-tabula: the `Tabula` wrapper class, modelled in Dafny

`InitRed\Tabula\Tabula` wraps the tabula-java jar, which pulls tables out of PDF
files. The class keeps two pieces of configuration: the extra directories searched
for a `java` executable (`binDir`) and the path of the jar (`jarArchive`). Its one
operation, `parse($format, $target, $output)`, converts a whole directory of PDFs in
batch mode. It does the following, in this order:

1. It refuses an empty format.
2. It uppercases the format and accepts only `CSV`, `TSV` or `JSON`.
3. It checks that the target directory exists. Then it drops one trailing `/` from
   the target.
4. It checks that the output directory exists. Then it drops one trailing `/` from
   the output.
5. It looks for `java`.
6. It runs `java -jar <jar> -f <FORMAT> -b <target>`. The command names the bare
   `java`, not the binary that step 5 found.
7. If the process fails, it throws the process's error output. A run that exceeds
   Symfony's 60-second default timeout, that cannot be launched, or that is killed by
   a signal Symfony did not send throws from the run itself.
8. Otherwise, it moves every file under the target whose basename ends with `.` plus
   the lower-cased format into the output directory.

The project has three files:

- `php_strings.dfy` (module `PhpStrings`) models the PHP and Laravel string
  primitives that `parse` depends on:
  - truthiness of a string, which is what `empty()` and `if ($s)` test;
  - ASCII `strtoupper` and `strtolower`;
  - `Str::endsWith`;
  - `strrpos`;
  - `Str::replaceLast`.
- `tabula.dfy` (module `TabulaWrapper`) holds the data model and `ParseSpec`. The
  function `ParseSpec` states what `parse` does. The file also holds the class
  `Tabula`: its fields, its constructor, its getters and setters, and a `Parse`
  method. `Parse` works step by step as the PHP does: it grows the parameter list,
  reassigns the stripped target and output (`DropTrailingSlash`), and ends in
  `FinishRun`, which loops over the listing in `MoveFiles`. It is proved to compute
  `ParseSpec`. `ParseSpec` is built from `FirstFailedCheck` (the five checks, in
  order), `ShellRun` (how the bare `java` runs) and `AfterRun` (the process's end and
  the moves). `ParseSpecRunningFoundJava` is the corrected `parse` of the finding below.
- `tabula_properties.dfy` (module `TabulaProperties`) holds the lemmas: error
  precedence, which formats are accepted, the exact command line, process failure,
  the file selection and the accessor round trips.

The host machine is a `Host` value with these parts:

- `directories` is the set of paths for which `is_dir` holds. The empty path is never
  a directory (`IsDir`), whatever the set holds.
- `searchPath` and `javaDirs` stand for `ExecutableFinder`. `searchPath` is the PATH
  directories, and `javaDirs` is the set of directories that hold `java`.
- `run` is how the process ends once the system has started a `java`: `Succeeded`,
  `Failed(errorOutput)`, `TimedOut` (the 60-second default timeout is exceeded),
  `NotStarted` (the process could not be launched) or `Signaled(signal)` (the process
  was killed by a signal, for example by the out-of-memory killer).
- `javaMissingError` is the error output of the run when no PATH directory holds
  `java`. The command is the bare `java`, which is looked up on PATH only, so in that
  case the run fails with this output (`ShellRun`).
- `targetFiles` is what `File::allFiles` lists once the process has ended, as
  (directory, basename) pairs.

A call of `parse` ends in one of six ways:

- `Rejected(error)`: one of the five checks failed and no process was started.
- `ProcessFailed(arguments, errorOutput)`: the process ran and failed.
- `ProcessTimedOut(arguments)`: the process exceeded its timeout.
- `ProcessNotStarted(arguments)`: the process could not be launched.
- `ProcessSignaled(arguments, signal)`: the process was killed by a signal.
- `Completed(arguments, moves)`: the process ran, and `moves` lists the
  `File::move` calls in order.

`Thrown` maps each outcome to the exception PHP throws, with its message:
`InvalidArgumentException` for the first four checks, `RuntimeException` for a
missing `java`, for a failed run (its error output) and for a launch failure,
`ProcessTimedOutException` for a timeout and `ProcessSignaledException` for a signal.

PHP `null` arguments are modelled as `""`. At every point where `parse` uses its
arguments (`empty()`, `strtoupper`, `is_dir`, `Str::endsWith`), `null` behaves as
the empty string does.

Two behaviours are kept as written:

- After stripping, the output directory is tested for truthiness before files are
  moved. An output of `/` becomes `""`, and `0` or `0/` becomes `"0"`. Each of these
  passes the directory check, and then nothing is moved (`FalsyOutputs`, `FalsyOutputMovesNothing`).
- The extension test is case-sensitive. `B.CSV` is not moved for format `csv`
  (`ExampleBatchRun`).

## Model

| member | source | states |
|---|---|---|
| `PhpStrings.Truthy` | src/InitRed/Tabula/Tabula.php:90 | `empty()` of line 90 and `if($output)` of line 141: a string is truthy iff it is neither `""` nor `"0"`, so every string of two or more characters is truthy and a truthy string is never empty |
| `PhpStrings.EndsWith` | src/InitRed/Tabula/Tabula.php:106 | `Str::endsWith`, also used at lines 116 and 147, for the non-empty suffixes `parse` passes: holds iff the string is some prefix followed by the suffix |
| `PhpStrings.ReplaceLast` | src/InitRed/Tabula/Tabula.php:107 | `Str::replaceLast`, also used at line 117: with an empty search or no occurrence the subject is unchanged; otherwise exactly the last occurrence is replaced |
| `PhpStrings.ToUpper` | src/InitRed/Tabula/Tabula.php:94 | `strtoupper` keeps the length and maps every character through the ASCII upper-case mapping |
| `PhpStrings.ToLower` | src/InitRed/Tabula/Tabula.php:147 | `strtolower` keeps the length and maps every character through the ASCII lower-case mapping |
| `PhpStrings.LastIndexOf` | src/InitRed/Tabula/Tabula.php:107 | `strrpos`, used by `Str::replaceLast`: a returned position is an occurrence and no later position is one; no result iff the needle occurs nowhere |
| `PhpStrings.ReplaceLastOfSuffix` | src/InitRed/Tabula/Tabula.php:106-107 | when the subject ends with the search string, `Str::replaceLast` replaces exactly that final occurrence |
| `TabulaWrapper.IsFormatName` | src/InitRed/Tabula/Tabula.php:96 | the comparison that accepts the uppercased format: an accepted name has three or four characters, all fixed by the upper-case mapping, so it is a possible output of `strtoupper` (`FormatNameIff` gives the full if-and-only-if) |
| `TabulaWrapper.IsDir` | src/InitRed/Tabula/Tabula.php:102-113 | `is_dir` at lines 102 and 112: the empty path (and so `null`) is never a directory, and any directory is one of the host's directories |
| `TabulaWrapper.StripTrailingSlash` | src/InitRed/Tabula/Tabula.php:106-108 | a string ending in `/` loses exactly that one character, and appending `/` gives the input back; any other string is unchanged (so `a//` becomes `a/`) |
| `TabulaWrapper.DropTrailingSlash` | src/InitRed/Tabula/Tabula.php:106-108 | the guarded `replaceLast` that `parse` applies to the target (and again to the output at lines 116-118) computes `StripTrailingSlash` |
| `TabulaWrapper.FindJava` | src/InitRed/Tabula/Tabula.php:120-125 | the search over PATH and then `binDir` finds nothing iff no searched directory holds `java`; otherwise it returns `<dir>/java` for the first such directory |
| `TabulaWrapper.Extension` | src/InitRed/Tabula/Tabula.php:147 | the extension `"." . strtolower($format)`: one character longer than the format, a `.` followed by each format character lower-cased (`ExtensionOfFormat` gives the three values) |
| `TabulaWrapper.MoveOf` | src/InitRed/Tabula/Tabula.php:148 | the `File::move` of one listed file: the source is the file's directory and the destination is the output, each followed by `/` and the basename (stated through the lengths and the `/` separator); `MoveOfInjective` shows that two files never share a move |
| `TabulaWrapper.SelectMoves` | src/InitRed/Tabula/Tabula.php:141-150 | every selected move comes from a listed file whose basename ends with the extension, and goes to `output/<basename>`; there are at most as many moves as files |
| `TabulaWrapper.MoveFiles` | src/InitRed/Tabula/Tabula.php:142-150 | the loop over the listing produces exactly the moves of the matching files, in listing order |
| `TabulaWrapper.ShellRun` | src/InitRed/Tabula/Tabula.php:127-133 | the process started with the bare `java` ends as the host's run when some PATH directory holds `java`, and fails with the host's "not found" output when none does; `binDir` plays no part |
| `TabulaWrapper.Arguments` | src/InitRed/Tabula/Tabula.php:127-130 | the argument vector built at lines 97, 110 and 127-130 is exactly the seven words `java -jar <jar> -f <FORMAT> -b <target>` |
| `TabulaWrapper.ErrorException` | src/InitRed/Tabula/Tabula.php:90-125 | its contract states the exception classes: only a missing `java` is a `RuntimeException`, the other four checks throw `InvalidArgumentException`s; the messages of lines 91, 99, 103, 113 and 124 are its definition, and `EmptyFormatFirst` states the first |
| `TabulaWrapper.Thrown` | src/InitRed/Tabula/Tabula.php:132-137 | its contract states that a call throws iff it did not complete, and that a failed run throws a `RuntimeException` carrying the error output verbatim; the timeout, launch-failure and signal exceptions are its definition, stated by `AbnormalEndMovesNothing` |
| `TabulaWrapper.FirstFailedCheck` | src/InitRed/Tabula/Tabula.php:90-125 | when no check fails, the uppercased format is `CSV`, `TSV` or `JSON`, both directories exist and the search over PATH and `binDir` finds `java` |
| `TabulaWrapper.AfterRun` | src/InitRed/Tabula/Tabula.php:132-150 | what follows the start of the process never rejects and keeps the argument vector; it completes iff the run succeeded, and then makes at most as many moves as there are listed files (`MoveCount` shows each listed file is moved at most once per listing) |
| `TabulaWrapper.FinishRun` | src/InitRed/Tabula/Tabula.php:135-151 | the statements after the run, written step by step, compute `AfterRun` |
| `TabulaWrapper.ParseSpec` | src/InitRed/Tabula/Tabula.php:86-152 | `parse` as a function: rejected iff some check fails; otherwise the argument vector has seven words starting `java -jar <jar>`; a completed call makes at most as many moves as there are listed files (`MoveCount` shows each listed file is moved at most once per listing) |
| `TabulaWrapper.ParseSpecRunningFoundJava` | src/InitRed/Tabula/Tabula.php:120-133 | the corrected `parse` of the finding below: rejected iff some check fails; the command starts with the path of the `java` the search found, and the call completes iff that binary's run succeeds |
| `TabulaWrapper.BinDirArgTruthy` | src/InitRed/Tabula/Tabula.php:44 | the `if ($binDir)` of the constructor: `null` is falsy, every string of two or more characters is truthy, and a truthy string or list is non-empty |
| `TabulaWrapper.Tabula.constructor` | src/InitRed/Tabula/Tabula.php:31-47 | the jar defaults to the bundled `tabula-1.0.4` jar next to the class; a truthy string `binDir` becomes a one-element list, a list is stored as given, and a falsy argument leaves `[]` |
| `TabulaWrapper.Tabula.GetJarArchive` | src/InitRed/Tabula/Tabula.php:52-55 | returns the configured jar path |
| `TabulaWrapper.Tabula.SetJarArchive` | src/InitRed/Tabula/Tabula.php:60-63 | sets the jar path and leaves `binDir` unchanged |
| `TabulaWrapper.Tabula.GetBinDir` | src/InitRed/Tabula/Tabula.php:68-71 | returns the configured extra directories |
| `TabulaWrapper.Tabula.SetBinDir` | src/InitRed/Tabula/Tabula.php:76-79 | sets the extra directories and leaves the jar path unchanged |
| `TabulaWrapper.Tabula.Parse` | src/InitRed/Tabula/Tabula.php:86-152 | the step-by-step `parse` computes exactly `ParseSpec` of the object's configuration, its arguments and the host; the lemmas below state what that is |
| `TabulaProperties.ToUpperEqualsIff` | src/InitRed/Tabula/Tabula.php:94-96 | uppercasing a string yields an upper-case name iff the string equals that name up to ASCII case |
| `TabulaProperties.FormatNameIff` | src/InitRed/Tabula/Tabula.php:90-100 | the format check accepts a format iff it is `CSV`, `TSV` or `JSON` in any letter case; an accepted format is never "empty" |
| `TabulaProperties.ExtensionOfFormat` | src/InitRed/Tabula/Tabula.php:147 | the selected extension is `.csv`, `.tsv` or `.json` for the three accepted formats |
| `TabulaProperties.EmptyFormatFirst` | src/InitRed/Tabula/Tabula.php:90-92 | an empty format (`""` or `"0"`) is rejected with "Convert format does not exist." whatever the other arguments and the host |
| `TabulaProperties.ErrorPrecedence` | src/InitRed/Tabula/Tabula.php:90-125 | each of the five errors occurs iff its own check fails and every earlier check passes; a call is rejected iff some check fails |
| `TabulaProperties.EmptyTargetRefused` | src/InitRed/Tabula/Tabula.php:102-104 | a `null` or empty target is refused as a missing target directory, whatever the host's directories are |
| `TabulaProperties.RejectionRunsNothing` | src/InitRed/Tabula/Tabula.php:90-133 | a rejected call does not depend on the process outcome, the "not found" output or the directory listing: nothing runs and nothing moves |
| `TabulaProperties.ValidRequestRuns` | src/InitRed/Tabula/Tabula.php:90-133 | a request that passes every check runs `java -jar <jar> -f <FORMAT> -b <target>` and goes on to the process's end, with an accepted format name |
| `TabulaProperties.CommandLine` | src/InitRed/Tabula/Tabula.php:97-130 | once every check passes, the process gets exactly `java -jar <jar> -f <FORMAT> -b <target without trailing slash>`, and `<FORMAT>` is `CSV`, `TSV` or `JSON` |
| `TabulaProperties.JavaLocationIrrelevant` | src/InitRed/Tabula/Tabula.php:120-133 | given that `java` is found and the bare `java` runs the same way, the result does not depend on where the search found `java` or on `binDir`: the path found is never used |
| `TabulaProperties.BinDirJavaNeverRuns` | src/InitRed/Tabula/Tabula.php:120-136 | as written, when only `binDir` holds `java`, a valid request fails with the "not found" output of the bare `java`; the corrected `parse` completes the same request when the binary's run succeeds |
| `TabulaProperties.ExampleBinDirJava` | src/InitRed/Tabula/Tabula.php:120-136 | with `java` only in the configured `/opt/jdk/bin` and PATH `/usr/bin`, the call as written fails and the corrected call completes |
| `TabulaProperties.FoundJavaAgreesOnPath` | src/InitRed/Tabula/Tabula.php:120-133 | when PATH holds `java`, the corrected `parse` ends exactly as the written one does, except for the first word of the command |
| `TabulaProperties.ProcessFailureVerbatim` | src/InitRed/Tabula/Tabula.php:132-137 | a failed process ends the call with a `RuntimeException` carrying its error output verbatim, and no file is moved |
| `TabulaProperties.AbnormalEndMovesNothing` | src/InitRed/Tabula/Tabula.php:132-133 | a run that exceeds the 60-second default timeout ends the call with `ProcessTimedOutException(60)`, one that cannot be launched with "Unable to launch a new process.", and one killed by a signal with `ProcessSignaledException` carrying that signal; none of them moves a file |
| `TabulaProperties.MoveOfInjective` | src/InitRed/Tabula/Tabula.php:148 | two different listed files never give the same move |
| `TabulaProperties.MovedIff` | src/InitRed/Tabula/Tabula.php:144-150 | a listed file is moved iff its basename ends with the extension |
| `TabulaProperties.MoveCount` | src/InitRed/Tabula/Tabula.php:144-150 | the move of a listed file occurs exactly as many times as the file is listed when its basename ends with the extension, and never otherwise, so the foreach moves each listed file at most once |
| `TabulaProperties.MovesFollowListing` | src/InitRed/Tabula/Tabula.php:144-150 | the moves of two matching files happen in the order the listing gives them |
| `TabulaProperties.CompletedMoves` | src/InitRed/Tabula/Tabula.php:116-150 | after a successful run into a truthy output, a file is moved iff its basename ends with `.` plus the lower-cased format, always from its own path to `<stripped output>/<basename>`; nothing else is moved |
| `TabulaProperties.FalsyOutputMovesNothing` | src/InitRed/Tabula/Tabula.php:112-141 | an output directory that exists but is falsy once stripped ends a successful run with no move at all |
| `TabulaProperties.FalsyOutputs` | src/InitRed/Tabula/Tabula.php:116-118 | the outputs `/`, `0` and `0/` are falsy once stripped |
| `TabulaProperties.ExampleBatchRun` | src/InitRed/Tabula/Tabula.php:86-150 | converting `pdfs/` into `out/` as `csv` runs `java -jar tabula.jar -f CSV -b pdfs` and moves only `pdfs/a.csv` to `out/a.csv`; `a.pdf` and `B.CSV` stay where they are |
| `TabulaProperties.ExampleInvalidFormat` | src/InitRed/Tabula/Tabula.php:94-100 | `xml` is rejected as an invalid format |
| `TabulaProperties.SetThenGetJarArchive` | src/InitRed/Tabula/Tabula.php:52-63 | `setJarArchive(j)` followed by `getJarArchive()` returns `j`, and `binDir` is unchanged |
| `TabulaProperties.SetThenGetBinDir` | src/InitRed/Tabula/Tabula.php:68-79 | `setBinDir(d)` followed by `getBinDir()` returns `d`, and the jar path is unchanged |

## Left out

- Running the process: the Symfony `Process` run, its exit status and the capture of its output. How a started `java` ends is an input (`run`), and so is the "not found" output when PATH holds no `java`. The standard output that `parse` reads and then discards plays no part.
- The timeout and launch exceptions are reduced to their kind: `ProcessTimedOutException` keeps only the 60-second timeout and `ProcessSignaledException` only the signal number, not their message texts, and the launch failure keeps its fixed message. Whether a missing PATH `java` shows as a failed run (through a shell) or as a launch failure depends on the Symfony version and the platform; the model takes the failed run.
- The escaping of the argument vector into a command line is not modelled: the vector is what the model records.
- `ExecutableFinder::find` is reduced to a first-hit search over PATH followed by `binDir`. Left out are its `open_basedir` handling, its Windows executable suffixes and its `is_executable` test. Which directories hold `java` is an input.
- `is_dir` is the `directories` set, with the empty path excluded. A path and the same path with a trailing `/` are two separate entries, so the model does not tie them together.
- `File::allFiles` is an input listing. The model does not tie it to the stripped target directory, does not compute it from a file tree, and does not cover the Finder's own errors.
- `File::move` is recorded as a list of moves and not carried out. The model says nothing about name clashes in the output directory, or about failures while moving.
- The tabula-java jar itself: it is an external executable.
- `parse`'s `$format`, `$target` and `$output` are limited to strings or `null` (modelled as `""`). Other PHP values are not modelled: an integer `0` format is `empty()`, and an array format makes `strtoupper` throw a `TypeError`.
- The constructor's `binDir` argument is limited to `null`, a string or a list of strings. Other truthy PHP values, such as `true` or an integer, would be wrapped as well and are not modelled. `setBinDir` is typed as a list of strings, although PHP accepts any value there.
- The default jar path is `__DIR__` followed by a relative suffix. `__DIR__` is a parameter of the constructor.
- `strtoupper` and `strtolower` map ASCII letters only. That is PHP 8.2 behaviour. Earlier versions depend on the locale.
- `Str::endsWith` is modelled for non-empty suffixes only. Those are the only ones `parse` passes (`/` and `.csv`, `.tsv`, `.json`).
- The wider option set (`--page`, `--area`, `--guess`, `--lattice`, `--stream`, `--outfile`, `--columns`, `--password`, `--silent`) and the JVM tuning flags do not occur in this class. The wrapper emits only `-f` and `-b`, and the model follows the class.

## Findings

| source | as written | input that shows it | evidently intended | confidence | as-written member | corrected member |
|---|---|---|---|---|---|---|
| src/InitRed/Tabula/Tabula.php:120-133 | `java` is searched on PATH and in `binDir`, but the command starts the bare `java`, which only PATH can supply | `binDir` `["/opt/jdk/bin"]`, `java` only in `/opt/jdk/bin`, PATH `/usr/bin`, format `CSV`, existing `in` and `out`: every check passes and the run fails with the shell's "not found" output | the process starts the binary the search found, so `binDir` makes a `java` outside PATH usable | high (not executed) | `TabulaProperties.BinDirJavaNeverRuns` | `TabulaWrapper.ParseSpecRunningFoundJava` |

`Tabula.Parse` models the code as written and computes `ParseSpec`.
`ParseSpecRunningFoundJava` is the corrected definition. `BinDirJavaNeverRuns` and
`ExampleBinDirJava` show the two disagree on the input above, and `FoundJavaAgreesOnPath`
shows they agree, up to the first word of the command, whenever PATH holds `java`.
