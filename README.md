# Cleanup — a Dafny model

`Cleanup` is a command-line utility that deletes old files below a directory:

```
Cleanup directory age [/F:filter] [/R] [/D] [/SIM] [/LOG[:logfile]]
```

It walks the directory post-order: with `/R` it cleans each subdirectory first, then its own files, then the directory itself.
- A file is deleted when its age in days is at least `age` and its name matches the `/F:` glob when one is given. A file's age is measured from the younger of its modification and creation times.
- With `/R /D`, every directory below the root that is left with no files and no subdirectories is removed, unless its delete fails. Without `/R` only the root is visited, and the root is never removed.
- `/SIM` reports what would be deleted without deleting anything.
- The program counts deleted files, bytes, directories and errors, and prints a summary with sizes in B/KB/MB/GB.

The model covers the whole of `Program`'s logic, one module per concern:

| file | module | what it holds |
|---|---|---|
| `wrappers.dfy` | `Wrappers` | `Option` |
| `glob.dfy` | `Glob` | the `/F:` filter. `Matches` works directly on the pattern; `Compile`/`Denotes` mirror the regular expression the program builds (`*` becomes `.+`, `?` becomes `.`, anchored at both ends). |
| `file_age.dfy` | `FileAge` | `GetFileAge` on timestamps in ticks, with `TimeSpan.Days` truncating toward zero |
| `size_format.dfy` | `SizeFormat` | `FormatSize`: the loop as written and a rounded variant |
| `arguments.dfy` | `Arguments` | the command line. `Classify` handles one argument, `Parse` is the specification of the argument loop, and the method `ParseArguments` is the loop itself. |
| `traversal.dfy` | `Traversal` | the directory tree as a value. `Files`, `Subdirs` and `CleanDir` specify `CleanupDirectory`: what is left of the tree, and the counters and lines it produces. |
| `cleanup.dfy` | `Cleanup` | class `Cleaner`. It holds the static counters of `Program` as fields, plus the lines written so far. Its method `CleanupDirectory` is the recursive walk with its two loops. `Run` is `Main` without its console and log output. |
| `traversal_properties.dfy` | `TraversalProperties` | what the walk guarantees |
| `file_fates.dfy` | `FileFates` | which files survive the walk, and the one line (or none) written about each file |
| `dir_removal.dfy` | `DirRemoval` | when a directory gets a line and when it is removed |
| `failures.dfy` | `Failures` | the counters when deletes fail: each candidate is counted as deleted or as an error |
| `simulation.dfy` | `Simulation` | how `/SIM` compares with a real run |
| `subdir_fates.dfy` | `SubdirFates` | which subdirectories survive the walk and what is left of them; that what is left of the tree does not depend on the counters |

Parameters stand in for the environment:
- the directory tree is a `Dir` value, and `Run` gets `None` when the directory does not exist;
- `DateTime.Today` is an integer number of ticks;
- a set of paths (each a sequence of names from the root) lists the files and directories whose deletion throws.

The program writes each "Deleted file", "Error" or "Deleted dir" line as an `Event` in the order it writes them, and the lemmas speak about that sequence.

Two facts about `Program.cs` that the model follows:
- there is a single `/F:` filter, matched case-sensitively (`Regex.IsMatch` without options);
- under `/SIM` a directory is counted only if it was already empty, because nothing is actually deleted (`TraversalProperties.SimulationMissesEmptiedDirectories`, `Simulation.SimulatedDirLines`).

## Model

| member | source | states |
|---|---|---|
| Glob.MatchesIffDenotes | Cleanup/Program.cs:53-55 | the recursive matcher accepts a name exactly when the anchored pattern built from the filter (`*` as one or more characters, `?` as one, everything else literal) denotes it, in both directions |
| Glob.CompileTail | Cleanup/Program.cs:54-55 | the pattern is translated one character at a time, so the translation of a pattern's tail is the tail of its translation |
| Glob.MatchLength | Cleanup/Program.cs:55 | a matching name is at least as long as the filter, and exactly as long when the filter has no `*` |
| Glob.LiteralMatchesItselfOnly | Cleanup/Program.cs:54-55 | a filter without wildcards matches exactly the name equal to it, case included |
| Glob.StarNeedsOneCharacter | Cleanup/Program.cs:55 | `/F:*` matches every non-empty name and not the empty one |
| Glob.LogPatternExamples | Cleanup/Program.cs:130-133 | `*.log` accepts `app.log` and rejects `.log` and `app.LOG` |
| FileAge.WholeDays | Cleanup/Program.cs:186-187 | `TimeSpan.Days` is the whole number of days truncated toward zero, for spans of either sign |
| FileAge.Age | Cleanup/Program.cs:179-188 | the age is the whole days since the later of the write and creation times |
| FileAge.WholeDaysMonotone | Cleanup/Program.cs:186-187 | a longer span never has fewer whole days |
| FileAge.AgeIsAtMostEitherAge | Cleanup/Program.cs:181-187 | the age is at most the age by modification and at most the age by creation |
| FileAge.AgeExampleTenAndThirty | Cleanup/Program.cs:181-187 | written 10 days ago and created 30 days ago gives age 10 |
| FileAge.AgeOfFilesFromTodayAndTheFuture | Cleanup/Program.cs:183-187 | a file stamped later today has age 0, and one stamped a day or more ahead has a negative age |
| SizeFormat.UnitFor | Cleanup/Program.cs:192-198 | the unit chosen is the largest of B/KB/MB/GB whose scale does not exceed the size, and GB for anything larger |
| SizeFormat.FormatSize | Cleanup/Program.cs:190-200 | the loop stops at `UnitFor(size)` with the value equal to the size divided by that unit's scale and rounded down; below GB the value is under 1024; negative sizes are shown as they are, in B |
| SizeFormat.DivideStep | Cleanup/Program.cs:196-197 | one pass of the loop keeps the value equal to the size in the current unit, rounded down |
| SizeFormat.FormatSizeExamples | Cleanup/Program.cs:190-200 | 1536 bytes come out as 1 KB, 1 TiB as 1024 GB, and 0 as 0 B |
| SizeFormat.FormatSizeRounded | Cleanup/Program.cs:199 | the value in hundredths of a unit that `{0:0.##}` asks for, rounded to the nearest hundredth, in the same unit |
| SizeFormat.RoundedExample | Cleanup/Program.cs:199 | 1536 bytes are 1.50 KB |
| Arguments.ParseInt | Cleanup/Program.cs:37 | `int.Parse` accepts an optional sign followed by decimal digits, and only values in the 32-bit range |
| Arguments.Digits | Cleanup/Program.cs:37 | the decimal spelling of a number is made of digits |
| Arguments.DigitsValueOfDigits | Cleanup/Program.cs:37 | reading the decimal spelling of a number gives the number back |
| Arguments.ParseDecimal | Cleanup/Program.cs:37 | every 32-bit age written in decimal, negative ones included, parses back to itself |
| Arguments.Classify | Cleanup/Program.cs:41-62 | an argument is rejected exactly when it is no switch, no `/LOG`, no `/F:` and differs from both the directory and the age argument |
| Arguments.RejectionIsFinal | Cleanup/Program.cs:57-62 | once an argument is rejected, later arguments change nothing |
| Arguments.FlagsExclusive | Cleanup/Program.cs:41-50 | an argument is at most one of `/D`, `/R`, `/SIM`, `/LOG…` and `/F:…` |
| Arguments.ParseArguments | Cleanup/Program.cs:34-70 | the argument loop computes exactly `Parse` |
| Arguments.ClassifyAllRejects | Cleanup/Program.cs:57-62 | the scan is rejected exactly when some argument is stray, and then it names the first stray argument |
| Arguments.ParseFailsIff | Cleanup/Program.cs:34-70 | usage is shown exactly when there are fewer than two arguments, the age is not a 32-bit integer, or some argument is stray |
| Arguments.ClassifyAllSwitches | Cleanup/Program.cs:41-43 | `/D`, `/R` and `/SIM` are set exactly when some argument equals them, ignoring case |
| Arguments.ClassifyAllFilter | Cleanup/Program.cs:50-56 | the filter is the text after `/F:` of the last `/F:` argument, and absent when there is none |
| Arguments.ClassifyAllLogName | Cleanup/Program.cs:44-49 | the log name comes from the last `/LOG` argument: the text after `/LOG:`, or `Cleanup.log` |
| Arguments.ClassifySwitches | Cleanup/Program.cs:41-46 | one accepted argument turns `/D`, `/R`, `/SIM` or `/LOG` on exactly when it is that switch, turns none off, and keeps the directory and the age |
| Arguments.ClassifyOptions | Cleanup/Program.cs:44-56 | one accepted argument sets the log name exactly when it is a `/LOG` argument and the filter exactly when it is an `/F:` argument |
| Arguments.ParseOk | Cleanup/Program.cs:36-63 | a successful parse takes the directory from the first argument and the age from the second, and sets every option as the arguments say |
| Arguments.ParseExamples | Cleanup/Program.cs:34-70 | an extra argument is reported as incorrect; a missing or non-numeric age shows usage |
| Cleanup.Cleaner.constructor | Cleanup/Program.cs:13-16 | the counters start at zero and no line has been written |
| Cleanup.Cleaner.HandleFile | Cleanup/Program.cs:122-156 | one file moves the counters, the lines and the list of files still there exactly as `FileStep` says: skipped when the filter rejects it or it is too young, otherwise deleted and counted, or counted as an error when its delete throws |
| Cleanup.Cleaner.CleanupDirectory | Cleanup/Program.cs:105-177 | the walk leaves the tree, the removed flag, the counters and the lines exactly as `CleanDir` specifies from the counters it started with |
| Cleanup.Run | Cleanup/Program.cs:29-103 | `Main` shows usage for the reason `Parse` gives, reports a missing directory, or walks the tree from zeroed counters and returns what is left of it with the totals, as `RunSpec` says; the log is not modelled (see "## Left out") |
| Cleanup.RunAsWrittenNeedsLog | Cleanup/Program.cs:94-96 | as written, a run over an existing directory fails at its first output line exactly when `/LOG` is absent; otherwise it agrees with the intended run |
| Cleanup.PlainCallCrashes | Cleanup/Program.cs:233-242 | `Cleanup C:\Temp 30` never reaches the walk as written, while the intended run finishes |
| Cleanup.FinishedRun | Cleanup/Program.cs:94-100 | a finished run's totals agree with its lines, the root is not removed, and under `/SIM` the tree is unchanged |
| Cleanup.FinishedWalk | Cleanup/Program.cs:96 | the same three facts for a walk from the root with zeroed counters |
| TraversalProperties.FilesGrow | Cleanup/Program.cs:121-157 | the file loop never lowers a counter and only appends lines |
| TraversalProperties.CleanDirGrows | Cleanup/Program.cs:105-177 | a directory's walk never lowers a counter and only appends lines |
| TraversalProperties.SubdirsGrow | Cleanup/Program.cs:110-114 | the subdirectory loop never lowers a counter and only appends lines |
| TraversalProperties.AppendConsistent | Cleanup/Program.cs:146-174 | counters that move by what one new line reports stay in agreement with the lines |
| TraversalProperties.FileStepConsistent | Cleanup/Program.cs:136-155 | one file's handling keeps the counters in agreement with the lines |
| TraversalProperties.FilesConsistent | Cleanup/Program.cs:121-157 | the file loop keeps the counters in agreement with the lines |
| TraversalProperties.CleanDirConsistent | Cleanup/Program.cs:105-177 | files, bytes, directories and errors always equal what the lines written report |
| TraversalProperties.SubdirsConsistent | Cleanup/Program.cs:110-114 | the subdirectory loop keeps the counters in agreement with the lines |
| TraversalProperties.SimulatedStepKeeps | Cleanup/Program.cs:141-145 | under `/SIM` a file is kept whatever happens to it |
| TraversalProperties.FilesSimulated | Cleanup/Program.cs:121-157 | under `/SIM` every file of a directory is kept, in order |
| TraversalProperties.CleanDirSimulated | Cleanup/Program.cs:160-169 | under `/SIM` no directory is removed and the whole tree is left as it was |
| TraversalProperties.SubdirsSimulated | Cleanup/Program.cs:110-114 | under `/SIM` every subdirectory is kept, in order |
| TraversalProperties.FileStepWrites | Cleanup/Program.cs:138-155 | one file's handling appends at most one line, and that line is about that file |
| TraversalProperties.FilesOwn | Cleanup/Program.cs:121-157 | every line the file loop writes is about a file of that directory |
| TraversalProperties.CleanDirWithin | Cleanup/Program.cs:105-177 | every line a directory's walk writes is about that directory, one of its files, or something below it |
| TraversalProperties.SubdirsDeep | Cleanup/Program.cs:110-114 | every line written while walking the subdirectories is about something strictly inside them |
| TraversalProperties.CleanDirPostOrder | Cleanup/Program.cs:105-177 | no line about a subdirectory's contents follows a line about the directory's own files or the directory itself |
| TraversalProperties.RootNeverDeleted | Cleanup/Program.cs:163 | the root is never removed and no line reports it deleted |
| TraversalProperties.SubdirsUntouched | Cleanup/Program.cs:113 | without `/R` the subdirectory loop keeps every subdirectory and writes nothing |
| TraversalProperties.NoRecursion | Cleanup/Program.cs:110-114 | without `/R` the subdirectories are kept as they are and every line is about the directory itself or its own files |
| TraversalProperties.FilesKeepDirectories | Cleanup/Program.cs:121-157 | the file loop never touches the directory counter |
| TraversalProperties.NoPruningWithoutD | Cleanup/Program.cs:163 | without `/D` no directory is removed or counted and every line is about a file |
| TraversalProperties.SubdirsNoPruning | Cleanup/Program.cs:110-114 | without `/D` the subdirectory loop counts no directory and writes only file lines |
| TraversalProperties.FilesAllDeleted | Cleanup/Program.cs:136-148 | in a real run with no failures, a directory whose files are all selected keeps none of them |
| TraversalProperties.CollapseBottomUp | Cleanup/Program.cs:105-177 | with `/R /D`, no failures and only old files, one pass empties the tree and removes every directory except the root |
| TraversalProperties.SubdirsCollapse | Cleanup/Program.cs:110-114 | under the same conditions every subdirectory is removed |
| TraversalProperties.FilesCount | Cleanup/Program.cs:130-148 | the failure-free case of `Failures.FilesTally`: when no delete fails, the file loop counts exactly the selected files and their bytes, and no error |
| TraversalProperties.CleanDirCounts | Cleanup/Program.cs:105-177 | when no delete fails, the files and bytes counted are exactly the selected files of the tree the walk reaches (all of it with `/R`, the top directory otherwise), and no error is counted |
| TraversalProperties.SubdirsCount | Cleanup/Program.cs:110-114 | when no delete fails, the subdirectory loop counts exactly the selected files below, and nothing without `/R` |
| TraversalProperties.SimulationMissesEmptiedDirectories | Cleanup/Program.cs:163-167 | a subdirectory holding one old file counts as a deleted directory in a real `/R /D` run, but not with `/SIM` added |
| FileFates.SurvivorsMembers | Cleanup/Program.cs:130-148 | a file is still there after the walk exactly when the filter rejects it, it is too young, its delete throws, or the run is a simulation |
| FileFates.FilesSurvivors | Cleanup/Program.cs:121-157 | the file loop keeps exactly those files, in listing order |
| FileFates.CleanDirFiles | Cleanup/Program.cs:105-177 | after its walk a directory holds exactly those of its files |
| FileFates.FilesLines | Cleanup/Program.cs:121-157 | the file loop appends, file by file, exactly the line each file gets: none for a non-candidate, an error when its delete throws in a real run, a deletion otherwise |
| FileFates.FileLinesElsewhere | Cleanup/Program.cs:146-152 | the file lines of a directory name no file outside it |
| FileFates.FileLinesPerFile | Cleanup/Program.cs:130-155 | with distinct file names, each candidate gets exactly one line naming its path (`DeletedFile` or `FileError`) and a non-candidate none |
| FileFates.FilesLinePerFile | Cleanup/Program.cs:121-157 | the same, for the lines the file loop itself appends |
| DirRemoval.RemovedOnlyWhenEmpty | Cleanup/Program.cs:160-169 | a directory is removed exactly when `/D` is given, it is not the root, the run is real, its delete succeeds, and at that moment it has no files and no subdirectories; which files and subdirectories are left is `FileFates.CleanDirFiles` and `SubdirFates.CleanDirSubdirs` |
| DirRemoval.DirLineWhenEmptied | Cleanup/Program.cs:160-175 | a directory's walk writes a line about the directory exactly when `/D` is given, it is not the root, and it is left with no files and no subdirectories; the line is an error exactly when its delete throws in a real run (that there is exactly one such line is `Failures.EmptinessCheckTally`) |
| SubdirFates.FilesShape | Cleanup/Program.cs:121-157 | the files the file loop keeps do not depend on the counters and lines written before it |
| SubdirFates.CleanDirShape | Cleanup/Program.cs:105-177 | what is left of a directory after its walk, and whether it is removed, do not depend on the counters and lines written before it |
| SubdirFates.SubdirsShape | Cleanup/Program.cs:110-114 | the subdirectories the subdirectory loop keeps do not depend on the counters and lines written before it |
| SubdirFates.NoSubdirSurvivors | Cleanup/Program.cs:110-114 | no subdirectory survives exactly when the walk of every subdirectory removes it |
| SubdirFates.SubdirsSurvivors | Cleanup/Program.cs:110-114 | with `/R`, the subdirectory loop keeps, in order, exactly the subdirectories whose own walk does not remove them, each as that walk leaves it |
| SubdirFates.CleanDirSubdirs | Cleanup/Program.cs:105-177 | after its walk a directory holds, with `/R`, exactly its surviving subdirectories as their walks left them, and without `/R` its subdirectories unchanged |
| SubdirFates.RemovedAfterContents | Cleanup/Program.cs:160-169 | a directory is removed only when every one of its files was deleted and every one of its subdirectories was removed by its own walk |
| Failures.FilesTally | Cleanup/Program.cs:130-155 | with any failing deletes, every candidate of the file loop is counted either as deleted, with its bytes, or as an error, and no directory error is written |
| Failures.CleanDirTally | Cleanup/Program.cs:105-177 | with any failing deletes, the files and bytes counted are the candidates reached minus those whose delete throws, and the errors counted are those failing candidates plus one per `DirError` line; with no possible failure there is no `DirError` line |
| Failures.SubdirsTally | Cleanup/Program.cs:110-114 | the same for the subdirectory loop, and nothing without `/R` |
| Failures.EmptinessCheckTally | Cleanup/Program.cs:160-175 | the emptiness check appends exactly one line when the directory is emptied under `/D` and is not the root, and none otherwise: a `DirError` with one more error when its delete throws, a `DeletedDir` with one more directory when it does not; it counts no file or byte |
| Simulation.SimulatedDirLines | Cleanup/Program.cs:160-169 | under `/SIM` a directory gets a line exactly when `/D` is given, it is not the root, and it was empty to begin with, and that line is never an error |
| Simulation.SameRuleSameFiles | Cleanup/Program.cs:130-148 | two failure-free runs with the same filter, age limit, date and `/R` count the same number of files |
| Simulation.SameRuleSameBytes | Cleanup/Program.cs:147 | two such runs count the same number of bytes |
| Simulation.SimulationCountsLikeRealRun | Cleanup/Program.cs:99-100 | `/SIM` reports the same files and total size as a real run deletes when no delete fails |

## Left out

- Console output, the usage text (`ShowUsage`), the `Cleanup started` and summary lines, and the text of each line are left out. A line is modelled as an `Event` carrying its path, age and size. The formatted size a line shows is `SizeFormat.FormatSize`.
- The log file is left out: opening it, a log file that cannot be opened (the `Unable to write` exit), the time stamps `Log` adds, and an exception thrown by `Output` inside a `try`.
- The file system is a value. Listing directories and reading a file's length or time stamps are taken to succeed. The listing order is the order of the sequences. A failed delete comes from a set of failing paths rather than from access rights, read-only files or files in use.
- Clearing `IsReadOnly` before a delete is folded into the failure set.
- `directory != rootDirectory` compares the root as typed on the command line, possibly relative, with `FullName` of each subdirectory. It is modelled as "not the top-level call" (path is not empty). When the string typed happens to equal a subdirectory's full name, the source would behave differently; that is not modelled.
- Directory links and junctions are not modelled: the tree is finite and acyclic, so a cycle under `/R` cannot occur.
- `DateTime.Today` is a parameter. Time zones, daylight saving and the range of `DateTime` are left out.
- `ToUpper` is modelled on ASCII letters only, without culture rules.
- `StartsWith("/LOG")` and `StartsWith("/F:")` are culture-sensitive comparisons in .NET; they are modelled as plain prefix tests.
- `int.Parse` is modelled without surrounding white space, culture-specific signs or digits.
- `Regex.Escape` is modelled as making every character other than `*` and `?` literal. .NET's `$` also matches before a final newline in a file name, and .NET's `.` does not match a newline while the model's `?` and `*` match any character; both are left out.
- File names are sequences of Unicode characters, not of UTF-16 code units. A `?` in the filter therefore takes a whole supplementary character (such as an emoji) where .NET's `.` takes only half of its surrogate pair, so `/F:?.txt` matches `😀.txt` in the model but not in the program. `Glob.MatchLength` and `Glob.LiteralMatchesItselfOnly` count lengths in characters.
- The counters are unbounded integers. The `int` and `long` overflow of `totalFiles`, `totalSize`, `totalDirectories` and `totalErrors` is not modelled.
- SizeFormat.FormatSizeRounded: defined for sizes of zero or more only. Every size the program formats is a file length or a sum of them.
- SizeFormat.FormatSize: the result is the number and unit index, not the formatted string. The `{0:0.##}` formatting of a whole number is the number itself.

## Findings

| source | as written | input that shows it | evidently intended | confidence | as-written member | corrected member |
|---|---|---|---|---|---|---|
| Cleanup/Program.cs:190-200 | `size` is a `long` divided with integer division, so `{0:0.##}` never has decimals to show | a 1536-byte file is shown as `1 KB` | `1.5 KB`, the size to two decimals in the chosen unit | medium, not executed | SizeFormat.FormatSize | SizeFormat.FormatSizeRounded |
| Cleanup/Program.cs:233-242 | `Log` writes to `logFile` unconditionally, but `logFile` is only opened under `/LOG` (lines 80-92) | `Cleanup C:\Temp 30` on an existing directory throws a null reference at the first `Output` (line 95), before anything is cleaned | write the log only when `/LOG` is given | high, not executed | Cleanup.RunAsWrittenNeedsLog | Cleanup.Run |
