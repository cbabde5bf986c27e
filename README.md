# stencil, modelled in Dafny

stencil is a system-wide templater. A directory holds `config.toml`, the
templates and a `backup/` directory. The configuration has four parts:
- a pair of delimiters, `template-before` and `template-after`;
- a list of files, each with an output `path`, a `template` and an optional
  `whitelist` of set names;
- named replacement sets, each a key/value table with an optional
  `whitelist-only` flag;
- a `backup` flag, which is on by default.

`stencil --run SET` works as follows:
- It checks that the set exists. If not, it fails, listing the sets that do.
- When `backup` is on, it copies every output file into `backup/`. Each copy
  is named after the file's canonical path, with the root dropped and the
  components joined by `.`.
- It then builds every file that the whitelist rule lets through. Each token
  `before key after` in the template is replaced by the key's value in the
  set, and the result is written to the output path.
- A missing key aborts that file only, before its output is opened. The
  error is logged and the run goes on with the next file.
- Messages are logged at the levels None < Warn < Trace, and a message is
  printed when its level is at most the level chosen by `--quiet` or
  `--verbose`.
- `--list-sets` prints the set names.

The model is organised as follows:
- **Substitution engine.** The token pattern (`Pattern`), how the regex
  iterator walks a template (`Matching`) and the substitution itself
  (`Substitution`) are modelled as specification functions. `replace_file`'s
  loop is an imperative method proved against them. `Rendering` proves that
  substituting a template written from gaps and keys gives back the gaps
  around the keys' values, and `Scenarios` works through concrete templates.
- **Decision rules.** The whitelist rule and the set check are in `Config`,
  the backup names in `Backup`, and the log filter in `Logging`.
- **The program's run.** The file system is modelled as a value in
  `FileSystem`, with Unix path texts resolved lexically in `Paths` and `[&str]::join` in
  `Text`. Over that disk, `Stencil` models `replace_file`, `backup_files`,
  `main_err` and `main`. `replace_file`, `backup_files` and the run are
  imperative methods proved equal to specification functions. `main_err` is
  a method whose contract states its outcome case by case, and the lines
  `main` prints are stated through `Output`. The lemmas state what a run does to the disk
  and what it prints.

`backup_files` canonicalizes every output path with `?` (src/main.rs:306-308).
With `backup` on, which is the default, a first run whose outputs do not exist
yet therefore fails before any file is built
(`Stencil.BackupAbortsOnMissingOutput`).

## Model

| member | source | states |
|---|---|---|
| Pattern.ReadLiteralOfEscape | src/main.rs:218-219 | `regex::escape` makes a delimiter literal: reading the escaped text back yields exactly the delimiter and stops at the following metacharacter |
| Pattern.RegexSourceParses | src/main.rs:214-222 | the pattern text is the escaped `before`, the lazy `key` group and the escaped `after`, and nothing else: parsing it recovers both delimiters |
| Pattern.RegexSourceInjective | src/main.rs:214-222 | distinct delimiter pairs compile to distinct patterns |
| Matching.FindClose | src/main.rs:216-221 | the lazy `.*?` capture ends at the first `after` reached without crossing a newline, and there is none when a newline comes first |
| Matching.MatchAt | src/main.rs:216-221 | a match found at a position is a match of the pattern (delimiters around a newline-free key with no earlier `after`), and it is the only one there |
| Matching.MatchHasClose | src/main.rs:216-221 | a match needs the closing delimiter: a template lacking the first character of `after` holds no token |
| Matching.MatchUnique | src/main.rs:216-221 | at most one match starts at a given position: the key is determined by the lazy capture |
| Matching.NextMatch | src/main.rs:253 | the iterator's next step returns a match at or after the cursor |
| Matching.NextMatchLeftmost | src/main.rs:253 | the next step finds a match whenever one starts at or after the cursor, and none that it finds starts later than any such match |
| Matching.NextMatchFinds | src/main.rs:253 | a match with no opening delimiter between the cursor and it is the one the iterator yields next |
| Matching.Matches | src/main.rs:253 | `captures_iter` yields matches in increasing, non-overlapping order, each a match of the pattern |
| Matching.MatchesLeftmostFirst | src/main.rs:253 | each yielded match is the leftmost one starting at or after the point where its search began |
| Matching.MatchesComplete | src/main.rs:253 | no match starts at or after the end of the last yielded match: the scan misses nothing |
| Substitution.FirstMissing | src/main.rs:253-261 | finds the first token, in document order, whose key the set lacks: all earlier keys are present, and with no such token all keys are present |
| Substitution.SubstituteFails | src/main.rs:253-261 | a file fails exactly when some token's key is missing from the set, and the error names a missing key all of whose predecessors are present |
| Substitution.ScanStep | src/main.rs:252-267 | one loop iteration: a missing key is the whole substitution's error; otherwise the match extends the handled prefix, whose output grows by the gap before the match and the value |
| Substitution.ReplaceTemplate | src/main.rs:248-270 | the loop succeeds exactly when the substitution does and then returns its text; otherwise it reports the template path, the first missing key and the set |
| Substitution.SubstituteLength | src/main.rs:263-270 | output length is the template length, minus the matched spans, plus the values' lengths |
| Substitution.SubstituteOwnTextIsIdentity | src/main.rs:263-270 | text between tokens is copied verbatim: when each key's value is its own token text, the output is the template |
| Substitution.NoOpeningDelimiterIsIdentity | src/main.rs:249-270 | a template with no opening delimiter is written unchanged, whatever the set |
| Substitution.NoMatchIsIdentity | src/main.rs:249-270 | a template in which the pattern matches nowhere is written unchanged, whatever the set |
| Substitution.AssembleThenExpand | src/main.rs:263-270 | the loop's output, built token by token from the end, equals the output read from the front: gap, value, the rest |
| Substitution.SubstituteExpands | src/main.rs:249-270 | when every key is present, the output is the first gap, the first value, and so on, ending with the tail after the last token |
| Rendering.RenderedTokens | src/main.rs:253 | scanning a template written from gaps and keys finds exactly the written tokens, with the written keys in order |
| Rendering.RenderThenSubstitute | src/main.rs:252-270 | substituting a template written from gaps and keys whose keys all have values gives the gaps around the values; the values are not scanned again |
| Rendering.RenderMissingKey | src/main.rs:253-261 | substituting such a template with a key missing fails with the first missing key in written order |
| Scenarios.AdjacentTokensScan | src/main.rs:216-221 | `{{a}}{{b}}` holds two tokens, `a` then `b`: the lazy key stops at the first `}}` |
| Scenarios.AdjacentTokens | src/main.rs:263-270 | `{{a}}{{b}}` with a = X and b = Y gives `XY` |
| Scenarios.Greeting | src/main.rs:263-270 | `Hello {{name}}, you are {{age}}.` becomes `Hello Ada, you are 36.` |
| Scenarios.NoRescan | src/main.rs:263-266 | a value that looks like a token (`{{b}}`) is written as it is |
| Scenarios.UnclosedToken | src/main.rs:249-270 | `x{{a`, an opening delimiter never closed, is no token and is written as it is |
| Scenarios.FirstMissingReported | src/main.rs:253-261 | with two keys missing, the error names the first one in the text |
| Config.DecideProcesses | src/main.rs:109-131 | a file is processed exactly when its whitelist names the set, or it has no whitelist and the set is not whitelist-only; each skip reason holds exactly in its case |
| Config.WhitelistOverrides | src/main.rs:110-121 | a file's whitelist makes the set's `whitelist-only` flag irrelevant to it |
| Config.SetNames | src/main.rs:79-81 | lists every set name exactly once, in the map's unspecified order |
| Config.NotDefinedListsSets | src/main.rs:86-97 | the error for an unknown set contains every available set name, at its place in the `, `-joined list |
| Backup.BackupNameIsFileName | src/main.rs:310-322 | the flattened name of a canonical file path is one ordinary file name: non-empty, not `.` or `..`, no `/` |
| Backup.BackupNameInjective | src/main.rs:310-321 | paths whose components contain no `.` get distinct backup names |
| Backup.BackupNamesCollide | src/main.rs:310-321 | `/a.b/c` and `/a/b.c` both get the backup name `a.b.c`; `Stencil.BackupLastWins` states that the later copy then overwrites the earlier |
| Logging.LevelFromFlags | src/main.rs:66-74 | `--verbose` selects Trace, `--quiet` alone selects None, and otherwise Warn; the if-chain tests `--verbose` first, though clap's `conflicts_with` (line 175) never lets both through |
| Logging.LevelOrder | src/main.rs:45-50 | the derived order None < Warn < Trace is a total order with None least and Trace greatest |
| Logging.PrintedMonotone | src/main.rs:368-372 | raising the configured level never hides a message that was printed |
| Logging.FlagsDecidePrinting | src/main.rs:368-372 | under the flags, a Warn or Trace message is printed exactly when verbose, or when not quiet and the message is a warning |
| Logging.VisibleCount | src/main.rs:368-372 | one line is printed per message whose level is at most the configured one |
| Logging.VisibleAppend | src/main.rs:368-372 | the lines printed for two runs of messages are those of the first followed by those of the second |
| Logging.VisibleExtremes | src/main.rs:368-372 | under Trace every Warn or Trace message is printed, and under None none is |
| Paths.ResolvePush | src/main.rs:242-246 | `PathBuf::push` of a relative text leads to its components followed from the base, and an absolute text replaces the base |
| Paths.ResolvePushName | src/main.rs:287-291 | pushing a single ordinary name adds exactly that component |
| Paths.ResolveDisplay | src/main.rs:306-308 | the text of a canonical path resolves back to the same path, from any working directory |
| FileSystem.LookupBelowFile | src/main.rs:199-205 | every path strictly below a reachable regular file fails with "Not a directory" |
| FileSystem.ReadAfterWrite | src/main.rs:272-280 | after creating or truncating and writing a file, reading it returns the text written, every path below it fails with "Not a directory", and every other path reads as before |
| FileSystem.WriteValid | src/main.rs:272-280 | a write adds or replaces exactly one file and keeps the disk well formed |
| FileSystem.CreateDirValid | src/main.rs:293 | creating the backup directory adds exactly that directory, which then canonicalizes to itself |
| FileSystem.CanonicalizeThenRead | src/main.rs:306-308 | a canonical path is normal, its text canonicalizes to itself, and it reads as the path it came from |
| FileSystem.EmptyPathNamesNothing | src/main.rs:272-280 | the empty path text names nothing: reading, creating, canonicalizing and copying from it fail with "No such file or directory" |
| FileSystem.WriteNeedsFileName | src/main.rs:272-280 | a file is created only under a non-empty text that does not end in `/`, `.` or `..`; an output path ending in `/` fails with "Is a directory" |
| FileSystem.CopyCopies | src/main.rs:333 | a copy needs a readable source, and the target then reads as the source; a directory source is refused as not a regular file |
| FileSystem.ReadThroughFile | src/main.rs:199-205 | a path that continues past a regular file by an ordinary name, by a final `/` or by a final `/.` fails with "Not a directory" |
| Stencil.ReplaceFile | src/main.rs:226-283 | `replace_file` returns the outcome of its specification: read the template under the configuration directory, substitute, then write the output |
| Stencil.ReplaceFileEffect | src/main.rs:247-280 | a file is built exactly when its template reads, all keys have values and the output can be written, and the output then holds the substitution; on any error the disk is unchanged |
| Stencil.ReplaceFileMissingKey | src/main.rs:253-261 | a file fails on a key exactly when a token's key is missing, and the error carries the template path, the set and the first missing key |
| Stencil.BackupFiles | src/main.rs:286-337 | `backup_files` returns the outcome of its specification: make the backup directory (an existing one is fine), then copy each output in order; the first failure stops |
| Stencil.BackupFrame | src/main.rs:286-337 | backup creates at most the backup directory and writes only files directly inside it; every other file is unchanged |
| Stencil.BackupAbortsOnMissingOutput | src/main.rs:305-308 | an output path that names nothing on the disk makes the backup fail |
| Stencil.BackupCopiesAll | src/main.rs:305-334 | after a successful backup, every output has a file in the backup directory under its flattened name; for an output outside the backup directory whose name no later output shares, that file holds the output's text from before the run |
| Stencil.BackupEachHolds | src/main.rs:305-334 | the copy loop leaves in each such backup file the text of its output |
| Stencil.BackupLastWins | src/main.rs:310-333 | when two outputs share a backup name, the backup holds the text of the later one: its copy overwrote the earlier |
| Stencil.Run | src/main.rs:85-141 | an unknown set fails with every defined set listed and touches nothing; otherwise the run is its specification: backup when asked, then each file in order |
| Stencil.ProcessNeverFails | src/main.rs:133-137 | the per-file loop never returns an error |
| Stencil.ProcessEachAppend | src/main.rs:109-138 | the loop over two runs of files is the loop over the first, continued over the second from the disk the first left, its log after the first's |
| Stencil.ProcessFileFails | src/main.rs:133-137 | a file that fails, wherever it stands, adds exactly its `building` trace and a Warn entry with its error, leaves the disk unchanged, and the files after it are still processed |
| Stencil.RunFailsOnlyInBackup | src/main.rs:100-138 | a run with a defined set fails exactly when its backup fails, and then with the backup's error |
| Stencil.ProcessFrame | src/main.rs:109-138 | the per-file loop changes only the outputs of files the whitelist rule lets through |
| Stencil.RunLog | src/main.rs:109-138 | every message of a run is logged at Warn or Trace |
| Stencil.RunOneFile | src/main.rs:100-138 | a run without backup over one eligible file, whose template reads and whose keys all have values, leaves the output holding the substituted template |
| Stencil.MainErr | src/main.rs:63-210 | `main_err` first logs the configuration directory (`--config`, else `.`). `get_config` reads `config.toml` there: a read error is the run's error, and a parse error is reported through `config_error_display` with that path; either changes nothing. `--list-sets` lists every set and wins over `--run`. `--run` is the run. With neither flag, nothing happens (the clap definition at lines 144-185 is a parameter) |
| Stencil.ConfigErrorDisplayParts | src/main.rs:340-349 | a configuration error starts by naming the file, ends with `:`, a newline and the parser's text, and carries ` at line ` right after the name exactly when the parser knows the position |
| Stencil.NatTextValue | src/main.rs:342-345 | line and column are printed in decimal: the digits read back as the number |
| Stencil.ConfigDirIsFile | src/main.rs:199-205 | `--config` naming a regular file makes reading `config.toml` fail with "Not a directory (os error 20)" |
| Stencil.OutputByFlags | src/main.rs:55-60 | quiet prints only the listed set names; verbose prints every message, the names and the error |
| Stencil.Program | src/main.rs:55-60 | `main` prints the visible log lines, the listed names and, unless quiet, the error line; quiet and verbose then print as OutputByFlags states |

## Left out

- Command-line parsing by clap (src/main.rs:144-185) is not modelled: the parsed arguments are a parameter (`Args`).
- TOML and serde deserialization is not modelled: the parser is a parameter of `MainErr` that returns a configuration or a TOML error with an optional line and column. Only `config_error_display`'s formatting is modelled.
- Substitution.Substitute, Substitution.ReplaceTemplate, Stencil.ReplaceFile: require a non-empty `template-before`, and `MainErr` requires every parsed configuration to have one. With an empty `before` the pattern can match the empty string, and the regex crate then steps past empty matches itself; that stepping is not modelled.
- The regex engine is not modelled: matching is stated over literal delimiters (leftmost start, shortest newline-free key, scan resumed at the end of the previous match), which is what the compiled pattern denotes.
- Text positions are character offsets, not UTF-8 byte offsets; the slices the loop takes are the same text either way.
- The `OnceCell` global and `println!` are not modelled as state: what reaches standard output is the sequence of lines returned by `Program`.
- `HashMap` iteration order is unspecified, so listed set names are stated only as each defined name exactly once.
- The file system is a value with files, directories and a working directory. Symbolic links, permissions, and the other error kinds of the operating system are not modelled. `..` is resolved lexically, so `file/..`, `file/../x` and `missing/..` lead where the text without the pair leads, instead of failing with "Not a directory" or "No such file or directory".
- File contents are strings: `read_to_string`'s "invalid UTF-8" error (src/main.rs:205, 248) is not modelled.
- Non-UTF-8 path components (the error at src/main.rs:315-319, and the `<non-utf8 filename>` fallback at line 258) are not modelled: all paths are strings.
- I/O error texts are those Linux gives for "not found", "file exists", "is a directory" and "not a directory". `fs::copy` from something that is not a regular file prints the Rust standard library's own message; the model uses its older wording, "the source path is not an existing regular file", while newer releases print "the source path is neither a regular file nor a symlink to a regular file".
- `fs::copy` returns a byte count, which the program ignores, and so does the model. A write is modelled as one step, so a write that fails halfway is not.
