# srcprof in Dafny

A model of `srcprof`, the source profiler. It walks a directory tree and keeps the
regular files whose extension is on an allow-list, skipping directories whose names
are on an ignore-list. It counts the lines and the size of every kept file. From that
list it derives three reports:

- the per-extension summary with a total row;
- the ranking of the largest files by line count;
- the distribution of line counts over 32 logarithmic bins.

It also models the helper that collects path patterns from `*ignore` files
(`src/ignore_dirs.rs`).

One module per file:

| module | file | models |
|---|---|---|
| `Wrappers` | `wrappers.dfy` | `Option` and `Result` |
| `Text` | `text.dfy` | `to_ascii_lowercase`; the order of `BTreeMap` keys |
| `Files` | `files.dfy` | `FileEntry`; paths; the in-memory stand-in for one file on disk |
| `Settings` | `settings.dfy` | `impl From<Opt> for Settings` |
| `Lines` | `lines.dfy` | `BufRead::lines().count()` |
| `PathFilter` | `path_filter.dfy` | `Path::extension`; the `filter_entry` and `filter_map` tests; the WalkDir traversal in `process_files` |
| `Measure` | `measure.dfy` | the `filter_map` of `process_file_list` and `process_file` |
| `Aggregate` | `aggregate.dfy` | the per-extension `BTreeMap` and the summary totals |
| `Ranking` | `ranking.dfy` | the stable sort, `take` and `break` of `show_listing` |
| `Histogram` | `histogram.dfy` | the bins and bar lengths of `show_distribution` |
| `IgnoreDirs` | `ignore_dirs.dfy` | `IgnoreDirs::query_from` and its two regular expressions |
| `Pipeline` | `pipeline.dfy` | `main` for a directory walk |
| `Seqs` | `seqs.dfy` | sequence and multiset lemmas shared by the proofs |

How the model represents the system:

- A directory tree is a value (`PathFilter.Node`). Children are kept in `read_dir` order.
- A file's contents and the outcome of each I/O call are fields of `Files.Source`.
- UTF-8 decoding is a parameter, `Measure.Decoder`.
- The parallel `par_extend` (src/main.rs:277) appends its results in the sequential order of the source iterator, so it is modelled as the ordered sequential filter-map.
- The `BTreeMap` is a strictly sorted list of rows.
- A run that would panic is an `Err` value that says which panic happens.
- The regular expressions are matched exactly as written. So a bare `ignore` is not an ignore-file name: `^.[a-z]*ignore$` needs one character before `ignore` (IgnoreDirs.IgnoreFileRejected).

## Model

| member | source | states |
|---|---|---|
| Text.LowerChar | src/main.rs:253 | ASCII upper-case letters move up by 32 code points to their lower-case letter and every other character is unchanged; the result is never an ASCII upper-case letter |
| Text.ToAsciiLowercase | src/main.rs:253 | the result has the input's length and lower-cases each character on its own |
| Text.LowercaseIdempotent | src/main.rs:253 | lower-casing twice is the same as lower-casing once |
| Text.LowercaseUnchanged | src/main.rs:253 | a name without ASCII upper-case letters is its own lower-case form |
| Settings.CutAll | src/main.rs:166 | mapping `ext[1..]` succeeds exactly when every entry is non-empty with an ASCII first character; on success entry i becomes entry i without its first character; on failure the panic names such an entry |
| Settings.CutAllStopsAtFirstPanic | src/main.rs:166-172 | once an entry panics, the entries after it change nothing |
| Settings.AllowList | src/main.rs:165-173 | both branches of the allow-list give the set of all defaults and user entries with the first character cut; it fails exactly when a user entry cannot be cut |
| Settings.ExtensionSet | src/main.rs:143-146 | the allow-list built from the sixteen default extensions fails only on a user entry |
| Settings.IgnoreDirSet | src/main.rs:174-182 | a name is ignored exactly when it is a default ignored directory or a user entry, taken verbatim |
| Settings.FromOptions | src/main.rs:141-186 | the settings fail exactly when an extension entry cannot be cut; otherwise they carry the allow-list, the ignore set, the negated `no_summary`/`no_distrib` flags, and the ranking and the `listing`, `enable_html`, `human_readable` and `utf8` flags as given |
| Settings.AllowListKeepsDefaults | src/main.rs:165-173 | every default and every user entry, cut, is on the allow-list |
| Settings.DefaultsKept | src/main.rs:143-182 | user entries add to the defaults and never remove one |
| Settings.DefaultExtensionNames | src/main.rs:143-166 | without user entries a name is allowed exactly when the name with a dot in front is one of the sixteen defaults |
| Settings.AllowListDotted | src/main.rs:165-166 | when every default carries a leading dot and the user adds nothing, a name is allowed exactly when its dotted form is a default |
| Settings.AllowListDuplicates | src/main.rs:165-173 | repeating a user extension does not change the allow-list |
| Settings.DuplicatesCollapse | src/main.rs:165-182 | repeating a user entry changes neither the allow-list nor the ignore set |
| Lines.PiecesConcat | src/main.rs:342 | the chunks `lines()` reads, put back together, are the whole input |
| Lines.PiecesShape | src/main.rs:342 | every chunk is non-empty; only the last chunk may lack a newline, and no chunk has one before its end |
| Lines.PiecesCount | src/main.rs:342-343 | the number of items `lines()` yields is the number of newlines plus one for an unterminated tail |
| Lines.CountLines | src/main.rs:342-343 | the loop returns the number of items `lines()` yields, which equals the closed form |
| Lines.Examples | src/main.rs:342-343 | empty input has 0 lines; `a`, `a\n` have 1; `a\n\n` has 2 |
| PathFilter.Extension | src/main.rs:252 | a file name has an extension exactly when it is not `..` and has a dot after its first character; the extension is what follows the last dot, and it contains no dot |
| PathFilter.ExtensionFound | src/main.rs:252 | `main.rs` has `rs`; `archive.tar.GZ` has `GZ`; `notes.` has the empty extension |
| PathFilter.ExtensionMissing | src/main.rs:252 | `.bashrc` and `Makefile` have no extension |
| PathFilter.ExtensionOfUpper | src/main.rs:252 | `LIB.RS` has the extension `RS` |
| PathFilter.LowercaseRS | src/main.rs:253 | `RS` lower-cases to `rs` |
| PathFilter.LowercaseMakefile | src/main.rs:253 | `Makefile` lower-cases to `makefile` |
| PathFilter.ExtensionKeyExamples | src/main.rs:252-253 | the filter looks up `LIB.RS` as `rs`; it looks up `Makefile`, which has no extension, by its whole name `makefile` |
| PathFilter.WalkNode | src/main.rs:240-258 | the walk accepts no more files than it visits entries |
| PathFilter.WalkChildren | src/main.rs:240-258 | the walk over sibling entries accepts no more files than it visits entries |
| PathFilter.WalkNodeExact | src/main.rs:242-256 | a candidate is yielded exactly when its path leads through directories not on the ignore-list to a regular file whose key is allowed |
| PathFilter.VisibleAvoidsIgnored | src/main.rs:244-255 | no directory on a yielded path is ignored, and the file name passes the allow-list |
| PathFilter.WalkAccepted | src/main.rs:244-256 | every file the walk yields has a non-empty path, no ignored directory on it, and an allowed key |
| PathFilter.IgnoredDirectoryPruned | src/main.rs:244 | an ignored directory is pruned with everything below it, and it is not counted as walked, even as the root |
| Measure.Size | src/main.rs:287-314 | in utf8 mode the size is the decoded character count and needs the second open and a valid decoding; otherwise it is the metadata length and needs the metadata |
| Measure.MeasureFile | src/main.rs:277-369 | a file is measured exactly when it opens and its size is available; its entry carries its path, its line count and that size |
| Measure.MeasureAll | src/main.rs:277-317 | an entry is in the measured list exactly when some candidate measures to it; no more entries than candidates |
| Measure.MeasureAllAppend | src/main.rs:277 | measuring a concatenated list measures each part in order |
| Measure.FailureIsolated | src/main.rs:279-313 | a file that fails to open, read or stat drops out alone, and the rest of the list is unchanged |
| Measure.MeasureAllLength | src/main.rs:277-317 | the measured list has one entry per candidate that measures |
| Aggregate.Add | src/main.rs:322-325 | `entry(ext).or_default()` and the three additions keep the table sorted; the key's row grows by the stats and every other lookup is unchanged |
| Aggregate.AddKeepsRowsNonEmpty | src/main.rs:322-325 | adding a file keeps every row at one file or more |
| Aggregate.Fold | src/main.rs:319-326 | the loop over the measured list keeps the table sorted with no empty rows |
| Aggregate.Aggregate | src/main.rs:319-326 | the loop finishes exactly when every measured file has an extension |
| Aggregate.AggregatePanics | src/main.rs:320 | the loop panics exactly when some measured file name has no extension |
| Aggregate.FindAfterAdd | src/main.rs:322-325 | one file changes only the row of its own key |
| Aggregate.FindFold | src/main.rs:319-326 | after the loop each row is the earlier row plus the sum over the files with that key |
| Aggregate.FoldPointwise | src/main.rs:319-326 | from an empty map, a key's row is the sum over the files with that key, and keys without files have no row |
| Aggregate.AggregatePointwise | src/main.rs:319-326 | the row for extension k counts exactly the files whose lower-cased extension is k, with their lines and sizes summed |
| Aggregate.KeyStatsPermutation | src/main.rs:319-326 | per-key sums do not depend on the order of the list |
| Aggregate.FoldPermutation | src/main.rs:319-326 | the table does not depend on the order of the list |
| Aggregate.AggregatePermutation | src/main.rs:319-326 | the summary does not depend on the order the files were measured in, panic included |
| Aggregate.TotalFold | src/main.rs:466-468 | the loop adds every file to the total row |
| Aggregate.AggregateTotals | src/main.rs:455-469 | the total row counts every measured file with its lines and size |
| Aggregate.Tabulate | src/main.rs:319-326 | the corrected aggregation by the key the filter used gives a sorted table with no empty rows |
| Aggregate.TabulatePointwise | src/main.rs:319-326 | its row for k counts exactly the files the filter looked up as k |
| Aggregate.TabulatePermutation | src/main.rs:319-326 | the corrected table does not depend on the order of the list |
| Aggregate.TabulateTotals | src/main.rs:455-469 | the corrected total row counts every measured file |
| Aggregate.AggregateAgrees | src/main.rs:319-326 | where the source does not panic, the corrected table is exactly its table |
| Aggregate.EmptyInput | src/main.rs:455-469 | no files give an empty summary and a zero total |
| Ranking.Insert | src/main.rs:504 | inserting into a list sorted by falling line count keeps it sorted and adds one element |
| Ranking.InsertPermutes | src/main.rs:504 | insertion adds exactly the new file |
| Ranking.InsertStable | src/main.rs:504 | insertion places the new file before the files with the same line count and keeps their order |
| Ranking.SortDesc | src/main.rs:504 | `sort_by_key(Reverse(lines))` gives a list sorted by falling line count of the same length |
| Ranking.SortDescPermutes | src/main.rs:504 | the sorted list is a permutation of the input |
| Ranking.SortDescStable | src/main.rs:504 | files with equal line counts keep their relative order |
| Ranking.StableSortUnique | src/main.rs:504 | two sorted lists with the same groups of equal line counts are equal |
| Ranking.SortDescIsTheStableSort | src/main.rs:504 | any sorted list that keeps the order within each group of equal line counts is the stable sort |
| Ranking.CountPositive | src/main.rs:506-508 | the number of non-empty files is at most the length |
| Ranking.CountPositiveInsert | src/main.rs:504-508 | insertion adds one non-empty file exactly when the new file is non-empty |
| Ranking.CountPositiveSort | src/main.rs:504-508 | sorting keeps the number of non-empty files |
| Ranking.PositivePrefix | src/main.rs:504-508 | in a sorted list the non-empty files come first |
| Ranking.TakeWhilePositiveIs | src/main.rs:506-508 | the `break` at the first empty file keeps the prefix before it |
| Ranking.TakePositivePrefix | src/main.rs:505-508 | `take(n)` followed by the `break` keeps the first min(n, non-empty count) sorted files |
| Ranking.TopPrefix | src/main.rs:504-508 | the loop of `show_listing` lists the first min(ranking, non-empty count) files of the sorted list |
| Ranking.Top | src/main.rs:485-508 | the ranking is a prefix of the stable sort; it has at most `ranking` files, falling line counts, and no empty file |
| Ranking.ExampleSort | src/main.rs:504 | files with 0, 5, 5 and 3 lines sort to 5, 5, 3, 0 with the two 5s in input order |
| Ranking.RankingExample | src/main.rs:504-508 | a ranking of 10 over them lists the three non-empty files and stops at the empty one |
| Histogram.BinUnique | src/main.rs:539-540 | a line count lies in at most one bin |
| Histogram.BinOf | src/main.rs:539-540 | `ceil(log_√2 L)` is the bin i with 2^(i-1) < L² ≤ 2^i |
| Histogram.BinOfIff | src/main.rs:539-540 | a line count's bin is i exactly when it lies in bin i |
| Histogram.BinOneEmpty | src/main.rs:539-540 | no line count lands in bin 1 |
| Histogram.BinInRange | src/main.rs:541 | a file lands in one of the 32 bins exactly when it has at most 46340 lines |
| Histogram.BinExamples | src/main.rs:539-540 | 1 line goes to bin 0, 2 lines to bin 2, 100 lines to bin 14 |
| Histogram.CountInSingle | src/main.rs:535-544 | one file counts in its own bin and no other; an empty file counts nowhere |
| Histogram.CountInPermutation | src/main.rs:535-544 | bin counts do not depend on the order of the list |
| Histogram.BuildHistogram | src/main.rs:534-544 | bin i of the loop's array counts the files with 1 to 46340 lines whose bin is i |
| Histogram.BinSumKept | src/main.rs:535-544 | the files counted in the 32 bins are the kept files |
| Histogram.HistogramTotal | src/main.rs:534-544 | the bins add up to the number of files with 1 to 46340 lines, and bin 1 stays 0 |
| Histogram.CountInNeverOne | src/main.rs:535-544 | bin 1 is always empty |
| Histogram.MaxOf | src/main.rs:546 | `max().unwrap_or(0)` bounds every element, is one of them when there are any, and is 0 otherwise |
| Histogram.MaxDirsBound | src/main.rs:546 | every bin from 1 on is at most `maxdirs` |
| Histogram.BarLength | src/main.rs:564-579 | the HTML bar is 0 for an empty bin, at most the width, and exactly the width for a fullest bin |
| Histogram.RenderersAgree | src/main.rs:575-587 | the text guard `0 < maxdirs && i != 0 && distrib[i] != 0` gives the same bar lengths as the HTML guard |
| Histogram.BarMonotone | src/main.rs:576 | a fuller bin never gets a shorter bar |
| Histogram.Bars | src/main.rs:566-597 | the 30 printed bins 2..31 get their bars, each within the width |
| Pipeline.EmptyDistribution | src/main.rs:534-587 | with no measured files every bin of the distribution is 0, nothing is kept and every bar has length 0 |
| IgnoreDirs.StarThenIgnoreIff | src/ignore_dirs.rs:21 | `[a-z]*ignore$` matches exactly the strings of lower-case ASCII letters that end in `ignore` |
| IgnoreDirs.IgnoreFilePatternIff | src/ignore_dirs.rs:19-26 | a name is an ignore file exactly when it has at least seven characters: any first character but a line feed, then only `a`-`z`, ending in `ignore` |
| IgnoreDirs.LettersThenIgnore | src/ignore_dirs.rs:19-26 | any run of lower-case letters followed by `ignore` satisfies the part of the pattern after the wildcard |
| IgnoreDirs.IgnoreFileAccepted | src/ignore_dirs.rs:63-82 | `.gitignore`, `.dockerignore`, `.ignore` and `gitignore` are ignore files |
| IgnoreDirs.IgnoreFileRejected | src/ignore_dirs.rs:63-82 | `src`, `build`, `.123ignore`, `README.md`, `.IGNORE` and the bare `ignore` are not |
| IgnoreDirs.MatchesBlankIff | src/ignore_dirs.rs:40 | `^\s*$` matches exactly the lines made of Unicode white space |
| IgnoreDirs.PathPatternIff | src/ignore_dirs.rs:38-45 | a line is dropped exactly when it starts with `#` or is all white space |
| IgnoreDirs.PathPatternExamples | src/ignore_dirs.rs:84-100 | `# build directory` and the empty line are dropped; `/build`, `build` and `.editorconfig` are kept |
| IgnoreDirs.PathPatternEdges | src/ignore_dirs.rs:38-45 | a comment after leading spaces is kept; a line of spaces and tabs is dropped |
| IgnoreDirs.StripTerminator | src/ignore_dirs.rs:51-53 | a `lines()` item is its chunk minus a suffix that is empty, `\n` or `\r\n`: empty exactly when the chunk does not end in `\n`, and `\r\n` exactly when the chunk ends in `\r\n` |
| IgnoreDirs.LinesOf | src/ignore_dirs.rs:51-53 | a text has one line per newline plus one for an unterminated tail; line k is the k-th `read_line` chunk stripped of its terminator, and no line holds a newline |
| IgnoreDirs.LinesOfStep | src/ignore_dirs.rs:51-53 | the first line comes from the first chunk and the others from the rest of the text |
| IgnoreDirs.ChunkRejoin | src/ignore_dirs.rs:51-53 | without carriage returns a chunk is its line plus the line feed it ended in, if any |
| IgnoreDirs.LinesRoundTrip | src/ignore_dirs.rs:51-53 | for a text without carriage returns, the lines each followed by a line feed give the text back, with a line feed added when the text lacked a final one |
| IgnoreDirs.KeepPatterns | src/ignore_dirs.rs:54-55 | the filter keeps exactly the lines that are patterns |
| IgnoreDirs.KeepOrdered | src/ignore_dirs.rs:54-55 | the kept lines appear in file order |
| IgnoreDirs.KeepCount | src/ignore_dirs.rs:54-55 | every occurrence of a pattern line is kept and every other line is dropped |
| IgnoreDirs.KeepAllPass | src/ignore_dirs.rs:54-55 | a file of patterns only is kept whole |
| IgnoreDirs.KeepIdempotent | src/ignore_dirs.rs:54-55 | filtering twice is filtering once |
| IgnoreDirs.KeepAppend | src/ignore_dirs.rs:51-55 | filtering a concatenation filters each part in order |
| IgnoreDirs.PatternsOf | src/ignore_dirs.rs:47-56 | every returned pattern is a line of the file and passes the filter, and there are at most as many patterns as lines |
| IgnoreDirs.PatternsOfExact | src/ignore_dirs.rs:47-56 | the patterns are exactly the file's pattern lines: each pattern line as many times as the file holds it, no other line, in file order |
| IgnoreDirs.IgnoreFiles | src/ignore_dirs.rs:28-36 | a directory entry is read exactly when its name is an ignore-file name |
| IgnoreDirs.PatternLists | src/ignore_dirs.rs:13-14 | one pattern list per ignore file, in listing order |
| IgnoreDirs.IgnoreFilesAppend | src/ignore_dirs.rs:28-36 | selecting ignore files from a concatenated listing selects from each part in order |
| IgnoreDirs.QueryLength | src/ignore_dirs.rs:10-17 | the query returns every pattern of every ignore file |
| IgnoreDirs.QueryAppend | src/ignore_dirs.rs:10-17 | the query over a listing is the queries over its parts, in order |
| IgnoreDirs.QuerySingle | src/ignore_dirs.rs:10-17 | one entry contributes its patterns when it is an ignore file, and nothing otherwise |
| Pipeline.Distribution | src/main.rs:534-544 | the distribution has 32 bins and bin 1 is 0 |
| Pipeline.RunAsWritten | src/main.rs:78-118 | the source's run only completes with valid settings, and it never measures more files than it walks |
| Pipeline.Run | src/main.rs:78-118 | the corrected run completes exactly when the settings are valid, and it never measures more files than it walks |
| Pipeline.RunAgrees | src/main.rs:319-326 | whenever the source's run completes, the corrected run reports exactly the same |
| Pipeline.RunFailsOnSettings | src/main.rs:165-173 | a run fails exactly when some extension entry cannot be cut, and the failure names such an entry |
| Pipeline.MeasuredAccepted | src/main.rs:244-317 | every measured file has a non-empty path with no ignored directory on it and an allowed key |
| Pipeline.RunPanicsOnBareName | src/main.rs:252-320 | with valid settings the source panics exactly when a measured file has no extension, and any such file was let in because its whole lower-cased name is on the allow-list |
| Pipeline.TableOfC | src/main.rs:319-326 | the source's loop panics on the entry for `c`; the corrected loop gives it the row `c` |
| Pipeline.FileNamedCPanics | src/main.rs:252-320 | with no flags given (so the ranking is its default of 10), a tree holding a file named `c` makes the source panic, while the corrected run measures it and counts it under `c` |
| Pipeline.SummarySound | src/main.rs:436-469 | every summary row is an allowed extension; the total row counts every measured file; measured ≤ accepted ≤ walked |
| Pipeline.DistributionOfMeasured | src/main.rs:534-544 | the distribution is that of the measured list even though the ranking sorted it first, and its bins add up to the files with 1 to 46340 lines |
| Pipeline.RankingOfMeasured | src/main.rs:485-508 | the ranking lists at most `ranking` measured files, by falling line count, none of them empty |

## Left out

- Git mode (`process_files_git`, src/main.rs:372-433): it depends on libgit2 and is compiled only with the `git2` feature.
- Printing, the HTML and text layouts, `format_human_readable`, and the bin labels drawn with `powf`. These are output formatting only.
- The floating-point `log` in `show_distribution` is replaced by its exact integer characterisation, 2^(i-1) < L² ≤ 2^i. This assumes the float logarithm rounds the same way at exact powers of two.
- `hconv` is modelled as the identity, the only function `main` passes.
- Command-line parsing (structopt), `canonicalize` and `current_dir`. The root is the tree handed to the run.
- The file system is a value. Reading file contents, `metadata`, the utf8 decoder, `read_dir` order and I/O errors inside the walk are inputs.
- Measure.MeasureFile: once a file opens, its contents are read without error. In src/main.rs:342-343 a read that fails partway makes `lines()` yield an `Err` item that `count()` counts as a line, and a read error that persists means the count never ends. Neither case is modelled, because `Files.Source` carries the contents as bytes and no read outcome.
- Rayon's threads are left out. Its order-preserving `par_extend` is modelled as a sequential map.
- Integer widths (`usize`, `u64`) are unbounded. The sums cannot overflow on any real tree. `ranking` keeps its `u32` range.
- File names are Dafny strings. Non-UTF-8 `OsString` names and the `to_str().unwrap()` panic on them are left out.
- `IgnoreDirs`: the `read_dir`, `File::open` and `line.unwrap()` panics are left out. So is the `format!("{}/{}")` joining of paths. `query_from` takes the listing with each file's text.
- src/main.rs never declares the module (there is no `mod ignore_dirs;`), so src/ignore_dirs.rs is not compiled into the program and the pipeline does not use `IgnoreDirs`.
- Settings.ExtensionSet: names some user entry that cannot be cut. Which one is the first is stated separately by Settings.CutAllStopsAtFirstPanic.
- Measure.Size: the utf8 character count is the length of the decoder's result. UTF-8 decoding itself is a parameter, not modelled.
- Pipeline.RunAsWritten: its own contract states only validity and counting bounds. What it reports is stated by Pipeline.RunAgrees, Pipeline.RunPanicsOnBareName and the lemmas about Pipeline.Run.

## Findings

| source | as written | input that shows it | evidently intended | confidence | as-written member | corrected member |
|---|---|---|---|---|---|---|
| src/main.rs:252-320 | The filter falls back to the whole file name when there is no extension. The aggregation then calls `extension().unwrap()` on every accepted file. | Default settings (no flags, ranking 10) and a tree holding a regular file named `c` (or `h`, `rs`, `RS`, …): the filter accepts it, and the aggregation panics on `None`. | Aggregate each file under the key the filter accepted it by. Every accepted file then lands in a row. | medium, not executed | Pipeline.RunAsWritten, Pipeline.FileNamedCPanics | Aggregate.Tabulate, Pipeline.Run |
