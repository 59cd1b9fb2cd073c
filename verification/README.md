# Proofs about pgloader-go

This project models the parts of pgloader-go that move rows into PostgreSQL or decide what is moved, and
proves what they promise. Methods follow the Go code (same branches, same cursors, same state); each is
proved equal to a specification function, and the lemmas say what that function means. All results are for
every input, every run or every schedule.

## What is modelled

- **COPY text** (`CopyText`, `Lines`, `CopyBatch`). Rows are encoded as bytes. The decoder is an independent
  definition, written after the PostgreSQL manual page of `COPY`, "File Formats", "Text Format". Go strings
  are sequences of runes and stray bytes, so that sanitising is modelled. `Lines` is the server's view of a
  stream and the re-framing done by the PostgreSQL source.
- **Isolating bad rows** (`CopyRetry`). A COPY commits all its records or none, and fails exactly when some
  record is unacceptable. A probe of the search is a real COPY, so the target is a multiset.
- **Pipeline** (`Pipeline`), **shards** (`Shards`, with explicit 64-bit wrap-around), **monitor** (`Monitor`).
- **Parallel copy** (`Orchestrator`, `ParallelCopy`). Shard goroutines are a state machine. A schedule is any
  sequence of moves, faults and a cancellation by the caller, so a lemma over all schedules covers every
  interleaving. `ShardRuns` shows that a shard among others refines the pipeline. `Migration` copies all tables
  of a source, with or without shards; it waits until all shards of a table have finished.
- **The `.load` parser** (`Text`, `LoadReaders`, `LoadParser`, `SplitCommands`, `LoadFile`) with cursor methods
  and functions of the text that is left. A loop that never ends is an outcome of its own. The printer is
  `LoadPrinter`, `LoadRoundTrip`, `LoadCanonical`; `LoadLayout` covers the other ways to write a command,
  `LoadRejects` what is none. `LoadEndless` says exactly when parsing never ends; `LoadTermination` justifies that
  outcome round by round and shows what is dropped.
- **Index filters** (`FilterText`: the translation; `FilterWords`: its words; `FilterLexer`, `FilterMeaning`:
  tokens, grammar and three-valued truth of both SQL dialects; `FilterTranslation`: the simulation;
  `FilterLimits`: where it fails).
  The results are `FilterMeaning.FilterMeans` and `FilterMeaning.FilterKeepsMeaning`; equal truth in every row
  is a corollary.
- **Table patterns** (`TablePattern`), **CAST rules** (`CastRules`), **money** (`Money`), **integers** (`Int64Text`).

Text is a sequence of code points where the Go code works on UTF-8 bytes; every character that the parsers
look for is ASCII, so cuts fall in the same places.

## Where the code differs from what it promises

- Each good row of a batch that needed the search is committed twice: by its probe and by the clean batch
  (`CopyRetry.Retry.RetryBatch`, internal/copy/copy.go:288 and 335).
- Shards read every key exactly once if and only if `max` is below 2^63 - 1 and `min + concurrency - 1` is an
  int64 (`Shards.ExactCoverIffSafe`). A difference that overflows does no harm.
- An option list, and a list in parentheses, that reaches an item starting with `;` never ends, although the
  comment at internal/configfile/parser.go:370-372 speaks of preventing infinite loops. A semicolon inside
  `$$` gets there (`LoadFile.FileNeverEnds`). Parsing never ends if and only if a text handed to WITH, SET,
  CAST, INCLUDING, EXCLUDING, MATERIALIZE or a column list meets a `;` outside `'..'` before the list ends
  (`LoadEndless.EndlessExactly`); semicolons in SQL bodies, quoted values and quoted options do no harm.
- `INTO TARGET TABLE` compares 11 characters with 12 (internal/configfile/parser.go:223), so the branch is dead;
  `TARGET` becomes the target and all sections after it are dropped (`LoadTermination.IntoTargetTableDropsRest`).
- `MATERIALIZE VIEWS a` yields the view `VIEWS a` (`LoadTermination.MaterializeViewsKeepsWord`).
- A command may end after its source, and is then accepted without a target (`LoadRejects.CutAfterSource`); text
  after the target that starts no section drops all that follows without an error (`LoadRejects.UnknownDropped`).
- Comments are removed inside quotes as well (`LoadFile.CommentsKeptOutIff`).
- The filter translation squeezes white space inside names and literals (`FilterLimits.SpaceRunsChangeMeaning`):
  a filter keeps its meaning if and only if all white space in them is single spaces
  (`FilterMeaning.FilterKeepsMeaning`). The comment of `stripOuterParens` says one level; the loop strips all.
- `escapeCopyString` replaces invalid UTF-8 by `?`; its comment says U+FFFD. Exactly then a text does not come
  back as its own bytes (`CopyText.TextReturnsIff`).
- A row of width zero is read back as one empty field (`CopyText.CopyRoundTrip`).
- Money text without decimals loses its thousands (`Money.WholeAmountIff`); the least int64 is written as `-`
  (`Int64Text.ReadsBackIff`); the table pattern `~/` slices out of range (`TablePattern.PanicsExactly`), and
  so does a CAST rule type such as `)x(` (`CastRules.SplitPanicsExactly`).

## Model

| member | source | states |
|---|---|---|
| `CopyText.FormatRowToCopyText` | internal/copy/copy.go:79-118 | The loop over the values writes the encoding of the row that the round trip is about |
| `CopyText.EscapeCopyString` | internal/copy/copy.go:137-162 | Escaping rune by rune after sanitising equals escaping the UTF-8 bytes of the sanitised text |
| `CopyText.HexEncodeCopyBytes` | internal/copy/copy.go:124-131 | Appends the hex form with its doubled backslash, whatever is in the buffer |
| `CopyText.CopyRoundTrip` | internal/copy/copy.go:79-157 | PostgreSQL's reader gives back exactly the rows, if and only if no row has width zero |
| `CopyText.FieldQuoted` | internal/copy/copy.go:86-114 | A field reads as the NULL marker exactly when it is NULL, and has no raw delimiter |
| `CopyText.RowIsOneLine` | internal/copy/copy.go:79-118 | The only raw newline is the last byte, and the line is never the end-of-data marker |
| `CopyText.TabsSeparateFields` | internal/copy/copy.go:82-85 | Raw tabs stand between fields only: one fewer than there are fields |
| `CopyText.ValuesReturn` | internal/copy/copy.go:94-131 | Byte values come back through the bytea hex reader, integers through the integer reader |
| `CopyText.TextReturnsIff` | internal/copy/copy.go:137-162 | A text comes back as its own bytes exactly when all of it is valid UTF-8 |
| `CopyText.Utf8RoundTrip` | internal/copy/copy.go:154-157 | A UTF-8 reader that knows nothing of the encoder finds the runes in the bytes written for them |
| `CopyText.TextReads` | internal/copy/copy.go:137-162 | Decoded and read as UTF-8, a text field is the text with one `?` for each run of stray bytes |
| `CopyText.AsciiFields` | internal/copy/copy.go:98-113 | Integers are the ASCII digits of their decimal text, truth values `t` and `f` |
| `Lines.MapRows` | internal/source/pgsql/maprows.go:51-80 | The scanner loop yields the re-framed lines, or stops at a line that fills the buffer |
| `Lines.PassThroughExact` | internal/source/pgsql/maprows.go:54-75 | The re-framed stream is byte-identical iff it ends in a newline, has no CR before LF and no line at the size cap |
| `Lines.ScanSucceedsIff` | internal/source/pgsql/maprows.go:51-80 | The scan succeeds iff no line, the last one included, fills the buffer of 256 MiB |
| `Lines.RecordsOfConcat` | internal/copy/copy.go:219-223 | The server finds each concatenated framed row again |
| `CopyBatch.Batch.AddRow` | internal/copy/copy.go:39-54 | Appends one encoded row, keeps the counters true, reports full exactly at a limit |
| `CopyBatch.CopyWriter.FlushBatch` | internal/copy/copy.go:194-227 | Commits all records of the concatenated batch or none, by their acceptance |
| `CopyRetry.Retry.TestRange` | internal/copy/copy.go:322-337 | Succeeds iff every row of the range is acceptable, and then has committed the range; an empty range succeeds without a COPY |
| `CopyRetry.Retry.FindBadRows` | internal/copy/copy.go:298-318 | Returns the linear scan's bad indices, commits exactly the good rows once, makes exactly the probes counted below |
| `CopyRetry.BadIndicesExact` | internal/copy/copy.go:298-318 | The indices returned are exactly the unacceptable ones, ascending, without repeats |
| `CopyRetry.SuccessfulProbesPartition` | internal/copy/copy.go:301-318 | Successful probe ranges cover each good index exactly once and no other index |
| `CopyRetry.ProbeBound` | internal/copy/copy.go:301-318 | At most 1 + 2k ceil(log2 n) probes for k bad rows among n, and never more than 2n - 1 |
| `CopyRetry.CeilLog2Least` | internal/copy/copy.go:314-317 | The logarithm in the bound is the least exponent whose power of two reaches n |
| `CopyRetry.Retry.RetryBatch` | internal/copy/copy.go:241-295 | No error; imported + rejected = all; rejects the bad rows in order; commits good rows once, or twice after a search |
| `CopyRetry.SelectIsFilter` | internal/copy/copy.go:266-277 | The good rows and the rejected ones are the rows by acceptance, with multiplicity |
| `Pipeline.Pipeline.Run` | internal/pipeline/pipeline.go:35-105 | Delivers, commits and reports exactly the expected batches; stops as the feed or the target stops |
| `Pipeline.Pipeline.Flush` | internal/pipeline/pipeline.go:107-124 | One COPY and one event; a failure commits nothing and is not retried |
| `Pipeline.BatchesExactlyGreedy` | internal/pipeline/pipeline.go:78-86 | The batches are the one and only greedy batching of the rows |
| `Pipeline.BatchWithinLimits` | internal/pipeline/pipeline.go:82-98 | No batch is empty or over the row limit, and it is under the byte limit before its last row |
| `Pipeline.BatchReachesLimit` | internal/pipeline/pipeline.go:82-86 | Every batch but the last has as many rows as the row limit or as many bytes as the byte limit |
| `Pipeline.AttemptedReachesLimit` | internal/pipeline/pipeline.go:82-98 | So has every batch that is sent, delivered or failed; only one that holds the last rows of a source that ended well may be smaller |
| `Pipeline.DeliveredIsBatchPrefix` | internal/pipeline/pipeline.go:54-98 | Delivered rows are a whole-batch prefix; the run succeeds exactly when the source ended well and every row of it was delivered |
| `Pipeline.ReportedIsDelivered` | internal/pipeline/pipeline.go:107-124 | Totals of the write events are the rows and bytes delivered, however the run ends |
| `Pipeline.RowsArrive` | internal/pipeline/pipeline.go:52-105 | However a run over encoded rows ends, PostgreSQL reads a prefix of them from what was delivered, all of them after a success, iff no row has width zero |
| `Pipeline.StopReason` | internal/pipeline/pipeline.go:53-98 | Why a run ends: the rejected batch, else the first row seen cancelled or unsendable, else the end of the source |
| `Pipeline.LongLineFails` | internal/source/pgsql/maprows.go:51-80 | A stream of PostgreSQL fails its run for a line that fills the buffer, and for nothing else but a rejected batch |
| `Pipeline.CommittedRows` | internal/pipeline/pipeline.go:107-124 | For framed rows the target commits the delivered rows themselves |
| `Pipeline.PassThroughByteIdentical` | internal/source/pgsql/maprows.go:54-75 | For every stream and target: the stream arrives unchanged iff it passes through the scanner and each batch, or each record, is accepted |
| `Shards.ConcurrencySupport` | internal/source/pgsql/source.go:147-207 | No shards without concurrency, key or rows; else the wrapped ranges of the three sources |
| `Shards.ExactCoverIffSafe` | internal/source/pgsql/source.go:185-204 | Each key in [min, max] is read by exactly one shard iff two int64 tests hold |
| `Shards.SafeCovers` | internal/source/mysql/source.go:203-221 | Under the tests shards are pairwise disjoint on all keys and cover [min, max] |
| `Shards.EvenShards` | internal/source/pgsql/source.go:185-204 | The ranges in numbers: even shares of the span, one key each when it is small or too wide, the rest in the last |
| `Shards.WrapIsInt64` | internal/source/pgsql/source.go:185-204 | The arithmetic is that of 64 bits in two's complement |
| `Shards.QuotTruncates` | internal/source/pgsql/source.go:185-188 | Division truncates toward zero |
| `Shards.NoStepOverflows` | internal/source/mssql/source.go:250-268 | No step overflows when the span fits and there is room above the maximum |
| `Shards.ShardsReadTable` | internal/source/pgsql/source.go:191-204 | Together the shards read every row as often as the table has it |
| `Monitor.Monitor.ProcessEvent` | internal/monitor/monitor.go:117-152 | The state after one more event is that of the longer history: order of names, sums and numbers of writes |
| `Monitor.Monitor.Loop` | internal/monitor/monitor.go:110-115 | Draining the channel leaves the sums of all events, in the order of first events |
| `Monitor.Monitor.WriteSummary` | internal/monitor/monitor.go:176-293 | The printed totals are the sums over the events of all dotted names |
| `Monitor.OrderIrrelevant` | internal/monitor/monitor.go:117-146 | Counters depend on which events arrived, not on their order |
| `Monitor.OneMore` | internal/monitor/monitor.go:128-146 | What each event adds to its own table, in numbers, and nothing to others: an error counts once |
| `Monitor.OneMoreInTotal` | internal/monitor/monitor.go:202-270 | An event adds to the printed totals in the same way iff its name has a dot |
| `Monitor.OrderTotalIsTableTotal` | internal/monitor/monitor.go:202-270 | Adding table by table and event by event give the same totals |
| `Orchestrator.ErrorsOverAllSchedules` | internal/orchestrator/orchestrator.go:147-184 | The error channel has room for every report; nil iff no shard failed; a cancellation only if nothing else was reported and the caller cancelled |
| `Orchestrator.ReturnedError` | internal/orchestrator/orchestrator.go:170-183 | The loop returns a real error if there is one, nil only for an empty channel |
| `Orchestrator.MoveProgresses` | internal/orchestrator/orchestrator.go:151-166 | No shard waits for another: each step of an unfinished shard lowers a common measure |
| `Orchestrator.EveryScheduleEnds` | internal/orchestrator/orchestrator.go:147-166 | From the start: no schedule gives unfinished shards more steps than the measure, and one that gives that many finishes them all |
| `Orchestrator.WaitFinishes` | internal/orchestrator/orchestrator.go:166-168 | Waiting ends: every schedule can be followed to the end of all shards, and one at its end stays as it is |
| `Orchestrator.TargetOverAllSchedules` | internal/orchestrator/orchestrator.go:147-166 | At every point the target holds no row more often than the shards have it; exactly as often after success |
| `Orchestrator.RunInv` | internal/orchestrator/orchestrator.go:147-166 | Every schedule keeps: the target, events and errors are the sums over the shards, and each shard is at a place of its plan |
| `Orchestrator.FailureCancels` | internal/orchestrator/orchestrator.go:158-162 | Under every schedule the shards are told to stop iff the caller cancelled or a shard has failed |
| `Orchestrator.CancelledStops` | internal/pipeline/pipeline.go:52-86 | From then on no shard reads another row, and each commits at most the batch it holds |
| `Orchestrator.FaultFails` | internal/pipeline/pipeline.go:42-104 | A fault fails a shard that waits for a connection, a row or a COPY, with that fault |
| `ShardRuns.ShardIsPipeline` | internal/orchestrator/orchestrator.go:151-164 | Under every schedule without faults for it, a shard that is not cancelled delivers, reports and ends as the pipeline alone |
| `ShardRuns.SucceedsIff` | internal/orchestrator/orchestrator.go:147-184 | Undisturbed, a finished parallel copy has succeeded iff the pipeline alone would succeed on every shard |
| `ParallelCopy.CountersAreSums` | internal/monitor/monitor.go:117-146 | Under every schedule a table's counters are the sums over the shards' own events |
| `ParallelCopy.ParallelEqualsSequential` | internal/orchestrator/orchestrator.go:109-166 | Every schedule in which all shards succeed leaves the rows and counters of the sequential copy; nothing is asked of encoded rows |
| `ParallelCopy.SucceedsAsSequential` | internal/orchestrator/orchestrator.go:147-184 | Undisturbed, a finished parallel copy has succeeded iff the sequential copy of the table succeeds |
| `Migration.CopyAllTables` | internal/orchestrator/orchestrator.go:104-141 | Tables are copied in order by shards, all of which have finished, or by one pipeline; the first failure is returned |
| `Migration.StopsAtFirstFailure` | internal/orchestrator/orchestrator.go:110-140 | Corollary: tables after the first failure are not touched; each table before it is copied as if alone |
| `Migration.ShardsMakeNoDifference` | internal/orchestrator/orchestrator.go:104-141 | A successful migration with shards leaves what the one without leaves, in every table and every counter |
| `Migration.ShardsSucceedAlike` | internal/orchestrator/orchestrator.go:104-141 | Undisturbed, a migration with shards copies all tables iff the one without does |
| `Migration.TableFails` | internal/orchestrator/orchestrator.go:110-135 | A table that is not active or has no readable range is left alone; a missing connection or a cancellation fails it |
| `LoadReaders.ReadValue` | internal/configfile/parser.go:428-487 | The cursor reads the value of the text that is left and stays in bounds |
| `LoadReaders.ReadParenList` | internal/configfile/parser.go:490-520 | The cursor reads the list, fails, or is stuck at a semicolon, as specified |
| `LoadReaders.ReadOptionsUntil` | internal/configfile/parser.go:523-619 | The cursor reads the options, fails, or is stuck at a semicolon, as specified |
| `LoadReaders.ReadSQLStatements` | internal/configfile/parser.go:622-654 | The cursor reads the dollar-quoted statements and always ends |
| `LoadParser.ParseCommand` | internal/configfile/parser.go:146-394 | The state machine with a cursor computes the parse of the text |
| `LoadParser.IntoTargetTableNeverTaken` | internal/configfile/parser.go:223-226 | The test for INTO TARGET TABLE can never hold |
| `Text.IndexDollarsFirst` | internal/configfile/parser.go:445-453 | The search for `$$` finds the first two adjacent dollar signs, or there are none |
| `Text.FoldIsCase` | internal/configfile/parser.go:701-706 | Keywords are matched without regard to the case of letters, and to nothing else |
| `Text.KeywordIs` | internal/configfile/parser.go:710-721 | A keyword ends at white space, a comma, a semicolon, a parenthesis or the end |
| `Text.SpaceIs` | internal/configfile/parser.go:609 | What trimming takes off is the white space of Unicode, character by character |
| `LoadPrinter.ValueRoundTrip` | internal/configfile/parser.go:435-460 | A value without `$$`, quoted, is read back, up to just after its closing quote |
| `LoadPrinter.OptionsRoundTrip` | internal/configfile/parser.go:523-619 | A printed option list is read back, up to the next section |
| `LoadPrinter.SectionWordsAre` | internal/configfile/parser.go:540-582 | Nine words end an option list, eight of them also in the middle of a line; SET does not |
| `LoadPrinter.StatementsRoundTrip` | internal/configfile/parser.go:622-654 | Printed SQL statements are read back |
| `LoadPrinter.ColumnsRoundTrip` | internal/configfile/parser.go:490-520 | A printed column list is read back |
| `LoadRoundTrip.LoadRoundTrip` | internal/configfile/parser.go:146-394 | Parsing printed sections applies each of them in the order in which they stand, repeats included |
| `LoadLayout.LayoutMakesNoDifference` | internal/configfile/parser.go:146-394 | Keywords in any case, EXECUTE for DO, any white space and sections on one line give the same command |
| `LoadCanonical.SourceKind` | internal/configfile/parser.go:377-394 | The kind of the source is the one its URI's scheme names, CSV for a file; rejected iff the scheme is none of seven |
| `LoadCanonical.TableSchema` | internal/configfile/parser.go:245-251 | A table name is cut at its first dot; without one the schema is public |
| `LoadRejects.WithoutLoad` | internal/configfile/parser.go:146-156 | Text that does not start with LOAD is rejected |
| `LoadRejects.WithoutKind` | internal/configfile/parser.go:175-185 | LOAD is followed by DATABASE or CSV, or the command is rejected |
| `LoadRejects.WithoutFrom` | internal/configfile/parser.go:187-191 | Text other than FROM after the kind is rejected |
| `LoadRejects.WithoutInto` | internal/configfile/parser.go:217-221 | Text other than INTO after the source is rejected |
| `LoadRejects.CutAfterSource` | internal/configfile/parser.go:157-162 | The text may end after the source; the command then has no target |
| `LoadRejects.UnknownDropped` | internal/configfile/parser.go:657-688 | Text that starts no section is dropped, with all sections after it |
| `LoadRejects.MalformedRejected` | internal/configfile/parser.go:295-350 | A section with an incomplete keyword is rejected |
| `LoadCanonical.CommandRoundTrip` | internal/configfile/parser.go:146-394 | Every canonical command comes back from its text, with its sections in any order |
| `LoadEndless.OptionsEndlessExactly` | internal/configfile/parser.go:523-616 | An option list never ends iff a one-character automaton meets a semicolon outside quotes before the list ends |
| `LoadEndless.ListEndlessExactly` | internal/configfile/parser.go:490-520 | The same for lists in parentheses, where slashes quote too |
| `LoadEndless.EndlessExactly` | internal/configfile/parser.go:157-375 | Parsing a command never ends iff one of the lists it reaches meets such a semicolon |
| `LoadEndless.ListsWithoutSemicolonEnd` | internal/configfile/parser.go:527-616 | Parsing ends when no text that reaches a list holds a semicolon |
| `LoadTermination.OptionsHangExact` | internal/configfile/parser.go:527-616 | The outcome Hang means that the loop goes on after any number of rounds, and nothing else does |
| `LoadTermination.ListHangExact` | internal/configfile/parser.go:498-518 | The same for lists in parentheses |
| `LoadTermination.QuotedSemicolonHangs` | internal/configfile/parser.go:555-567 | A semicolon quoted by `$$` in an option list makes parsing endless, for every source and target |
| `LoadTermination.IntoTargetTableDropsRest` | internal/configfile/parser.go:217-231 | INTO TARGET TABLE sets the target to TARGET and drops all that follows |
| `LoadTermination.MaterializeViewsKeepsWord` | internal/configfile/parser.go:352-367 | VIEWS becomes a part of the first name, for every list of names |
| `SplitCommands.SplitText` | internal/configfile/parser.go:90-143 | The scanner computes the split of the text |
| `SplitCommands.CutsExactlyOutside` | internal/configfile/parser.go:95-135 | The cuts are exactly the semicolons outside quotes and `$$`, by a one-character automaton |
| `SplitCommands.SplitLosesNothing` | internal/configfile/parser.go:95-135 | The segments joined with semicolons are the text |
| `SplitCommands.SplitRoundTrip` | internal/configfile/parser.go:90-143 | Closed trimmed commands joined with semicolons split again into themselves |
| `LoadFile.ParseText` | internal/configfile/parser.go:30-55 | Comments, splitting and parsing put together compute the parse of the file |
| `LoadFile.EmptyRefused` | internal/configfile/parser.go:36-53 | A file without a command is refused |
| `LoadFile.CommentsKeptOutIff` | internal/configfile/parser.go:58-86 | Text survives the removal of comments iff no comment sign stands anywhere, quoted or not |
| `LoadFile.LineCommentRemoved` | internal/configfile/parser.go:76-82 | A comment after `--` goes, up to the end of its line; the file means what it means without it |
| `LoadFile.BlockCommentRemoved` | internal/configfile/parser.go:64-75 | A comment between `/*` and the first `*/`, or the end of the text, goes with its signs |
| `LoadFile.FileRoundTrip` | internal/configfile/parser.go:30-55 | A file of printed commands without comment signs gives the commands |
| `LoadFile.FileEndlessExactly` | internal/configfile/parser.go:30-55 | Parsing a file never ends iff it gets to a command with such a list |
| `LoadFile.FileNeverEnds` | internal/configfile/parser.go:30-55 | Files on which parsing never ends: the splitting keeps a quoted semicolon |
| `FilterText.TranslateFilter` | internal/source/mssql/metadata.go:511-519 | The index-driven translation computes the specified one |
| `FilterText.BlankFilter` | internal/source/mssql/metadata.go:511-515 | White space alone is no filter |
| `FilterText.TranslateFilterExpr` | internal/source/mssql/metadata.go:522-701 | The same for a nested expression |
| `FilterText.WrappedIff` | internal/source/mssql/metadata.go:704-715 | A pair of parentheses is stripped exactly when the first matches the last |
| `FilterText.IsBalanced` | internal/source/mssql/metadata.go:718-732 | Counts depth without going below zero |
| `FilterText.FindMatchingParen` | internal/source/mssql/metadata.go:735-752 | Finds the parenthesis that closes the one at i, or -1 |
| `FilterWords.KeywordWritten` | internal/source/mssql/metadata.go:536-612 | A keyword in any case, with what must follow it, is written in capitals |
| `FilterWords.WordCopied` | internal/source/mssql/metadata.go:681-690 | Any other word is written as it is, to its end, whatever it contains |
| `FilterTranslation.TranslationMeans` | internal/source/mssql/metadata.go:522-701 | Tokens are kept, but for parentheses around the whole or around another pair |
| `FilterMeaning.FilterMeans` | internal/source/mssql/metadata.go:511-701 | A plain filter that is a predicate is translated to its own expression, with every run of white space in names and literals as one space |
| `FilterMeaning.FilterKeepsMeaning` | internal/source/mssql/metadata.go:511-701 | So it keeps its meaning exactly when all white space in its names and literals is single spaces |
| `FilterMeaning.FilterKeepsTruth` | internal/source/mssql/metadata.go:511-701 | Corollary: then, in every row, NULLs included, the translated filter has the truth value of the filter |
| `FilterLimits.SpaceRunsCollapse` | internal/source/mssql/metadata.go:698-700 | Two adjacent spaces in a literal are translated as one, wherever they stand |
| `FilterLimits.LiteralKeptIff` | internal/source/mssql/metadata.go:698-700 | For a comparison with a literal the same holds whatever the literal contains, parentheses included |
| `FilterLimits.RowLost` | internal/source/mssql/metadata.go:698-700 | Otherwise a row satisfies the filter and not its translation |
| `FilterLimits.SpaceRunsChangeMeaning` | internal/source/mssql/metadata.go:698-700 | A concrete filter and its translation mean different comparisons |
| `TablePattern.AcceptsExactly` | internal/source/mysql/metadata.go:411-435 | The compiled expression accepts exactly LIKE with wildcards that take no line feed |
| `TablePattern.MetaIs` | internal/source/mysql/metadata.go:427-435 | The characters that are escaped are those with a meaning in regular expressions |
| `TablePattern.AcceptsIsLike` | internal/source/mssql/metadata.go:791-815 | For names without a line feed it is LIKE; for others it accepts no more |
| `TablePattern.AgreesWithLikeIff` | internal/source/mysql/metadata.go:411-435 | All patterns agree with LIKE on a name iff the name holds no line feed |
| `TablePattern.QuotesStripped` | internal/source/mysql/metadata.go:420-423 | A pattern in single quotes is LIKE the text between them; one without is LIKE itself |
| `TablePattern.NewlineNotAccepted` | internal/source/mysql/metadata.go:427-432 | A name that LIKE accepts and the pattern does not |
| `TablePattern.PanicsExactly` | internal/source/mysql/metadata.go:415-418 | Slicing goes out of range for the pattern `~/` only |
| `TablePattern.TableMatches` | internal/source/mysql/metadata.go:389-403 | The first pattern that decides, decides; no patterns match all |
| `TablePattern.DecideIs` | internal/source/mysql/metadata.go:389-435 | What one pattern says: `~/` panics, between slashes the user decides, in quotes LIKE does |
| `TablePattern.ChooseIs` | internal/source/mysql/metadata.go:36-56 | A name is taken iff the included patterns match it, if there are any, and the excluded ones do not; what stops either list stops the choice |
| `TablePattern.SelectTables` | internal/source/mysql/metadata.go:30-60 | The loop keeps the names that both filters let through, in order, or stops |
| `TablePattern.SelectedExactly` | internal/source/mysql/metadata.go:36-56 | Kept are the names LIKE an included pattern, if any, and LIKE no excluded one |
| `TablePattern.SelectedByPatterns` | internal/source/mysql/metadata.go:36-56 | The same for the patterns as they are written, in quotes or not |
| `TablePattern.StopsExactly` | internal/source/mysql/metadata.go:36-56 | The selection stops at the first name for which a pattern is invalid or out of range, and only there |
| `CastRules.ReadRules` | internal/cast/rule_parse.go:11-36 | The loop over the rule texts computes the parse of all |
| `CastRules.ReadRule` | internal/cast/rule_parse.go:38-135 | The token cursor computes the parse of one rule |
| `CastRules.RuleRoundTrip` | internal/cast/rule_parse.go:38-135 | A text with the words of a rule is read as the rule, however they are set apart |
| `CastRules.TextRead` | internal/cast/rule_parse.go:38-135 | However a rule is written: keywords in any case, `type` left out, modifier apart, modifiers and settings in any order and number |
| `CastRules.GoodExactly` | internal/cast/rule_parse.go:38-105 | Words are a rule iff the type can be cut and the first `to` after it is followed by a word of a target |
| `CastRules.RulesRoundTrip` | internal/cast/rule_parse.go:11-36 | Printed rules are read back in order |
| `CastRules.SplitPanicsExactly` | internal/cast/rule_parse.go:152-162 | Cutting a type fails exactly when its last `)` stands before its first `(` with something between |
| `Money.CleanMoneyString` | internal/cast/transforms.go:274-329 | The loops compute the cleaned text |
| `Money.MoneyRecovered` | internal/cast/transforms.go:274-329 | Any amount in cents is recovered from grouped two-decimal text in either locale, negatives in parentheses |
| `Money.WholeAmountIff` | internal/cast/transforms.go:279-329 | Without decimals the text is right iff the amount has no thousands, with any signs around it and in parentheses |
| `Money.SilentIsZero` | internal/cast/transforms.go:320-329 | Text without digits and separators is zero, negative in parentheses |
| `Money.LowByteCounts` | internal/cast/transforms.go:310-318 | A character counts as the separator iff its low byte is that of the separator |
| `Int64Text.FormatInt64` | internal/cast/mssql_rules.go:107-127 | The loop stays inside its 20 characters and writes the decimal text |
| `Int64Text.ReadsBackIff` | internal/cast/mssql_rules.go:107-127 | The text reads back as the integer iff it is not the least one |
| `Decimal.FormatIntUsual` | internal/cast/mssql_rules.go:107-127 | Decimal text has a sign only if negative and no leading zero |
| `Int64Text.TextInjective` | internal/cast/mssql_rules.go:107-127 | No two integers have the same text |

## Left out

- Database connections, introspection queries, DDL, URI parsing, CLI flags, SQL tracing: no local logic.
- Fetching metadata, preparing and completing the target (the other phases of a migration).
- Floating-point values and `fmt.Sprint` of other types, clocks, the layout of the summary.
- Numeric `uint64` and smaller integer types are one unbounded `Int` in the COPY encoder.
- Unique and foreign keys: acceptance is a predicate on one record.
- How the shard column is found; its range and whether its query and the clones' connections succeed are parameters.
- CSV and SQLite sources; row transforms other than money; `escapeCopyBytes`, which nothing calls.
- MSSQL lookup of the active table across schemas.
- `Engine.Apply` with its match rules, `formatByteaHex`, `BitToBinStr` and the identifier quoting: easy members only.
- Regular expressions given by the user: what they accept is a parameter of `TablePattern.TableMatches`.
- Money text with a leading minus sign, which the code drops.
- CopyRetry.Retry.RetryBatch: formatted rows are single lines, as both encoders produce them (`Lines.EncodedRowFramed`); other byte strings are not considered.
- ParallelCopy.ParallelEqualsSequential: of preformatted rows it is asked that they are single lines; encoded rows always are (`Lines.EncodedRowFramed`).
- FilterMeaning.FilterKeepsMeaning: exact for plain filters that mean something: quoted parts hold no parentheses, and names no `"` and no touching or doubled brackets. Other filters may or may not survive.
- FilterText.TranslateFilter: as its nested part, it leaves out two letters of `strings.ToUpper`.
- FilterText.TranslateFilterExpr: `strings.ToUpper` also maps two non-ASCII letters to I and S; here they are no letters of a keyword. No predicate of the grammar holds them outside quotes.
- CopyText.FormatRowToCopyText: floating-point values and those written by `fmt.Sprint` are no values of the model.
- LoadLayout.LayoutMakesNoDifference: SET is asked to start a line; after a value or SQL statements it may follow on the same line.
- LoadPrinter.ValueRoundTrip: a `$$` inside a quoted value copies the text up to the next `$$` as it is; such values are read, not printed.
- Lines.MapRows: errors while reading the stream and a cancelled context are the `end` and `cancelAt` of the pipeline's feed.
- Shards.ConcurrencySupport: a failing range query is a field of `Migration.Table`; failing connections of the clones are faults of the schedule.
- The race between the moments at which goroutines observe the cancelled context is covered by the schedule; the channel of events is taken to be drained.
