# pgdelta, modelled and proved in Dafny

pgdelta turns a `pg_dump` byte stream into Delta tables. This project models the parts of it
where a mistake would lose, double or corrupt rows without anybody noticing, and proves what
those parts promise, for every input and every schedule.

`dafny verify dfyconfig.toml` checks everything.

## How the pieces fit

| layer | modules | main results |
|---|---|---|
| streaming front end | `Bytes`, `Dump`, `CopyText`, `CopyRoundTrip`, `CopyEscapes`, `SqlText`, `SqlPrint`, `DdlRoundTrip`, `DdlScan`, `Scan`, `ScanChunks` | chunked, stateful readers compute what splitting into lines and reading each line computes; round trips and refusals of the COPY text format, of `CREATE TABLE`, also line by line through the scanner, and of COPY headers |
| channel and pool | `Chan`, `Queues`, `Worker`, `Pool`, `PoolInv`, `PoolSteps`, `PoolLive`, `PoolFiles`, `Ledger`, `PoolBooks`, `PoolRuns`, `PoolDeal`, `PoolWitness` | the bounded channel loses neither values nor wake-ups and refines an atomic queue; the reader/worker protocol neither deadlocks nor loses rows or files, and always winds down |
| load protocol | `Delta`, `Sink`, `Load`, `LoadRuns`, `LoadSafety`, `LoadChain`, `Paths` | what one load shows, counts and keeps; what any sequence of loads, finished or not, leaves behind |
| whole sessions | `Session`, `SessionInv`, `SessionRuns`, `SessionEnds` | pool and load in one step relation: nothing is visible before the reader and its pool succeeded, then exactly what was read; every session ends, can be brought to its end from anywhere, and ends well if nothing fails |
| values | `Numerals`, `Calendar`, `Temporal`, `TemporalText`, `TemporalEdges`, `Decimal`, `ArrayText`, `Bytea`, `Columns` | the calendar, timestamps, decimals, array and bytea literals; builders agree with the declared schema |
| source | `Source` | a resumed download is a prefix of the object, and all of it when it ends |
| everything | `EndToEnd`, `DumpRoundTrip` | bytes in the stream to rows in tables; values printed as a whole dump, read and loaded are what the tables then show |

Protocols (the channel, the pool, the load, and the session that joins the last two) are step
relations with an adversarial scheduler. The channels the pool uses are bounded FIFO queues;
`Queues` proves that `Chan` refines them and that every step of the pool is operations of them or
leaves them alone. Storage may
fail at any step, before or after taking effect; of the Parquet writer only this is assumed, that
the files a worker stages for a block hold the rows it was given (`Pool.Stages`).

Code that works in place is a class or a method with loops, proved equal to a function; what
matters is then proved about the function. What is printed in a round trip is said in characters,
keywords and numbers of its own (`SqlPrint` for SQL), never in the reading side's constants.

## What the proofs turned up

- Chunk alignment is more than efficiency. A row that is completed from carried-over bytes is
  stripped of a carriage return twice (src/scan.rs:264-273 and src/copy.rs:259-261), a row read
  in place once. `ScanChunks.ChunkingInvariance` gives the exact condition under which cutting
  does not matter; `ScanChunks.CuttingMatters` is a row that reads differently. Behind the chunk
  reader the condition is not needed (`EndToEnd.ReadDump`).
- A failed dispatch of a closing job may report that the pool stopped although a worker recorded
  its own error, because another worker's acknowledgement can be in front of it
  (`PoolLive.DispatchCause`; `PoolWitness.StoppedForNoGivenReason` is such a run). For openings
  and rows the cause is always the recorded one.
- `CommitFailed` counts too few tables exactly when a commit landed and its reload then failed
  (`LoadSafety.HonestCount`; `LoadSafety.CountsTooFew` is such a run).
- In `ErrorIfExists` mode a table that exists without files is loaded even if its columns
  drifted, and then keeps its old declaration over files of the new shape
  (`Sink.DeclaredAfterLoad`, `Sink.StaleDeclaration`).
- Year arithmetic wraps silently in a release build: a date in year 50505469855535080 is read as
  day 313 (`TemporalText.FarYearWraps`). `Calendar.ExactIffFits` says exactly where it is right;
  the 400 lowest years are read as a date 2^64 years later (`Calendar.LowestYears`).
  The documentation of the lower bound in src/values.rs:30 calls it year 1; it is in fact 4714 BC,
  and never refuses a date whose day count fits (`TemporalText.DatesAreExact`).
- An unquoted column named like the start of a table constraint, such as `exclude`, disappears
  from the definition (`DdlRoundTrip.KeywordColumnIsLost`, `DdlRoundTrip.ExcludeIsLost`).
- Quotes do not protect a type: `public."my not null"` is cut at `not`
  (`DdlRoundTrip.QuotedKeywordCuts`), and `"a(b"` swallows a clause after it, because the paren
  inside the quotes is counted (`DdlRoundTrip.QuotedParenSwallows`). `DdlRoundTrip.TypeReadsIff`
  is the exact condition.
- A COPY header without a column list is documented to mean declaration order
  (src/scan.rs:745-747). The rows of such a block are checked against no columns
  (src/pipeline.rs:296-309), and even an empty line has a field, so one row fails the load
  (`CopyText.NoRowIsEmpty`, `EndToEnd.WithoutListNothing`).
- A line inside a statement that ends in `);`, as a quoted name can, ends the statement there, and
  the load fails (`DdlScan.StatementScanned`).
- The definition of a table in an excluded schema is passed over unless its quoted name holds a
  newline: the check sees the first line only (src/scan.rs:391-397). `DdlScan.ExcludedIff` is the
  exact condition.
- A bare date is documented to have no offset (src/values.rs:416-418), but where one is expected
  its day is taken for the offset and the rest refused (`TemporalEdges.DateAlone`).
- Qualified names alone do not tell tables apart; the path check is what makes them keys
  (`Paths.KeysCollide`, `Paths.KeysApart`).

## Model

| member | source | states |
|---|---|---|
| `EndToEnd.ReadDump` | src/pipeline.rs:698-766 | for every stream, pattern of short reads and chunk target, the chunked reader and scanner hand on the events of a first part of the dump read line by line, and of all of it unless they fail with that reading's own error, a refusal at the end, or `RowTooLarge` at a newline-free run of the ceiling's length |
| `EndToEnd.EndToEnd` | src/pipeline.rs:763-972 | a pass that succeeds, under any scheduling, batch bound and worker count, gives every wanted block exactly the multiset of decoded rows that the line-by-line reading puts in it, and its size as the count |
| `EndToEnd.NothingEarly` | src/pipeline.rs:763-1062 | if some table ever shows something new, the whole dump was read without a failure, is complete, and reader and pool had succeeded |
| `EndToEnd.TablesShowTheDump` | src/pipeline.rs:936-1062 | once a load has succeeded, the table named by every wanted block shows exactly the rows that reading the dump line by line puts in that block, after the files it showed before if the load does not overwrite; every other table shows what it showed before |
| `EndToEnd.WithoutListNothing` | src/pipeline.rs:296-309 | a wanted block with a row, whose header lists no columns, keeps every session over the dump from succeeding or changing any table |
| `DumpRoundTrip.DumpReads` | src/scan.rs:346-460 | a dump printed as versions 16 or 17, origins, definitions, blocks and other lines, in any order, each definition ending at its only line in `);`, is read without an error; versions, tables, block starts, rows and ends come in the printed order, definitions of excluded schemas aside; its wanted blocks are exactly the printed ones; it is complete iff it names its `pg_dump` version |
| `DumpRoundTrip.VersionRefused` | src/scan.rs:367-380 | a dump that goes on to name any other version is refused by that number, whatever follows |
| `DumpRoundTrip.VersionIgnored` | src/scan.rs:468-481 | a version line without a number, or with one over 32 bits, says nothing |
| `DumpRoundTrip.NamelessHeader` | src/scan.rs:413-422 | a COPY header without a readable table name is refused |
| `DumpRoundTrip.TruncatedRefused` | src/scan.rs:323-337 | a dump cut off inside a block is refused by the name of its table |
| `DumpRoundTrip.EitherEnd` | src/copy.rs:259-261 | lines without newlines of their own read back with a carriage return before each newline, and without one iff no line ends in one |
| `DumpRoundTrip.PrintedThenLoaded` | src/pipeline.rs:763-1062 | values printed as a dump, in any style of escaping, then read in chunks and loaded by any session that succeeds, are exactly the multiset of rows their table shows, after what the mode keeps |
| `Dump.ByteStream.Read` | src/dump.rs:174-217 | what the reader may assume of its stream: any non-empty part of what fits, an error, or nothing only at the end |
| `Dump.ChunkReader.constructor` | src/dump.rs:149-159 | target at least one, ceiling at least the target |
| `Dump.ChunkReader.CarryForward` | src/dump.rs:174-181 | the unconsumed tail moves to the front, nothing else changes |
| `Dump.ChunkReader.Fill` | src/dump.rs:182-191 | fills to the target or the end of the stream, the buffer mirroring the stream throughout |
| `Dump.ChunkReader.Cut` | src/dump.rs:193-206 | cuts after the last newline, or hands over the rest at the end |
| `Dump.ChunkReader.NextChunk` | src/dump.rs:174-217 | one chunk: the next bytes of the stream, ending in a newline unless the stream ends; end only at the end; `RowTooLarge` only where `ceiling` bytes have no newline |
| `Dump.ReadAll` | src/dump.rs:149-217 | the chunks of a whole pass concatenate to the stream and are aligned; it finishes iff no newline-free run reaches the ceiling, barring a failing stream |
| `Bytes.SplitLossless` | src/copy.rs:236-264 | lines and the tail after them are the whole text |
| `Bytes.RowsAppend` | src/copy.rs:253-264 | a newline-terminated payload splits off its rows exactly |
| `CopyText.UnescapeInto` | src/copy.rs:117-190 | appends exactly the unescaped bytes to the caller's buffer, with the escape and error rules of the format |
| `CopyText.Rows.Next` | src/copy.rs:253-265 | the next complete line without its carriage return, and what is left |
| `CopyText.Fields.Next` | src/copy.rs:293-341 | the next field classified, or the limit that is exceeded, in order |
| `CopyText.DecodeRow` | src/copy.rs:365-391 | the ranges tile the scratch buffer and hold exactly the decoded values, or the first error; arity is checked |
| `CopyEscapes.OctalEscape` | src/copy.rs:170-185 | one to three octal digits, as many as there are, are the last eight bits of their number |
| `CopyEscapes.HexEscape` | src/copy.rs:154-169 | `x` and one or two digits of either case, as many as there are, are their number |
| `CopyEscapes.LetterEscape` | src/copy.rs:148-153 | the six letters that stand for control characters |
| `CopyEscapes.BareHex` | src/copy.rs:154-169 | `\x` without a digit is refused |
| `CopyEscapes.LoneBackslash` | src/copy.rs:142-144 | a backslash at the end of a field is refused |
| `CopyEscapes.FirstTrouble` | src/copy.rs:293-391 | the first field that exceeds a limit or does not unescape decides the error, too many fields before its length before its escapes |
| `CopyEscapes.DecodesIff` | src/copy.rs:365-391 | a row decodes iff its length fits, no field is in trouble and their number is the expected one; then to each field's value |
| `CopyRoundTrip.FieldRoundTrip` | src/copy.rs:117-190 | every nullable byte string in any escaping style reads back; none looks like structure or like the end marker |
| `CopyRoundTrip.RowRoundTrip` | src/copy.rs:293-391 | every row within the limits decodes to its values, and is never taken for the terminator |
| `CopyRoundTrip.TableRoundTrip` | src/copy.rs:236-391 | every table of nullable byte strings survives encoding, splitting and decoding |
| `SqlText.SplitTopLevel` | src/scan.rs:484-516 | the lookahead for doubled quotes cuts where plain toggling cuts |
| `SqlText.MatchingParen` | src/scan.rs:594-624 | the first closing paren back at depth zero outside quotes |
| `SqlText.ReadIdentifier` | src/scan.rs:519-550 | a bare or quoted identifier, doubled quotes undone, and what follows |
| `SqlText.ReadQualified` | src/scan.rs:556-576 | one or two identifiers, never split at a dot inside quotes |
| `SqlText.TakeType` | src/scan.rs:653-682 | the loop computes the type text; which text that is, `DdlRoundTrip.ClauseEndsType` and `DdlRoundTrip.TypeReadsIff` say |
| `SqlText.ReadCreateTable` | src/scan.rs:693-742 | name and columns of a statement, constraints passed over, or the error |
| `SqlText.ReadCopyHeader` | src/scan.rs:753-771 | table and columns of a header, or the error |
| `DdlRoundTrip.IdentReads` | src/scan.rs:519-550 | every identifier, quoted with any bytes or bare, is read back with exactly the rest left |
| `DdlRoundTrip.NameReads` | src/scan.rs:556-576 | so is every qualified name |
| `DdlRoundTrip.StripsIff` | src/scan.rs:454-460 | a prefix is taken off iff the line begins with those letters in either case |
| `DdlRoundTrip.EndsTypesIff` | src/scan.rs:628-639 | the words that end a type are the ten of the grammar in either case, and no others |
| `DdlRoundTrip.LeadsConstraintIff` | src/scan.rs:642-650 | the words that begin a table constraint are the seven of the grammar in either case, and no others |
| `DdlRoundTrip.ClauseEndsType` | src/scan.rs:653-682 | before `DEFAULT`, `NOT NULL`, `NULL`, `GENERATED`, `COLLATE`, `CONSTRAINT`, `CHECK`, `REFERENCES`, `PRIMARY KEY` or `UNIQUE` and anything after it, a type is recovered exactly |
| `DdlRoundTrip.TypeReads` | src/scan.rs:653-682 | a type without a keyword of the grammar outside parens is recovered, alone, or before any keyword clause if its parens balance |
| `DdlRoundTrip.TypeReadsIff` | src/scan.rs:653-682 | any type without blanks around it is recovered iff no keyword starts a word of it outside parens, and, where a clause follows, its parens balance, quoted ones counted |
| `DdlRoundTrip.QuotedParenSwallows` | src/scan.rs:653-682 | a quoted type name that is read whole alone and swallows the clause after it |
| `DdlRoundTrip.QuotedKeywordCuts` | src/scan.rs:653-682 | a quoted type name that loses its end |
| `DdlRoundTrip.SplitJoined` | src/scan.rs:484-516 | pieces without top-level commas, joined by commas, are split back into the same pieces |
| `DdlRoundTrip.ItemReads` | src/scan.rs:718-738 | each item is read as the column it defines, or as none if it is a constraint |
| `DdlRoundTrip.NoTypeNoColumn` | src/scan.rs:730-738 | a name without a type defines no column |
| `DdlRoundTrip.BlanksBefore` | src/scan.rs:693-771 | blanks before a statement or a header do not matter |
| `DdlRoundTrip.CreateRoundTrip` | src/scan.rs:693-742 | a printed statement with constraints and any trailing clause is read back exactly |
| `DdlRoundTrip.HeaderRoundTrip` | src/scan.rs:753-771 | a printed COPY header is read back exactly |
| `DdlRoundTrip.HeaderWithoutList` | src/scan.rs:753-771 | a header without a list names no columns |
| `DdlRoundTrip.BlankEntrySkipped` | src/scan.rs:753-771 | a blank entry of a column list is passed over |
| `CopyText.NoRowIsEmpty` | src/copy.rs:365-391 | no row, the empty line included, decodes against no columns |
| `DdlRoundTrip.KeywordColumnIsLost` | src/scan.rs:718-742 | an unquoted column is passed over iff it is named like a constraint keyword |
| `DdlRoundTrip.ExcludeIsLost` | src/scan.rs:718-742 | a column `exclude` is passed over |
| `DdlScan.CutShortFails` | src/scan.rs:693-742 | a statement cut off anywhere before its closing paren is malformed, and after its name the error says of which table |
| `DdlScan.EndsStatementIff` | src/scan.rs:347-365 | a line ends a statement iff, blanks at its end aside, it ends in `);` |
| `DdlScan.ExcludedIff` | src/scan.rs:212-219 | a definition is passed over iff its schema is excluded and no newline in a quoted name hides that |
| `DdlScan.StatementScanned` | src/scan.rs:346-413 | fed line by line, under either line end, a printed statement yields exactly its table at the first line that ends in `);` if its list is closed by then, and otherwise the malformed error |
| `DdlScan.ScannedIff` | src/scan.rs:346-413 | under either line end, with its trailing clause on one line, a statement yields exactly its table iff only its last line ends in `);` |
| `Scan.FindTerminator` | src/scan.rs:433-444 | how many bytes are complete rows, and where the end marker is if there is one |
| `Scan.SqlLineGrammar` | src/scan.rs:346-425 | a line outside a block emits events that fit the block grammar, and copy mode holds iff a table is open |
| `Scan.MergedSame` | src/scan.rs:251-314 | merging adjacent payloads changes neither rows nor brackets |
| `Scan.Scanner.ReadSqlLine` | src/scan.rs:346-425 | the state machine's step on one line, as a function; what it does with every kind of line of a dump is `DumpRoundTrip.DumpReads` |
| `Scan.Scanner.Close` | src/scan.rs:339-344 | closing a block |
| `Scan.Scanner.Feed` | src/scan.rs:251-314 | one chunk: state, rows, events and carried-over bytes are those of reading its lines, and the events fit the grammar |
| `Scan.Scanner.Finish` | src/scan.rs:323-337 | succeeds iff no block is open and a version was seen; else says which |
| `ScanChunks.AlignedFeedAll` | src/scan.rs:251-314 | newline-aligned chunks read exactly like the whole dump |
| `ScanChunks.CleanFeedAll` | src/scan.rs:251-314 | any chunks do, if no row ends in two carriage returns |
| `ScanChunks.FeedAllSteers` | src/scan.rs:251-314 | however a dump is cut, error and final state are its own |
| `ScanChunks.ChunkingInvariance` | src/scan.rs:251-314 | every way of cutting reads alike iff the dump fails or no row ends in two carriage returns |
| `ScanChunks.CuttingMatters` | src/scan.rs:264-273 | a whole dump that reads differently when cut |
| `ScanChunks.ScanAll` | src/scan.rs:251-337 | a finished scan emits well-bracketed blocks, all closed, with newline-terminated payloads |
| `Chan.Shared.Send` | src/chan.rs:89-103 | the critical section of a send: accepted, full, or nobody left to receive |
| `Chan.Shared.Recv` | src/chan.rs:138-151 | the critical section of a receive: the oldest item, empty, or closed |
| `Chan.Shared.DropSender` | src/chan.rs:116-124 | the last sender wakes every receiver |
| `Chan.Shared.DropReceiver` | src/chan.rs:164-172 | the last receiver wakes every sender |
| `Chan.StepInv` | src/chan.rs:89-173 | every step of every thread keeps the invariant |
| `Chan.ExactlyOnceInOrder` | src/chan.rs:89-151 | accepted values are exactly those delivered and then those queued, in order and within capacity |
| `Chan.NoLostWakeUp` | src/chan.rs:89-173 | whoever sleeps with something to do has a wake-up delivered or about to be issued |
| `Chan.QuietMeansBlocked` | src/chan.rs:89-173 | when nothing moves, receivers wait on an open empty channel or senders on an open full one, never both |
| `Chan.ClosedForGood` | src/chan.rs:115-173 | a closed channel stays closed |
| `Queues.ChannelRefinesQueue` | src/chan.rs:89-173 | every step of every thread is one atomic operation of a bounded FIFO queue, or invisible |
| `Queues.LockCompletes` | src/chan.rs:89-151 | taking the lock completes the caller's operation or puts the caller to sleep |
| `Queues.SendPuts` | src/pipeline.rs:659-668 | the reader's dispatch is the queue's put |
| `Queues.TakeGets` | src/pipeline.rs:1168-1168 | a worker takes the oldest job, and ends for want of jobs only when the queue has ended |
| `Queues.DispatchIsRefused` | src/pipeline.rs:659-668 | a dispatch fails only where the queue refuses, and gets the oldest event |
| `Queues.ReportPuts` | src/pipeline.rs:1231-1233 | a report is put into the queue of events |
| `Queues.CollectGets` | src/pipeline.rs:950-957 | the reader collects the oldest event |
| `Queues.DropHangsUp` | src/pipeline.rs:586-591 | dropping the sending side hangs up on every worker's queue |
| `Queues.ExitDeafens` | src/pipeline.rs:1141-1154 | a worker that exits deafens its own queue, and hangs up on the reader if it is the last, after putting its error if it had one |
| `Queues.Untouched` | src/pipeline.rs:763-1062 | no other step of the pool touches any queue |
| `Worker.WorkRows` | src/pipeline.rs:1194-1203 | the row loop decodes and batches exactly the payload's rows, or stops at the first bad one |
| `Worker.AppendRowsContent` | src/pipeline.rs:1194-1203 | whatever the batch bounds, rows are neither lost nor reordered, and a failure is that of the first bad row |
| `Worker.FirstBadFails` | src/pipeline.rs:1194-1203 | the first row that does not decode fails the payload with its own error |
| `Worker.AppendRowsBatched` | src/builders.rs:496-498 | batches are written exactly when the rows or the bytes of values reach their bound, and only then |
| `Worker.WrittenRowsCount` | src/sink.rs:657-660 | the writer's count is the number of rows written |
| `PoolInv.PerformRemembers` | src/pipeline.rs:1168-1236 | after each job a worker remembers exactly the decoded rows it was sent |
| `PoolFiles.StepFiles` | src/pipeline.rs:946-972 | every step keeps what workers staged apart, reported whole and collected once |
| `PoolSteps.StepInv` | src/pipeline.rs:556-1015 | every step of reader and workers keeps the pool's invariant |
| `PoolSteps.NeverMisplaced` | src/pipeline.rs:804-934 | the reader's four block-structure faults cannot happen |
| `PoolLive.ReportNeverBlocks` | src/pipeline.rs:556-556 | at most one undelivered event per worker, so the event channel always has room |
| `PoolLive.ExitLeavesError` | src/pipeline.rs:1140-1154 | a worker that stopped early left its recorded error to be found |
| `PoolLive.FailRecords` | src/pipeline.rs:1140-1154 | a worker that meets a bad row records and reports that row's error |
| `PoolLive.ChannelNeverGone` | src/pipeline.rs:950-953 | the event channel is never found abandoned |
| `PoolLive.DispatchCause` | src/pipeline.rs:659-668 | a failed opening or rows dispatch returns a worker's own error; a failed closing may find an acknowledgement instead |
| `PoolWitness.StoppedForNoGivenReason` | src/pipeline.rs:659-668 | a run in which the reader reports a stopped pool although a worker recorded its error |
| `PoolLive.CollectCause` | src/pipeline.rs:950-966 | collecting acknowledgements fails only with a worker's own error |
| `PoolLive.Progress` | src/pipeline.rs:556-592 | in every state that is not final some genuine step is possible |
| `PoolLive.StepCost` | src/pipeline.rs:556-592 | every step brings the run closer to its end |
| `PoolBooks.CollectBooks` | src/pipeline.rs:936-972 | when the last acknowledgement is in, the block's pooled rows are its rows |
| `PoolRuns.RunSound` | src/pipeline.rs:763-1022 | invariant, block structure and books hold in every reachable state, also of a dump cut off inside a block |
| `PoolDeal.DealtEvenly` | src/pipeline.rs:887-902 | in every reachable state no worker was sent two payloads of the block under way more than another, nor fewer than one after it |
| `PoolRuns.SuccessLoadsEverything` | src/pipeline.rs:890-972 | a reader that returned successfully had a complete scan and loaded every wanted block, each row once |
| `PoolRuns.RunsEnd` | src/pipeline.rs:556-592 | no run is longer than what there was to do |
| `PoolRuns.NoDeadlock` | src/pipeline.rs:936-966 | no run gets stuck before every worker is joined |
| `PoolRuns.NoStructuralFault` | src/pipeline.rs:804-934 | no run takes a structural fault or finds the event channel gone |
| `PoolRuns.TrueCause` | src/pipeline.rs:659-668 | in every run, a failure put down to a worker is the one it recorded |
| `PoolRuns.CleanRunSucceeds` | src/pipeline.rs:763-1022 | over a complete scan, a run in which nobody gives up and no worker fails cannot fail |
| `Ledger.LedgerEvent` | src/pipeline.rs:802-972 | what one more event adds to what a load should contain |
| `Ledger.LoadedDecodes` | src/pipeline.rs:1194-1203 | every row of a loaded block decodes, and is there |
| `Delta.TimeTravel` | src/sink.rs:561-604 | no later commit changes what a recorded version shows |
| `Delta.Reconciliation` | src/sink.rs:216-228 | a file is visible iff the latest action on its path adds it ("Action Reconciliation" in the Delta Transaction Log Protocol) |
| `Sink.DiffSchema` | src/sink.rs:285-308 | the two loops compute added, removed and retyped columns in order |
| `Sink.DriftMeaning` | src/sink.rs:285-308 | what each list holds, in terms of the two name-to-type maps |
| `Sink.NoDriftIffSameMap` | src/sink.rs:247-249 | no drift iff the maps are equal |
| `Sink.Table.CurrentFiles` | src/sink.rs:216-228 | a removal for every visible file, or a storage failure |
| `Sink.Table.Commit` | src/sink.rs:561-604 | one new version holding all of it, or nothing; success only with the version there and loaded |
| `Sink.Table.Open` | src/sink.rs:461-507 | creates with no files on a first run, else changes nothing; what each mode refuses, and nothing else |
| `Sink.OverwriteShows` | src/sink.rs:568-585 | an overwrite shows exactly the staged files under the dump's columns, and leaves the schema alone unless it drifted |
| `Sink.AppendShows` | src/sink.rs:561-604 | any other mode adds to what is there and keeps the schema |
| `Sink.DeclaredAfterLoad` | src/sink.rs:568-585 | the declared columns are the dump's iff it was an overwrite or there was no drift |
| `Sink.StaleDeclaration` | src/sink.rs:489-506 | an `ErrorIfExists` load that leaves the wrong declaration |
| `Load.Tally` | src/pipeline.rs:1058-1082 | the loop over outcomes computes the verdict; which table it names is `LoadSafety.HonestCount` |
| `LoadRuns.StepInv` | src/pipeline.rs:814-1082 | every step of the storage side keeps its invariant, whatever storage does and whenever phase one ends |
| `LoadSafety.Unlanded` | src/sink.rs:461-604 | without a landed commit of this load a table is untouched, or created without files |
| `LoadSafety.HonestCount` | src/pipeline.rs:1064-1082 | the table named is that of the first report that failed, every one before it having succeeded; `total` is the tables opened; `committed` is the reports that succeeded, never exceeds the tables changed and equals them iff no landed commit was reported as failed |
| `LoadSafety.SucceededIff` | src/pipeline.rs:1058-1082 | a load that was not abandoned succeeds iff every opened table reported and none failed |
| `LoadSafety.CountsTooFew` | src/pipeline.rs:1064-1082 | a run that reports no table committed although one changed |
| `LoadSafety.LandedShows` | src/sink.rs:561-604 | a table whose commit landed shows exactly what it should, whatever else failed |
| `LoadSafety.SuccessShows` | src/pipeline.rs:1024-1062 | a successful load shows in every table exactly what it should |
| `LoadSafety.HistoryKept` | src/sink.rs:561-604 | every version recorded before a load still shows what it showed |
| `LoadChain.StoreProper` | src/sink.rs:561-604 | whatever a load did and wherever it stopped, every log it left has versions, and its visible files sit under paths of their own |
| `LoadChain.CanContinue` | src/sink.rs:461-507 | so any sequence of loads can be continued, in any mode |
| `LoadChain.ChainHistory` | src/sink.rs:561-604 | over any sequence of loads every recorded version keeps showing what it showed |
| `LoadChain.LastOverwriteDecides` | src/sink.rs:561-604 | the last overwriting load that committed to a table decides its files and columns, whatever loads follow without committing to it |
| `LoadChain.Rerun` | src/sink.rs:561-604 | re-running is idempotent in content and columns across any loads between, and the earlier result can still be read |
| `SessionInv.FilingReady` | src/pipeline.rs:967-972 | a block's files can always be filed under its table: nobody filed them, and no two share a path |
| `SessionInv.StepHolds` | src/pipeline.rs:763-1082 | every step of reader, workers and storage together keeps pool and load in step |
| `SessionRuns.NothingVisibleEarly` | src/pipeline.rs:763-1022 | until the reader has returned successfully no table's visible files change, and never if it returns otherwise, whatever worker, storage, stream or scan failure occurs |
| `SessionRuns.BurstOnlyWhenRead` | src/pipeline.rs:1021-1062 | commits begin only after every event of a scan that `finish` accepts; otherwise no run changes any table |
| `SessionRuns.TablesShowBlocks` | src/pipeline.rs:936-1062 | after a successful load every block's table shows the block's rows, from the files its own workers staged, after the files that were there if the load does not overwrite |
| `SessionRuns.OtherTablesKept` | src/pipeline.rs:1033-1062 | and no other table changes |
| `SessionRuns.PoolFollows` | src/pipeline.rs:763-1022 | joining the two sides takes no step of the pool away |
| `SessionRuns.SessionMoves` | src/pipeline.rs:556-592 | no session gets stuck before the load has ended and every worker is joined: there is always a step in which nobody gives up, no job fails that could be done, storage does not fail, and an opening is refused only by its mode |
| `SessionEnds.SessionsEnd` | src/pipeline.rs:556-1062 | no session is longer than what there was to do |
| `SessionEnds.CanFinish` | src/pipeline.rs:556-1062 | whatever has happened so far, over a dump with one block per table the session can be brought to its end by such steps alone |
| `SessionEnds.CleanSessionSucceeds` | src/pipeline.rs:763-1062 | over a complete scan, if nobody gives up, no worker or storage operation fails and no table is refused, the only outcome is success |
| `SessionEnds.LoadSide` | src/pipeline.rs:763-1062 | what storage goes through in a session is a run of the load |
| `SessionEnds.SessionCount` | src/pipeline.rs:1033-1062 | so a failed session names the first table whose commit was reported failed, and its count is honest exactly when no landed commit was |
| `SessionEnds.SessionIsLeg` | src/sink.rs:561-604 | and a session continues any chain of loads, for which history, the last overwrite and re-running hold |
| `Paths.RelativePath` | src/sink.rs:170-204 | accepts exactly the safe names and joins their parts |
| `Paths.AcceptedIff` | src/sink.rs:170-204 | accepted are names whose parts have 1 to 255 bytes, no space at an end, and only letters, digits, `_`, `-` and spaces in ASCII, of at most 512 bytes in all |
| `Paths.PathsApart` | src/sink.rs:170-204 | no two tables share a path |
| `Paths.KeysApart` | src/pipeline.rs:967-972 | nor the qualified name their staged files are kept under |
| `Paths.KeysCollide` | src/scan.rs:66-68 | without the check they could |
| `Paths.Confined` | src/sink.rs:170-204 | a path holds no dot, backslash or control byte and no empty part |
| `Calendar.DaysAreCounted` | src/values.rs:299-307 | the algorithm is the Gregorian day count wrapped to 64 bits, negative years included, down to the 400 lowest |
| `Calendar.LowestYears` | src/values.rs:299-307 | what the 400 lowest years of 64 bits are read as |
| `Calendar.ExactIffFits` | src/values.rs:299-307 | for every year of 64 bits it is exact iff the day count fits |
| `Calendar.NoOverflow` | src/values.rs:299-307 | and so for every year up to 10^16 either way |
| `Calendar.Monotone` | src/values.rs:299-307 | later dates have greater day numbers |
| `Calendar.Injective` | src/values.rs:299-307 | no two dates share one |
| `Calendar.StepsByOne` | src/values.rs:299-307 | consecutive dates are one apart, across month, year and year 0 |
| `Calendar.Surjective` | src/values.rs:299-307 | every day number is that of a date |
| `Temporal.TimeMicros` | src/values.rs:371-396 | the time of day in microseconds, with the loop that scales the fraction |
| `TemporalText.DateRoundTrip` | src/values.rs:353-368 | a printed date of any year, BC or not, reads as its wrapped day count or is refused, and exactly when |
| `TemporalText.DatesAreExact` | src/values.rs:353-368 | where the day count fits 64 bits, a date is read exactly and refused only if its day does not fit 32 |
| `TemporalText.FarYearWraps` | src/values.rs:353-368 | a far year that is read as another day |
| `TemporalText.ReadsOffset` | src/values.rs:420-439 | a printed UTC offset is split off and read, not mistaken for the date's separators |
| `TemporalText.TimestampRoundTrip` | src/values.rs:454-476 | every instant at every offset, with 0 to 6 digits of fraction, reads back as that instant iff the local day and time fit |
| `TemporalText.EveryInstant` | src/values.rs:454-476 | every instant has a local date and time at every offset |
| `TemporalText.Shortest` | src/values.rs:371-396 | every time has its shortest form, without trailing zeros |
| `TemporalText.WidthsAgree` | src/values.rs:454-476 | however many digits of fraction are written, it is the same instant |
| `TemporalEdges.NothingIffInfinity` | src/values.rs:353-357 | nothing is stored for either infinity, blanks around it or not, and for nothing else |
| `TemporalEdges.PartsIff` | src/values.rs:321-340 | of months and days written with two digits exactly 1 to 12 and 1 to 31 are accepted, after any year that fits |
| `TemporalEdges.PartsOnly` | src/values.rs:321-340 | and nothing that is not digits, two digits and two digits with dashes between |
| `TemporalEdges.FieldsIff` | src/values.rs:376-383 | hours to 24, minutes to 59, seconds to 60, which may be missing, and no others |
| `TemporalEdges.FractionRefused` | src/values.rs:384-394 | more than six digits of fraction are refused and not rounded |
| `TemporalEdges.DateAlone` | src/values.rs:454-476 | a date alone is midnight of that day, but refused where an offset is expected |
| `TemporalEdges.DefaultsToUtc` | src/values.rs:420-439 | where an offset is expected and none written, it is UTC |
| `TemporalEdges.NaiveOffsetRefused` | src/values.rs:454-476 | where none is expected, one that is written is refused, not applied |
| `Decimal.ParseDecimal` | src/values.rs:156-212 | for every text: nothing for `NaN`; for a sign, digits and perhaps a point and digits, the number so written times ten to the scale iff that is an integer below ten to the precision; an error for anything else |
| `Decimal.DecimalRoundTrip` | src/values.rs:156-212 | `n` over ten to the `k`, printed with any sign and `k` digits after the point, reads as plus or minus `n` times ten to the rest of the scale, and is refused iff that is too wide |
| `Decimal.ReadAsWritten` | src/values.rs:156-212 | so does every other way to write a number, leading zeros and missing parts included |
| `Decimal.NothingIffNaN` | src/values.rs:156-212 | nothing is stored for `NaN` and for nothing else |
| `Decimal.ExponentRefused` | src/values.rs:156-212 | an exponent is refused wherever it stands |
| `ArrayText.ParseArrayElements` | src/values.rs:230-293 | the nested loops compute the elements of a literal, or refuse it |
| `ArrayText.ArrayRoundTrip` | src/values.rs:230-293 | every sequence of nullable byte strings, bare or in quotes and with any blanks around its elements, reads back, null, `"NULL"` and the empty string apart |
| `ArrayText.BothLayers` | src/values.rs:214-293 | also through the COPY escaping around it |
| `ArrayText.EveryArray` | src/values.rs:214-293 | every such sequence can be written |
| `ArrayText.NotBraced` | src/values.rs:231-233 | what is not in braces is refused |
| `ArrayText.Unclosed` | src/values.rs:244-267 | so is a quote that nothing closes |
| `ArrayText.Stray` | src/values.rs:283-290 | and anything but a comma after an element |
| `Bytea.ParseBytea` | src/values.rs:492-538 | appends exactly the bytes the text stands for, or refuses it |
| `Bytea.HexRoundTrip` | src/values.rs:492-508 | every byte string in hex reads back |
| `Bytea.EscapeRoundTrip` | src/values.rs:510-538 | so does every one in the escape format, which is never taken for hex |
| `Bytea.HexIff` | src/values.rs:492-508 | of the texts after `\x` exactly two digits for each byte, of either case, are read |
| `Bytea.EscapeOnly` | src/values.rs:510-538 | whatever else is accepted is bytes, doubled backslashes and three octal digits up to 377 after a backslash |
| `Columns.BuilderAgrees` | src/builders.rs:221-277 | for every resolved type and both flags the builder finishes the declared type, and decimals are ones Arrow accepts |
| `Columns.IntegersFit` | src/builders.rs:54-97 | the integer types are declared with exactly the range PostgreSQL gives them |
| `Columns.NumericsFit` | src/builders.rs:54-97 | when a numeric is a decimal, of which precision and scale, and when it is text |
| `Columns.OthersFit` | src/builders.rs:54-97 | what the other types are declared as |
| `Columns.ArraysFit` | src/builders.rs:54-138 | when an array is a list, and of what |
| `Columns.ListColumn.AppendNull` | src/builders.rs:363-386 | a null row repeats the offset |
| `Columns.ListColumn.Append` | src/builders.rs:329-351 | one more row holding, element by element, null for null and otherwise what the element parses to, with substitutions reported; fails exactly for a bad literal, an element that does not parse, or an offset over 32 bits |
| `Columns.ListColumn.Finish` | src/builders.rs:376-433 | offsets, values and validity always satisfy the list constructor, hold exactly the appended rows, and start afresh |
| `Source.ObjectSource.OpenStream` | src/source.rs:204-220 | a ranged GET starts at the bytes delivered |
| `Source.ObjectSource.NextChunk` | src/source.rs:223-270 | the next bytes of the object, through resumes; no chunk without a failure means all was delivered |
| `Source.ObjectSource.Read` | src/source.rs:273-289 | always the next bytes; nothing, before any failure, only at the very end |
| `Source.ReadToEnd` | src/source.rs:204-289 | whatever the store does the result is a prefix, all of it if it ends; at most eight resumes, and no ranged GET at or past the length |

## Left out

- Tokio, object_store, delta-rs, Arrow and Parquet: foreign code. A write yields files, a commit appends one version or fails, a stream yields bytes or an error.
- Concurrent writers to one Delta table: a commit through a handle that is not current fails.
- Several COPY blocks for one table: a session opens each table once; `SessionRuns.SessionMoves` assumes it of the header it comes to, and `SessionEnds.CanFinish` of the dump.
- UTF-8: text is bytes; validation and lossy conversion are the identity on valid text, and trimming knows ASCII blanks only. Which letters beyond ASCII are safe in a path is a parameter.
- The 32-bit paren depth of the splitters is unbounded here.
- gzip detection and decoding, byte counting, the progress callback's numbers: library calls or one-line facts. An interrupt is the reader giving up.
- Preloading of tables and the open semaphore: opening is one step.
- `resolve_copy_columns` and a missing definition: the reader giving up; arity is the header's column count.
- The manifest, the run report's lists of missing and unexpected tables, error texts.
- Integers, floats, booleans and bare times of day: thin wrappers over the standard library.
- `types::resolve`: names to types is a table lookup; every resolved type is covered instead.
- Substitution counts and the order of fields within Arrow batches other than lists.
- Wake-ups are modelled as threads that may be woken at any time, also without reason; no fairness is assumed, so nothing is claimed about how long a thread waits.
