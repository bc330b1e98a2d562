# The raw-event archive, modelled and proved

twillingate keeps every raw event in an append-only log per project and day. A
daily pass turns each closed log into a Parquet file in two passes over the log
(the first line of each id, stably sorted), and each month's files into one in
two passes over the files (a k-way merge), moving the data between file names
one rename, write or delete at a time, while readers list the directory and the
process may stop between any two operations.

This project models that code step by step and proves that the fast form is the
short one it stands for:

- **What a dump and a merge are for** (`Rows`, `StableSort`, `FirstRows`,
  `Segments`, `SortedFirsts`): the stable sort of the first row of each id. A
  stable sort is unique, merging the dumps of consecutive logs is the dump of all
  their lines, and a merge can be repeated with whatever days it had not deleted.
  Row by row: which rows are kept, and in what order of family and time.
- **The columns** (`Columns`, `NamedRows`, `LogNames`, `Fields`): each log names
  its own keys' columns, and a merge joins columns by name, ignoring case. Where
  one log ended and the next began shows in the merged file exactly when some
  key is named otherwise in its log than among all keys.
- **The dump** (`Bitset`, `Dump`, `LogLines`, `DumpIndex`): the offset index, the
  places sorted by hash, the drop bits and the sort by rank write exactly that,
  each line whole, or fail exactly when some line cannot be read or written.
- **The merge** (`CursorHeap`, `RowGroups`, `Merge`): drop bits, cursors and a heap
  write exactly that too, or name an unsorted input. Pass 2 always writes the rows
  pass 1 counted.
- **The values of a merge** (`Vectors`, `Runs`): compact and dense column runs,
  a counting-sorted index of the sparse part and one row buffer reused from row
  to row give every row its cells and no other's.
- **The directory** (`Directory`, `AppendOrder`, `LateClaim`, `Listing`,
  `Maintain`): in every state of every run of appends, renames, writes and
  deletes, each appended line is in exactly one file a reader lists. A day's
  lines are held in the order appended if and only if each claim took the oldest
  log that waited. A pass that gets through leaves every final month of which no
  operation failed as its month file alone, and the lines of every day gone by in
  Parquet; only failed operations fail it.
- **The log** (`Lines`, `EventLog`): under short and failed writes, failed
  cut-backs, failed syncs and crashes, a log is whole lines and at most one torn
  one, and a batch reported written is durable.
- **What a reader lists** (`Reader`, `Spans`): each line appended in one file, once;
  each day with events described by one current sessions file or one gap.
- **Beside it**: the sessionizer and the regrouping before it (`Sessions`,
  `Regroup`), the identity and alias folds (`Keyed`, `Identities`, `Aliases`),
  the column arenas of the writer (`Bytes`, `Arena`), the incremental key
  scanner (`Keys`), the origin globs (`Origins`), the group keys and the day
  sets of an aggregation (`Radix`, `Groups`, `Distinct`) and the monitor's
  checks interleaved with its tick (`Scheduler`, `LostEnd`, `Runner`).

A file system is a map from names to contents; a rename, a delete and a write to
a temporary file renamed into place are single steps. Whatever may fail fails by
a nondeterministic choice, or, where what is promised depends on it, as a
function given beforehand says of the n-th operation. Days and times are
integers, and an id's 128-bit hash is taken to be injective: the source states
the odds of a collision as its only gap (`internal/archive/merge.go:368-370`).

## Where the code does less than it says

- **Where a log ends can show.** Of two keys equal but for case one column is
  suffixed, and which, and with what number, is decided log by log. The merge
  then joins the logs' columns by name. `LogNames.SegmentationShows` is the exact
  condition on the key sets of logs with lines: whatever the lines hold, the
  merged file is the dump of all of them in one log if and only if every log
  names each of its keys as one log of all keys would. A key that clashes with none in its log is
  so named exactly when it clashes with none of all (`LogNames.PlainNamedAlike`).
  `Fields.MergedRowsDiffer` has two logs, one of the attributes "A" and "a" and
  one of "a" alone, whose merge, with the code's own fields, puts the second's
  cell into the first's column for "A".
- **A later line can be the one kept.** A merge reads a day's segments in the
  order they were claimed, taking it for their age (`internal/archive/merge.go:22`).
  It is their age if and only if at each claim no older closed log of the day
  waited (`AppendOrder.OldestFirst`). A claim that fails while a later one does
  not is enough to break it: in `LateClaim.LaterLineKept` two logs hold one id
  each and the month file keeps the later line. So is a log rotated into a number
  freed before older ones are claimed, or a tenth closed log, listed before the
  second (`Listing.TenBeforeTwo`). A pass that begins with no closed log of the
  day keeps its order whatever fails (`Maintain.Archive.Maintain`).
- **The key scanner can keep keys that are gone.** It takes a file for the one it
  read when it is the same file, is no shorter, and has a newline where the read
  stopped. A log cut back and grown again to a line end at that very place passes
  (`Keys.StaleAfterRegrowth`). The keys returned are then right exactly when the
  lines up to there have the keys held, but for keys the later lines have too;
  in every other case they are right (`Keys.KeyScanner.Keys`).
- **A manual check can begin again.** It is begun once for each request only while
  the write that ends it succeeds; each failed one lets a later tick begin it
  once more, and no more than that (`Scheduler.OnePerRequest`), which
  `LostEnd.BegunTwice` shows can happen.

## Model

| member | source | states |
|---|---|---|
| `Rows.CompareKeysAntisymmetric` | internal/archive/merge.go:686-691 | the merge's comparison of (family, ts) is antisymmetric and ties on equal keys only |
| `Rows.LeTransitive` | internal/archive/merge.go:686-691 | it is transitive, NULLs last included |
| `StableSort.SortKeepsOfKey` | internal/archive/dump.go:314-338 | stability: the rows of each key keep their order, none lost and none added |
| `StableSort.StableSortUnique` | internal/archive/merge.go:22-28 | a sorted file that keeps each key's rows in order is the stable sort, whatever made it |
| `StableSort.SortTakesLeast` | internal/archive/merge.go:449-501 | which row may be written first: none before it in input order ties with it or precedes it |
| `SortedFirsts.SortedIsFileOrder` | internal/archive/merge.go:686-691 | what the sort compares by is: a family before none, families at the first character they differ in or the shorter first, then a time before none, and times ascending |
| `FirstRows.FirstKeeps` | internal/archive/decode.go:55-81 | the rows kept are of distinct ids, one for each id |
| `FirstRows.FirstOfConcat` | internal/archive/merge.go:371-420 | first rows of two files: those of the first, then those of the second of ids not seen |
| `FirstRows.WithoutOfSort` | internal/archive/merge.go:371-501 | leaving ids out and sorting commute |
| `FirstRows.UnmarkedIsFirst` | internal/archive/merge.go:371-420 | marking exactly the rows that repeat an id leaves exactly the first rows |
| `FirstRows.FirstLines.Keep` | internal/archive/decode.go:66-81 | the line is kept if and only if its id was not seen, an id-less line being one id; what is kept step by step is the first rows |
| `Segments.DumpAfter` | internal/archive/dump.go:279-338 | what a merge keeps of a dump is the sort of what it would keep of the log |
| `Segments.MergeOfDumps` | internal/archive/merge.go:20-36 | of rows by column, their columns named alike, segmentation is invisible: merging the dumps of consecutive logs gives, row for row, one dump of all their lines |
| `Segments.MergeAgain` | internal/archive/maintain.go:356-389 | a month file merged with other files stays as it is if and only if it has all their ids |
| `Segments.InterruptedMerge` | internal/archive/maintain.go:356-389 | a merge stopped anywhere in its deletes and done again writes the same month file |
| `SortedFirsts.DumpIsFirsts` | internal/archive/merge.go:22-28 | each row kept is the first of its id, each id has one, they come in that order, and rows of one family and time as they came |
| `Bitset.WithBit` | internal/archive/merge.go:405-411 | setting a row's drop bit leaves every other row's as it was |
| `Dump.ReadsLineBack` | internal/archive/dump.go:354-395 | reading a kept line's length at its offset gives that line |
| `Dump.CompareLinesIsKeyOrder` | internal/archive/dump.go:314-350 | comparing index entries by family rank and ts is comparing their rows' keys |
| `Dump.SortLinesIsSort` | internal/archive/dump.go:314-338 | the stable sort of the index by rank is the stable sort of the rows by family text and ts, NULLs last |
| `Dump.AdjacentRepeats` | internal/archive/dump.go:279-311 | in the places sorted by hash and place, the one before has the same hash if and only if an earlier line of the log has it |
| `DumpIndex.DumpIndex.Line` | internal/archive/dump.go:194-245 | a line is indexed, an id-less repeat skipped before its family is looked at, or refused, in exactly the cases the code does |
| `DumpIndex.DumpIndex.Read` | internal/archive/dump.go:150-191 | pass 1 succeeds if and only if every line reads, and indexes the first line of each id in file order |
| `DumpIndex.DumpIndex.DropRepeats` | internal/archive/dump.go:279-311 | sorting by hash, marking bits and compacting in place keeps exactly the first rows |
| `DumpIndex.DumpIndex.Sort` | internal/archive/dump.go:314-338 | the index is then the stable sort of the kept rows |
| `DumpIndex.DumpIndex.Write` | internal/archive/dump.go:354-395 | pass 2 writes the indexed rows, or fails if and only if one has a value its column cannot hold |
| `DumpIndex.MarkRepeats` | internal/archive/dump.go:288-299 | the bits set are exactly those of the places whose hash the place before has |
| `DumpIndex.DumpLog` | internal/archive/dump.go:56-79 | each row written is the first line of its id with every value of that line, each id has one, by family and time and then as logged; it fails if and only if some line is refused: one that does not read, or a first line with a value its column cannot hold |
| `LogLines.DumpMeans` | internal/archive/dump.go:150-245 | what of a log is written and what fails it, in terms of the lines' own fields |
| `CursorHeap.Init` | internal/archive/merge.go:449-501 | a heap of the same cursors |
| `CursorHeap.FixRoot` | internal/archive/merge.go:695-713 | moving the root's cursor on keeps the heap and the other cursors |
| `CursorHeap.PopRoot` | internal/archive/merge.go:695-713 | taking the root out keeps the heap and every other cursor |
| `CursorHeap.RootIsLeast` | internal/archive/merge.go:695-706 | the root comes before every other cursor, the earlier input on a tie |
| `RowGroups.RowOfGroup` | internal/archive/merge.go:423-428 | row r of group g is the file's row groupRow(g) + r |
| `Merge.MarkInput` | internal/archive/merge.go:371-420 | the rows of one input left unmarked are its first rows of ids no earlier input had, and the marks are counted |
| `Merge.Advance` | internal/archive/merge.go:535-562 | a cursor goes to its next unmarked row over empty groups, every row passed in order; it fails on an unsorted input only, and is done only when the whole input was in order |
| `Merge.TakeLeast` | internal/archive/merge.go:449-501 | the least head of the sorted inputs, the earlier input on a tie, is the next row of the stable sort of all that is left |
| `Merge.TakeRoot` | internal/archive/merge.go:449-501 | the heap's root is at that row |
| `Merge.MonthMerge.MarkRepeats` | internal/archive/merge.go:371-420 | the unmarked rows of all inputs are the first row of each id over all of them, and kept is how many they are |
| `Merge.MonthMerge.Open` | internal/archive/merge.go:449-456 | the heap's cursors are those of the inputs with a row to give, each at its first unmarked row |
| `Merge.MonthMerge.MoveRoot` | internal/archive/merge.go:476-490 | taking a row leaves every cursor at the first row its input still has to give |
| `Merge.MonthMerge.WriteRows` | internal/archive/merge.go:449-501 | it succeeds if and only if every input is sorted, with the stable sort of the kept rows; the count never differs from pass 1's |
| `Merge.MergeFiles` | internal/archive/merge.go:61-75 | cells by column, each row written is the first of its id by file, row group and row, each id has one, by family and time and then in that order; it fails if and only if in some file two rows stand the wrong way round, and names such a file |
| `RowGroups.MergeMeans` | internal/archive/merge.go:20-36 | the stable sort of the first rows is those rows, place by place |
| `Merge.DumpsMerge` | internal/archive/merge.go:20-75 | files that dumps wrote always merge, where their columns are named alike to the dump of all their lines in one log |
| `Vectors.AddValue` | internal/archive/merge.go:763-852 | a value appended reads back at its row, compact or dense, after the values held |
| `Vectors.ReadVector` | internal/archive/merge.go:763-866 | however the chunk is split into pages and dictionaries, the vector reads as the chunk's rows from to to, NULLs included; a chunk of another length fails |
| `Vectors.CellMeans` | internal/archive/merge.go:763-866 | a chunk's row is its page's: NULL where the levels say so, else the page's next value after those of the rows before |
| `Runs.PrefixSums` | internal/archive/merge.go:640-646 | the sums in place are where each row's cells begin |
| `Runs.Place` | internal/archive/merge.go:646-660 | each compact cell lands in its row's stretch of the index, none lost |
| `Runs.Index` | internal/archive/merge.go:630-660 | the counting-sorted index lists, row by row, exactly the compact columns' cells |
| `Runs.Run.RunEnd` | internal/archive/merge.go:610-620 | the run ends where the family does, or the group |
| `Runs.Run.Load` | internal/archive/merge.go:609-661 | the run the row is in is held, dense or compact, as its columns' chunks read, unless it is already; it fails if and only if a column has another number of rows |
| `Runs.RowWhole` | internal/archive/merge.go:665-683 | the dense columns and the index's cells of a row are the whole row |
| `Runs.Run.Fill` | internal/archive/merge.go:665-683 | in a clear buffer, each output column holds the row's cell, every other NULL |
| `Runs.Run.NextRow` | internal/archive/merge.go:457-475 | clearing only the columns the last row set, then filling, leaves exactly the new row in the reused buffer |
| `Runs.Run.TakeRows` | internal/archive/merge.go:457-490 | over a whole group, loading, filling and letting go of runs passed, with other inputs' rows put into the buffer in between, the rows taken are the group's rows not dropped, in order, and no run is left for the next group |
| `Directory.RenameKeepsInv` | internal/archive/maintain.go:246-267 | closing and claiming a log keeps every line listed once |
| `Directory.WriteTargetKeepsInv` | internal/archive/maintain.go:273-285 | the moment its target exists the claimed log is no longer listed, and the target is the dump of its lines |
| `Directory.DropKeepsInv` | internal/archive/maintain.go:273-285 | deleting a claimed log whose target exists, a merged day or an empty log loses no line |
| `Directory.FirstMerge` | internal/archive/maintain.go:356-389 | a first merge writes the dump of every line of the month's days |
| `Directory.SecondMerge` | internal/archive/maintain.go:356-389 | a merge of any days left beside their month file writes the month file it finds |
| `Directory.WriteMonthKeepsInv` | internal/archive/maintain.go:356-389 | the moment the month file exists its days are no longer listed and it holds their lines |
| `Directory.StepKeepsInv` | internal/archive/maintain.go:90-160 | every append, tear, cut, rename, write and delete keeps the invariant |
| `Directory.EveryLineOnce` | internal/archive/files.go:46-60 | in every state of every run, crashes included, each line appended is in exactly one listed file, once; each Parquet file has the first row of each id of its lines, by family and time; and a claimed log is never torn |
| `AppendOrder.StepOrders` | internal/archive/maintain.go:90-160 | no step but a claim decides the order of a day's lines, and a claim keeps it if and only if it takes the oldest closed log that waits |
| `AppendOrder.OldestFirst` | internal/archive/maintain.go:246-267 | over every run, a day's lines are held in the order appended, in its segments and then in the month file, if and only if at each claim no older closed log of the day waited |
| `AppendOrder.AppendedLines` | internal/archive/log.go:142-200 | the lines appended in a run are those of its appends, one after another |
| `AppendOrder.TornOnlyByTear` | internal/archive/log.go:206-232 | a log is torn only where a write failed that was not cut back, with no append and no cut since |
| `AppendOrder.EarliestKept` | internal/archive/merge.go:22-28 | the row kept for an id is of a line of some day; when that day is in order, of its first appended with the id; and where the lines are held day by day, as in a month file, no earlier day has the id |
| `LateClaim.LaterLineKept` | internal/archive/maintain.go:112-118 | a run in which the claim of the older of two logs fails: the month file keeps the later line of an id, where one dump keeps the earlier |
| `Listing.OneDigitListed` | internal/archive/maintain.go:412-422 | closed logs numbered up to nine are listed in order |
| `Listing.TenBeforeTwo` | internal/archive/maintain.go:412-422 | the tenth is listed before the second |
| `Maintain.DaysIn` | internal/archive/maintain.go:356-372 | exactly the month's day files and segments, by day and then segment |
| `Maintain.Archive.NextClosed` | internal/archive/log.go:289-301 | the first free number, found after finitely many |
| `Maintain.Archive.Rotate` | internal/archive/log.go:259-284 | the log is there no more, its bytes under the first free closed name; nothing else changes |
| `Maintain.Archive.FreeTarget` | internal/archive/maintain.go:259-262 | the first target of the day neither there nor claimed |
| `Maintain.Archive.Claim` | internal/archive/maintain.go:246-267 | the torn line is cut; a log with lines is renamed, whole, to the first free target's claim; an empty one goes; it fails only when one of those operations does |
| `Maintain.Archive.Dump` | internal/archive/maintain.go:273-285 | the target holds the claimed log's lines, written now or by a pass that stopped, and the log is gone, unless an operation failed |
| `Maintain.Archive.MergeMonth` | internal/archive/maintain.go:356-389 | the month's days are gone and its file is there, unless an operation failed; no other file goes, and none comes but new logs |
| `Maintain.Archive.ClaimAll` | internal/archive/maintain.go:109-118 | each closed log is claimed unless an operation on it failed; a day whose logs are listed by age keeps its order, if one is all there is or none of its claims fails |
| `Maintain.Archive.Maintain` | internal/archive/maintain.go:90-160 | with appends and midnight in between, every state is one step of the protocol after the one before; the months given as failed are months of which an operation failed, so none when none did. A pass neither stopped nor failing to list leaves every other final month as its month file alone, with the first row of each id, days in order; no closed or claimed log of any other month; and every line that at its beginning a log of a day gone by, or a closed or claimed one, held is in a Parquet file. The logs of today and later keep their lines |
| `Maintain.NothingLeft` | internal/archive/maintain.go:142-160 | a month with nothing open and no day left is its month file |
| `Maintain.LinesSettled` | internal/archive/maintain.go:98-137 | a line of a log of a day gone by is in a Parquet file once the pass is through, if no step failed in its month |
| `Lines.AfterLastNewline` | internal/archive/log.go:116-132 | reading backwards a chunk at a time finds the end of the last whole line, for any size |
| `Lines.CutLeavesLines` | internal/archive/log.go:91-112 | cut there, the file is its whole lines |
| `Lines.BytesOfInjective` | internal/archive/log.go:340-392 | a log's bytes are the bytes of no other lines |
| `Lines.LineAt` | internal/archive/log.go:142-172 | each line stands in the bytes after those before it, followed by a newline |
| `Lines.TextAfterWrite` | internal/archive/log.go:206-232 | a write stopped at any byte leaves whole lines of the batch and at most one torn one |
| `Lines.TextAfterCrash` | internal/archive/log.go:57-60 | a file cut at any byte past its synced lines still begins with them |
| `EventLog.FreshCovers` | internal/archive/log.go:142-172 | every id of a batch was written lately or has a line to write |
| `EventLog.FreshDistinct` | internal/archive/log.go:142-172 | and one line only |
| `EventLog.Gather` | internal/archive/log.go:142-172 | the lines gathered log by log are those lines, each in its own log's in order; it fails if and only if one of them cannot be encoded |
| `EventLog.Log.CutTornLine` | internal/archive/log.go:91-112 | the file becomes its whole lines, or stays as it was |
| `EventLog.Log.File` | internal/archive/log.go:235-253 | an open log ends in no torn line, one left by a failed cut-back included; no line is lost |
| `EventLog.Log.Append` | internal/archive/log.go:206-232 | all lines are appended, or some first of them; after a failed cut-back the log is closed |
| `EventLog.Log.WriteEvents` | internal/archive/log.go:142-200 | on success every log ends in the batch's new events for it, in the batch's order: each id's first, unless written within the last ten minutes; they are whole on disk, and a line of every id of the batch is durable. It fails if and only if such an event cannot be encoded or a file operation fails, each log then ending in some first of those lines; the ids remembered are those of the last ten minutes and, on success, the batch's; no line ever goes |
| `EventLog.Log.Rotate` | internal/archive/log.go:259-284 | the log is closed and leaves with its whole lines and at most a torn one, or stays; no durable line is lost |
| `EventLog.Log.Open` | internal/archive/log.go:60-87 | every log is cut back to its whole lines |
| `EventLog.CrashKeeps` | internal/archive/log.go:57-60 | a crash that loses any unsynced end of a file keeps every durable line |
| `Reader.ProjectOf` | internal/archive/files.go:121-154 | each name is listed as often as it is there: a month file, a day file until its month's is, a log or a closed one, a claimed one until its day file is; each day not merged has its own files, and never a merged month |
| `Reader.ReadOnce` | internal/archive/files.go:46-60 | the files a reader lists hold each line appended in one place of the list, and there once |
| `Reader.ListsListed` | internal/archive/files.go:121-152 | what is listed is what the directory's invariant calls listed |
| `Reader.IsCurrent` | internal/archive/files.go:248-266 | a derived file is current if and only if it and every input are there and no input is newer; it fails if and only if an input is missing and none before it is newer |
| `Reader.Derived` | internal/archive/files.go:157-209 | a day has events if and only if a gap covers it or a listed sessions file describes it, never both and never two files; those listed, each once, are exactly those with no newer input and no log beside it; it fails if and only if, where there is a sessions file to compare, one of the files it describes has gone before a newer one is met |
| `Spans.JoinSpans` | internal/archive/files.go:269-280 | the days are the same, in sorted spans that do not touch |
| `Spans.ApartUnique` | internal/archive/files.go:269-280 | a set of days has one such list |
| `Sessions.Seconds` | internal/archive/sessions.go:130-136 | whole seconds rounded down, before 1970 too |
| `Sessions.Sessionize` | internal/archive/sessions.go:55-94 | the views are sorted in place by kind, actor, time and id and their sessions returned: two views of an actor are of one if and only if they declare it, or declare none and no view between comes more than half an hour after the one before; first and last the least and greatest, and how many views each has |
| `Sessions.TogetherMeans` | internal/archive/sessions.go:55-94 | counting run starts second by second tells exactly the views with such a break between them apart |
| `Sessions.OneSession` | internal/archive/sessions.go:55-94 | no view is in two sessions |
| `Sessions.SessionsUnique` | internal/archive/sessions.go:55-94 | sorted views have one list of sessions |
| `Regroup.EachViewOnce` | internal/archive/derived.go:188-272 | each view is handed over once, under its own project and day, in the files' order |
| `Regroup.Span` | internal/archive/derived.go:194-225 | a part runs from a row group's first view to its last |
| `Regroup.Parts` | internal/archive/derived.go:194-225 | each day's parts are the row groups holding a view of it |
| `Regroup.ViewsOf` | internal/archive/derived.go:252-272 | reading a day's parts and keeping its views gives exactly the day's views |
| `Identities.IdentityMap.See` | internal/archive/identities.go:42-61 | the identities are those of the events seen and this one, and the growth returned is Bytes after less Bytes before |
| `Identities.IdentityMap.Fold` | internal/archive/identities.go:65-80 | the identities are those of the events seen by one, then by the other |
| `Identities.IdentityMap.Bytes` | internal/archive/identities.go:83-89 | the sum over all identities, whatever order the map gives them in |
| `Identities.JoinOk` | internal/archive/identities.go:65-80 | joining two parts' identities is the identity of their events in order: the latest name, the earlier of two as late |
| `Identities.IdentitiesUnique` | internal/archive/identities.go:42-61 | events come to one set of identities |
| `Identities.SplitsAgree` | internal/archive/identities.go:65-80 | any split of the events into any number of parts folds to what taking them one by one gives |
| `Aliases.AliasMap.See` | internal/archive/identities.go:116-140 | the aliases are those of the events seen and this one; an event without both ids is none |
| `Aliases.AliasMap.Fold` | internal/archive/identities.go:143-157 | the aliases are those of the events of both, an undated one included |
| `Aliases.JoinOk` | internal/archive/identities.go:143-157 | joining two parts' aliases is the alias of their events |
| `Aliases.AliasesUnique` | internal/archive/identities.go:116-140 | events come to one set of aliases |
| `Columns.ColumnsOf` | internal/archive/maintain.go:292-326 | it ends, and gives the fields, then the keys in order named by their text, then the others suffixed by the first free number, every name different but for case |
| `Columns.FreeName` | internal/archive/maintain.go:311-324 | a free suffix is found: no more names are taken than there are columns |
| `Columns.ColumnsUnique` | internal/archive/maintain.go:292-326 | the columns depend on the set of keys alone, however a map lists it |
| `Columns.KeyHasColumn` | internal/archive/maintain.go:292-326 | every key has a column |
| `Columns.KeyOfColumn` | internal/archive/maintain.go:292-326 | and one only, and no other key has one |
| `Columns.NameWithinLog` | internal/archive/maintain.go:334-350 | a key's column has its own text for a name if and only if no field and no earlier key of the log is equal to it but for case |
| `NamedRows.CellNamed` | internal/archive/dump.go:374-389 | a line's cell is in the column its key is read into |
| `NamedRows.AddColumns` | internal/archive/merge.go:210-248 | each of a file's columns lands in the output column of its name but for case, added when new; a file of two such columns fails, and no other |
| `NamedRows.MergeColumns` | internal/archive/merge.go:128-153 | the output's columns are the files' in order of first appearance, then the fields none has, no two equal but for case |
| `LogNames.AlikeMerges` | internal/archive/merge.go:20-49 | logs that name their keys as one log of all would merge to the same columns and rows as that one's dump, lines with fewer keys included |
| `LogNames.UnlikeDiffers` | internal/archive/maintain.go:332-346 | a key named otherwise gives logs with lines, of just these keys, whose merged rows differ from the dump's |
| `LogNames.SegmentationShows` | internal/archive/maintain.go:332-346 | the dumps of all logs that have lines and these key sets merge to the dump of all their lines if and only if each log names its keys as all do |
| `LogNames.PlainNamedAlike` | internal/archive/maintain.go:302-318 | a key that clashes with none in its log is named as among all keys if and only if it clashes with none of all |
| `LogNames.NoClashNamedAlike` | internal/archive/maintain.go:302-318 | logs among whose keys none clashes with another or a field are named alike |
| `Fields.MergedRowsDiffer` | internal/archive/maintain.go:332-346 | with the code's fields, a log of the attributes "A" and "a" and one of "a": the columns columnsOf gives them put the second's cell into "attr_a", and those of both in one log do not |
| `Fields.FieldsAreOk` | internal/archive/log.go:322-335 | the code's fields differ ignoring case, as columnsOf needs, and none is such an attribute |
| `Bytes.UvarintReads` | internal/archive/pqwide.go:186-231 | a uvarint reads back, whatever follows it |
| `Bytes.SignedReads` | internal/archive/pqwide.go:92-112 | a 64-bit value kept as unsigned reads back signed |
| `Arena.WideFile.Add` | internal/archive/pqwide.go:92-112 | each non-NULL cell is appended to its column's arena with the rows since the last |
| `Arena.ReadCell` | internal/archive/pqwide.go:186-231 | the bytes at a value's place read as the value, and leave the column's rest |
| `Arena.Encode` | internal/archive/pqwide.go:186-231 | a column of n rows comes out of its arena row for row, NULL elsewhere, whatever number of rows is handed on at a time; the check at the end never fails |
| `Arena.WideFile.WriteGroup` | internal/archive/pqwide.go:127-171 | the row group written is the rows added, column by column; it fails if and only if the file failed before, is full, or a write of a column fails |
| `Radix.NumberInjective` | internal/native/aggregate.go:971-983 | mixed-radix numbers of different digits differ |
| `Radix.NumberBelow` | internal/native/aggregate.go:971-987 | and are below the product of the radixes |
| `Radix.NoOverflow` | internal/native/aggregate.go:964-969 | the guard fails if and only if the product would not fit 64 bits |
| `Groups.EncodeInjective` | internal/native/aggregate.go:1019-1042 | different tuples have different encodings, NULL apart from every text |
| `Groups.LocalKeyTells` | internal/native/aggregate.go:971-983 | rows of one batch with one local key have one tuple |
| `Groups.Multipliers` | internal/native/aggregate.go:955-970 | it fails if and only if the tuples of a batch do not fit 64 bits |
| `Groups.Slots` | internal/native/aggregate.go:984-1016 | by table or by map, each row's slot is that of a row of its tuple, and no two slots are of one number |
| `Groups.GroupTable.Resolve` | internal/native/aggregate.go:76-101 | each tuple gets its own group's id, met or new, and -1 only when it was not met before and the table is full or the memory past its budget; the table grows by one for each look that finds it within |
| `Groups.GroupsOf` | internal/native/aggregate.go:947-1052 | each selected row's id stands for its dictionaries' entries, NULL without one, now and after the table grew, -1 only past the caps and never for a tuple met before; it fails if and only if the tuples there can be do not fit 64 bits |
| `Groups.OneTupleOneGroup` | internal/native/aggregate.go:943-1052 | rows of any two batches have one tracked id if and only if their tuples are equal |
| `Distinct.AddToDays` | internal/native/aggregate.go:890-934 | the seen and last shortcuts leave out no id of any group and day, and add none; it fails if and only if a row's day is out of range |
| `Distinct.CellTells` | internal/native/aggregate.go:921 | a cell number is of one group and day |
| `Scheduler.StepKeepsInv` | internal/monitor/monitor.go:223-312 | every interleaved step of ticks and of checks that go on, one each, keeps the marks, the workers and the counts in agreement with the checks |
| `Scheduler.OnePerRequest` | internal/monitor/monitor.go:276-292 | over every run, a request's check is begun at most once, and once more for each lost write of its end |
| `Scheduler.StartedCounts` | internal/monitor/monitor.go:276-292 | what is counted as begun for a request grows by one exactly in the steps in which a check of it begins |
| `LostEnd.BegunTwice` | internal/monitor/monitor.go:481-487 | a run with one lost write and two checks begun for one request |
| `Scheduler.OneOfEach` | internal/monitor/monitor.go:276-312 | over every run, a monitor has at most one slot check and one manual check going on |
| `Scheduler.WorkersBound` | internal/monitor/monitor.go:453-463 | over every run, as many availability checks go on as workers are taken, at most 16 |
| `Scheduler.SlotAlone` | internal/monitor/monitor.go:294-312 | over every run, a slot check begins only while no other check of its monitor goes on, whatever the marks say |
| `Runner.DueIsSlot` | internal/monitor/monitor.go:531-539 | a slot is due if and only if a multiple of the interval past the offset falls in (prev, now], before the epoch too |
| `Runner.Runner.StartManual` | internal/monitor/monitor.go:276-292 | the request's check begins, once; a request too old begins none and is over in the store, unless the write of that fails |
| `Runner.Runner.StartSlot` | internal/monitor/monitor.go:296-312 | a check of the monitor begins if and only if none of it goes on and fewer than 16 availability checks do; else nothing changes |
| `Runner.Runner.Tick` | internal/monitor/monitor.go:223-256 | it fails only when the listing does; the running checks are noted, then the requests listed; each of them pending, of a monitor not noted, has its check begun once unless older than two minutes, and no other is begun; each monitor listed with a slot in (prev, now] is come to, and its check begins if none of it goes on and a worker is free; no other monitor's slot check begins, and none twice |
| `Keys.ReadLine` | internal/archive/decode.go:26-37 | a line longer than any chunk is read whole, a torn one not at all |
| `Keys.KeyScanner.Read` | internal/archive/keys.go:89-108 | the keys so far are those of every line complete up to where the read stopped |
| `Keys.KeyScanner.Keys` | internal/archive/keys.go:46-70 | over any number of calls, the keys are those of the file's complete lines when it is read from its start or begins with the lines read, and otherwise if and only if the lines before the read point have the keys held, leaving out those of the later lines |
| `Keys.KeysOfAppended` | internal/archive/keys.go:46-108 | the keys of a file grown by appends are those read before and those of the rest |
| `Keys.StaleAfterRegrowth` | internal/archive/keys.go:46-83 | two calls on a log of one line, cut back and grown by another as long in between: the second returns the key of the line that is gone |
| `Origins.GlobIsParts` | internal/manage/registry.go:243-247 | a pattern's meaning, a "*" any run without "/", is its literal parts with slash-free gaps |
| `Origins.GlobIsFilled` | internal/manage/registry.go:243-247 | the origins a pattern accepts are those made by putting a text without "/" for each "*" |
| `Origins.EarlierIsAsGood` | internal/manage/registry.go:248-271 | what fits after a later place of a part fits after an earlier one, parts with "/" included |
| `Origins.LeftmostIsEnough` | internal/manage/registry.go:248-271 | the rest fits if and only if it fits after the part's leftmost place |
| `Origins.MatchOrigin` | internal/manage/registry.go:248-271 | it accepts exactly the origins made from the pattern with a text without "/" for each "*", a bare "*" every one |
| `Origins.OriginSet.Match` | internal/manage/registry.go:231-241 | an origin is allowed if and only if one of the project's entries, without a "/" at its end, accepts it |
| `Origins.OriginSet.RedirectAllowed` | internal/manage/registry.go:365-389 | through a bare "*" only the page's own origin is, through any other entry every one it accepts |

## Left out

- Scheduler.OnePerRequest: does not model a process start, which serves again a request that was pending when the process stopped.
- Groups.GroupTable.Resolve: does not model the memory's size; whether it is past its budget is given for each look.
- Distinct.AddToDays: does not model the whole-range sets, the sketches and the id hashes; an id is its text.
- Arena.WideFile.WriteGroup: does not model the pages of the format, the footer, nor bytes written when a write fails.
- Reader.Derived: does not model the orphans, what is due to be derived, and the identities and aliases files.
- Regroup.Parts: counts row groups file by file in one sequence and leaves out which columns are read.
- Merge.MergeFiles: takes cells by column; how columns are joined by name is `NamedRows.MergeColumns`, and their types, the cut of row groups in the output and the bound on open footers are not modelled.
- Merge.DumpsMerge: says nothing of logs that name their columns otherwise; for those see `LogNames.SegmentationShows`.
- Segments.MergeOfDumps: the same; it is about rows whose columns are named alike.
- Directory.EveryLineOnce: a line that a crash loses before it is synced is not among those appended; what a crash may lose of a log is `EventLog.CrashKeeps`, and the two are not joined. A table is the dump of its lines by key; the columns of each log's file are `LogNames`'.
- DumpIndex.DumpLog: takes a line's JSON decoding and casts as given; the columns its keys are read into are `NamedRows.DumpFile`'s.
- Listing.TenBeforeTwo: only the closed logs of one day are listed as their names are; the order of other names is any fixed one.
- Runs.Run.Load: does not model the scale factors of the times and numbers of other writers' files.
- Origins.OriginSet.RedirectAllowed: takes the target's origin, which urlOrigin parses from it, as given.
- Columns.ColumnsOf: lower-cases character by character, which Unicode's special cases are not.
- Parquet, Thrift and zstd encoding, and the splice of footers: foreign formats; a file is its rows.
- fsync of files and directories beyond what is synced and what a crash may lose, file modes, the lock file.
- Contexts and cancellation but for the point between two dumps where a pass may stop.
- Retention and the purge of a project, which delete lines on purpose; the derive step of the daily pass; sizes and statistics.
- Stat errors other than a missing file.
- An append to a month already merged: the late window rules it out, here by the guard of the append.
- The engine's aggregation without dimensions (every row is of group 0), numeric copies of dimension values, the growth of the per-group arrays.
- The monitor's paused mode, its daily certificate and domain reads and the lock between them, shutdown within a tick, and monitors deleted.
- Registry reloads racing with writes, the key scanner's forgetting of logs that are gone, the HTTP, MCP and SQL layers, and every text of a log line or error.
