# The MySQL 5.0 client programs, modelled and verified

This project models the algorithmic parts of the MySQL 5.0 client programs and of
the profile analyser that comes with the dbug library, and proves what those parts
are for. Everything is stated for all inputs, all runs or all reachable states.

| part | files | main results |
|---|---|---|
| `replace_result` of mysqltest: from-strings are compiled to an automaton over bit sets, which is then run | `Replacement`, `ReplaceStates`, `ReplaceAutomaton`, `ReplacePatterns`, `ReplaceSets`, `ReplaceTransitions`, `ReplaceInit`, `ReplaceRun`, `BitSets` | running the automaton is leftmost-longest replacement if and only if no from-string denotes a text that ends in a backslash and `b` or `$`; a set of positions determines the best match, so merging sets by comparing the words of their bits is sound; the construction terminates and its hit table fits |
| the mysqltest command loop: `if`, `while` and `end` on a flat list of cached commands with a stack of blocks | `BlockMachine`, `BlockStructure`, `BlockLoop` | the loop has exactly the recursive meaning of nested programs, in both directions, whether it comes to the end or to an exit; skipped blocks nest; jumps only go back to cached `while` lines |
| the mysqldump consistency protocol | `DumpProtocol`, `DumpLimits`, `DumpOutcome` | with `--master-data`, under every interleaving with other sessions, the dump holds every table as it was at the recorded binary log position, exactly for the settings described by a simple condition on version and tables; a new log begins at that position exactly on servers from 4.1.3 on; the purge removes all older logs and never that of the position |
| the profile analyser | `CallProfile`, `CallForest`, `CallReading`, `NameTree`, `ProfileTrace`, `Profiler` | every trace, whatever enter and exit records it lacks, is that of a forest of calls; the report, which there is exactly when its functions and its height fit, lists each function of the forest with its own time and its calls; conservation of time and calls after every record |
| the batch line reader | `LineSplit`, `LineReader` | however the file is read in pieces, the lines are those that were written to it, with LF or CRLF |
| the statement splitter of mysql | `ScanLoop`, `StatementScan`, `StatementText`, `StatementOutside`, `StatementTail`, `StatementPieces`, `StatementWanted`, `StatementContent`, `StatementSplitter` | the in-place editor computes the same as a pure scan; for every line the statements run, the text pending and the end of the client are those read off the text token by token, strings kept exactly; over any lines nothing is lost, added or reordered but delimiters, comments that are not preserved, spaces, and a last backslash under an exact condition; nothing is run where the text of the line is inside a string or a comment |
| word completion | `PrefixIndex`, `CompletionTable`, `CompletionGenerator` | the chained hash of all prefixes answers like a plain list of words; the resumable generator returns each word once |
| packing rows into INSERT statements | `ExtendedInsert` | the text written is that of the statements, rows are kept in order, lengths are bounded, and no grouping has fewer statements |
| reading up to a delimiter with pushback | `DelimiterReader` | the text before the first occurrence is read, exactly for delimiters that are ASCII behind their first byte; when it dies, and on what |
| LOAD DATA files of mysqlbinlog | `LoadFiles` | exactly the statements that begin and are executed are printed, and their files have their own blocks in order at the end; one fails to begin only if all names are taken |
| quoting | `Quoting` | both versions of `field_escape` agree and their literals close where they should; a name quoted for LIKE matches only itself |

`Wrappers` holds the optional value that all parts share.

Objects that the sources update in place are classes (`RepSets`, `CommandLoop`,
`Analyzer`, `LineBuffer`, `LineEdit` and `Splitter`, `Bucket` and `Table`, `Generator`,
`Source`, `LoadProcessor`), whose methods are proved against specification functions;
the theorems are about those functions.

## Where code and promise differ

* `replace_result`: the comment above `end_of_word` (client/mysqltest.c:8536) says that it tells
  whether a from-string ends with `\b`. The code looks at the last two characters of
  the text only, so an escaped backslash followed by `b` or `$` is taken for one. After
  a match of such a string the last character is scanned again.
  `ReplaceRun.ReplacesIffNoBackslashPair` gives the exact condition and
  `ReplaceRun.EscapedBackslashExample` an input.
* `--single-transaction --master-data`: the comment at client/mysqldump.c:400-404 asks for
  server 4.1.3. `DumpLimits.ConsistentIffSafe` gives the exact condition; for 4.1.0 to
  4.1.2 `DumpLimits.CommitAfterSnapshot` is a run that goes wrong, and non-transactional
  tables are never safe with `--single-transaction`.
* `--flush-logs` with `--master-data`: the option texts (client/mysqldump.c:275-277 and
  324-325) promise the flush at the exact moment of the dump. `DumpOutcome.FlushedIffNew`
  gives the exact condition; before 4.1.3 `DumpOutcome.CommitAfterFlush` is a run in
  which a commit comes between the new log and the recorded position.
* Reading up to a delimiter: bytes from the file are compared as numbers up to 255, those
  of the delimiter and pushed back ones as signed characters. A delimiter with a byte
  from 128 on behind its first one is therefore not found.
  `DelimiterReader.FindsFirstIffPlain` and `DelimiterReader.MissesItself` say so.
* `add_line`: a backslash at the end of a line can be dropped (client/mysql.cc:2029-2030),
  as on the line of `StatementContent.BackslashLost`. `StatementTail.LineLosesIff` says
  exactly when: backslashes are escapes, an odd number of them ends the line, and the
  line does not end in a comment.

## Model

| member | source | states |
|---|---|---|
| `Replacement.BestExists` | client/mysqltest.c:8278-8305 | among all occurrences of the patterns in a text there is a preferred one: leftmost, then longest, then first listed |
| `Replacement.ResumingAtEnd` | client/mysqltest.c:7541-7553 | a scan that resumes exactly at the end of each match is plain leftmost-longest replacement |
| `ReplaceStates.StepWithoutCompletion` | client/mysqltest.c:8261-8277 | if no advanced row closes, one more character changes neither the best match nor, except by advancing, the live rows |
| `ReplaceStates.StepWithCompletion` | client/mysqltest.c:8278-8305 | if rows close, the best match is that of the first deepest one, and exactly the open rows at least as deep stay live |
| `ReplaceAutomaton.PositionsDetermineMatch` | client/mysqltest.c:8498-8514 | two texts with the same set of rows have the same best pattern, at the same distance from their ends, so sets may be merged by their bits alone |
| `ReplaceAutomaton.PositionsDetermineNext` | client/mysqltest.c:8502-8514 | where the automaton goes next depends on the set of rows and the character only |
| `ReplaceAutomaton.MatchIsFinal` | client/mysqltest.c:8306-8312 | when no row is live any more the best match stays the best match whatever text follows |
| `ReplacePatterns.ReplaceLen` | client/mysqltest.c:8065-8076 | the length of a from-string is the number of codes it denotes, an escape counting once |
| `ReplacePatterns.SpeltIsDenoted` | client/mysqltest.c:8171-8196 | however a text is written as a from-string, with backslashes where wanted and `r`, `t`, `v` for return, tab and vertical tab, what is written denotes the text |
| `ReplacePatterns.LiteralStart` | client/mysqltest.c:8538-8541 | a literal from-string is never taken for one that starts with a word boundary |
| `ReplacePatterns.LiteralEnd` | client/mysqltest.c:8543-8549 | a literal from-string is taken for one that ends with a word boundary if and only if the text it denotes ends in a backslash and `b` or `$` |
| `ReplaceSets.BuildFollow` | client/mysqltest.c:8139-8209 | every row of the follow table has the character, pattern and depth of its place, and the rows of pattern i start behind all rows of the patterns before it |
| `ReplaceSets.AppendPattern` | client/mysqltest.c:8169-8208 | the rows of one from-string, escapes decoded, and its closing row are appended to a table that stays right |
| `ReplaceSets.UsedChars` | client/mysqltest.c:8232-8240 | exactly the characters that label a row of the set that the words stand for |
| `ReplaceSets.MoveSet` | client/mysqltest.c:8254-8277 | the new words stand for exactly the rows reached by the character; the length is that of the longest pattern completed by it |
| `ReplaceSets.PruneSet` | client/mysqltest.c:8278-8305 | the words left stand for exactly the rows at least as deep as the match, of closing rows only the first, which names the match; the count is that of the rows kept |
| `ReplaceTransitions.NextWhenUnused` | client/mysqltest.c:8215-8230 | on a character that labels no row of the set or of the start the automaton reports its match, or restarts |
| `ReplaceTransitions.NextWhenMoved` | client/mysqltest.c:8254-8277 | without a completion the moved set is where the automaton goes, and it describes the text read |
| `ReplaceTransitions.NextWhenPruned` | client/mysqltest.c:8278-8315 | with a completion the automaton reports a hit if one row is left and goes to the pruned set otherwise, which describes the text read |
| `ReplaceTransitions.HitOffsetBounded` | client/mysqltest.c:8121-8122 | while the automaton runs, the best match starts less than the longest pattern before the end of the text read |
| `ReplaceInit.RepSets.constructor` | client/mysqltest.c:8118-8168 | the start sets describe the text of which nothing has been read |
| `ReplaceInit.RepSets.FindSet` | client/mysqltest.c:8502-8514 | the set with the same rows if there is one, otherwise the new set is kept; all sets stay distinct and described |
| `ReplaceInit.CompareAll` | client/mysqltest.c:8505-8512 | comparing words finds the first stored set with the same rows, if there is one |
| `ReplaceInit.RepSets.FindFound` | client/mysqltest.c:8523-8534 | the code of the given hit, which is listed once |
| `ReplaceInit.RepSets.DefaultState` | client/mysqltest.c:8215-8227 | the entry for characters that lead nowhere: the pending match, or the start set if and only if there is none |
| `ReplaceInit.RepSets.UsedEntry` | client/mysqltest.c:8254-8317 | the entry for a character that labels a row is where the automaton goes after the text and that character |
| `ReplaceInit.RepSets.CompletedEntry` | client/mysqltest.c:8278-8315 | the same when the character completes a pattern |
| `ReplaceInit.RepSets.FillRow` | client/mysqltest.c:8228-8319 | all 256 entries of a set encode where the automaton goes |
| `ReplaceInit.RepSets.GrowthUsesUnseen` | client/mysqltest.c:8502-8514 | every set that is kept uses up a set of rows not seen before, so the construction ends |
| `ReplaceInit.RepSets.FillTable` | client/mysqltest.c:8212-8320 | the construction terminates with a right row for every set; the hits are at most max_length * count |
| `ReplaceInit.FoundEntriesFit` | client/mysqltest.c:8121-8122 | distinct hits never exceed the max_length * count entries allocated for them |
| `ReplaceRun.LayOutHits` | client/mysqltest.c:8337-8347 | every hit has its replacement and the offsets back to the start and to the end of the match |
| `ReplaceRun.InitReplace` | client/mysqltest.c:8080-8362 | the result implements the automaton of the denoted texts; there is none if and only if a from-string is empty |
| `ReplaceRun.Scan` | client/mysqltest.c:7523-7524 | following the rows ends at the best match of the rest of the text, or at its end if there is no match |
| `ReplaceRun.ReplaceStringsAppend` | client/mysqltest.c:7508-7557 | appends the text with each best match replaced, resuming where the hit says |
| `ReplaceRun.ReplaceResult` | client/mysqltest.c:7470-7474 | compiling and running gives the leftmost-longest replacement of every text, unless a from-string denotes a backslash and `b` or `$` at its end |
| `ReplaceRun.ReplacesIffNoBackslashPair` | client/mysqltest.c:8344-8346 | for all replacements and texts the result is plain replacement, if and only if no pattern ends in such a pair |
| `ReplaceRun.PairIsRescanned` | client/mysqltest.c:8345-8346 | any pattern that ends in such a pair gives a longer result than promised on its own text |
| `ReplaceRun.EscapedBackslashExample` | client/mysqltest.c:8543-8549 | the from-string of two backslashes and `b` replaced in its own text leaves a `b` behind |
| `BitSets.NoneSet` | client/mysqltest.c:8390-8404 | words of zeros stand for the empty set |
| `BitSets.SetBit` | client/mysqltest.c:8441-8445 | exactly the one row joins the set that the words stand for |
| `BitSets.ClearBit` | client/mysqltest.c:8447-8451 | exactly the one row leaves it |
| `BitSets.OrBits` | client/mysqltest.c:8454-8460 | the union of the two sets |
| `BitSets.SameWordsIffSameSet` | client/mysqltest.c:8468-8472 | the words are equal if and only if the sets are, so merging by words is merging by rows |
| `BitSets.GetNextBit` | client/mysqltest.c:8477-8496 | masking, skipping empty words and shifting finds the smallest member above the given one, or 0 if there is none |
| `BitSets.ClearLowRemoves` | client/mysqltest.c:8483 | the mask removes exactly the remainder by the power of two |
| `BlockMachine.DoDoneKeepsNesting` | client/mysqltest.c:4445-4470 | an `end` keeps the nesting, and goes on behind itself or back to the cached `while` line of its block |
| `BlockMachine.DoBlockKeepsNesting` | client/mysqltest.c:4498-4562 | opening a block keeps the nesting: a frame above one that is not ok is not ok |
| `BlockMachine.StepKeepsNesting` | client/mysqltest.c:6949-7238 | every turn keeps the nesting and moves at most one line ahead; a jump back is to a cached `while` line |
| `BlockMachine.RunKeepsNesting` | client/mysqltest.c:6949-7238 | so does every run |
| `BlockStructure.SkipSegment` | client/mysqltest.c:4515-4523 | a block that is not ok is passed over, however deeply nested, without any effect |
| `BlockStructure.ExecSegment` | client/mysqltest.c:4445-4562 | a segment in a block that is ok has the effect of its recursive meaning |
| `BlockStructure.LoopRefinesMeaning` | client/mysqltest.c:6949-7238 | if the recursive meaning of a program nested up to 31 deep ends, the loop on its flat list ends in the same way; if it runs for ever, so does the loop |
| `BlockStructure.MeaningOfEndedLoop` | client/mysqltest.c:6949-7238 | conversely, a loop that ended has the recursive meaning of the program |
| `BlockStructure.BalancedIsNested` | client/mysqltest.c:4445-4562 | every balanced command list is the flat form of a nested program as deep as its levels |
| `BlockStructure.FinishedLoopIsMeaning` | client/mysqltest.c:6949-7238 | whenever the loop ends normally on any command list, the list was a nested program and the result is its meaning |
| `BlockStructure.EndsOnlyIfNestedIn` | client/mysqltest.c:140 | a program nested deeper than 31 blocks never comes to its end |
| `BlockStructure.ExitedLoopIsMeaning` | client/mysqltest.c:6949-7238 | whenever an exit was carried out on any command list, the lines read by then with their open blocks ended are a nested program whose meaning exits with the same environment; the loop stops too, or dies in a block after the last line |
| `BlockLoop.CommandLoop.ReadNext` | client/mysqltest.c:5009-5069 | the cached command, or a new one that is then cached |
| `BlockLoop.CommandLoop.EndBlock` | client/mysqltest.c:4445-4470 | pops a frame in place and goes to the line the machine goes to, or dies on an empty stack |
| `BlockLoop.CommandLoop.OpenBlock` | client/mysqltest.c:4498-4562 | pushes a frame in place as the machine does, or dies |
| `BlockLoop.CommandLoop.OneTurn` | client/mysqltest.c:6949-7238 | one turn of the loop is one step of the machine |
| `BlockLoop.CommandLoop.Turns` | client/mysqltest.c:6949-7238 | n turns are n steps of the machine, however it ends |
| `DumpProtocol.NormalizeMeaning` | client/mysqldump.c:870-882 | which option combinations are accepted, and that with --master-data or --delete-master-logs all tables are locked unless in a single transaction |
| `DumpProtocol.StatusIsCurrent` | client/mysqldump.c:3278-3310 | the position the server reports stands for the current database |
| `DumpProtocol.StepKeepsInv` | client/mysqldump.c:3941-3986 | every step of mysqldump and of any other session keeps what the dump relies on |
| `DumpProtocol.StepKeepsPurgeInv` | client/mysqldump.c:3946-3986 | every step keeps that nothing from the recorded log on is purged |
| `DumpProtocol.RunKeepsInv` | client/mysqldump.c:3941-3986 | so does every run |
| `DumpProtocol.DumpIsConsistent` | client/mysqldump.c:3941-3986 | in every run all safe tables in the dump are as they were at the recorded position, whose log is not purged |
| `DumpProtocol.DumpAndLogRecover` | client/mysqldump.c:3941-3986 | replaying the log from the recorded position on the dump gives the present contents of every safe table that has been dumped |
| `DumpLimits.ConsistentIffSafe` | client/mysqldump.c:400-404 | all runs are consistent, if and only if mysqldump refuses the server or every table is safe for its version and options |
| `DumpLimits.ChangeAfterPosition` | client/mysqldump.c:3941-3986 | for an unprotected table there is a run in which another session changes it between the position and its dump |
| `DumpLimits.CommitAfterSnapshot` | client/mysqldump.c:3378-3407 | for servers 4.1.0 to 4.1.2 there is a run in which a commit comes between snapshot and position |
| `DumpOutcome.FinishedHoldsTables` | client/mysqldump.c:3963-3975 | with any options a finished dump holds exactly the tables that were to be dumped |
| `DumpOutcome.FinishedDumpRecovers` | client/mysqldump.c:3941-3986 | from a finished dump every table is recovered: it is in the dump, and replaying the log from the recorded position gives every safe one its present contents |
| `DumpOutcome.RefusedIffTooOld` | client/mysqldump.c:3389-3399 | runs are refused exactly for a snapshot with a position on a server before 4.1.0 without --force |
| `DumpOutcome.OldLogsArePurged` | client/mysqldump.c:3946-3986 | with --delete-master-logs all logs there were at the start are gone at the end, and that of the recorded position is not; otherwise no log is |
| `DumpOutcome.FlushedIffNew` | client/mysqldump.c:3946-3961 | a new log begins at the recorded position in all runs, if and only if mysqldump refuses the server or it is at least 4.1.3 |
| `DumpOutcome.CommitAfterFlush` | client/mysqldump.c:3954-3961 | on an older server there is a run in which a commit comes between |
| `CallProfile.ExitKeepsBalance` | dbug/dbug_analyze.c:327-364 | an exit, matched or not, keeps that the total time is the bottom frame's time plus all children on the stack, and that calls plus depth are enters plus unmatched exits |
| `CallProfile.PushKeepsBalance` | dbug/dbug_analyze.c:129-147 | an enter keeps both |
| `CallProfile.CloseAllKeepsBalance` | dbug/dbug_analyze.c:402-416 | closing what is left at the end keeps the balance, and every enter and every unmatched exit is one call |
| `CallForest.ExitClosesTo` | dbug/dbug_analyze.c:331-350 | an exit closes, at its time, what is above the innermost open call of its function, and that call |
| `CallForest.ExitClosesAll` | dbug/dbug_analyze.c:336-364 | an exit without an open call of its function closes everything and is charged from the bottom frame |
| `CallForest.ForestIsFed` | dbug/dbug_analyze.c:319-350 | the trace of calls, of which some have no exit record, charges each function its own time and calls once what is open is closed |
| `CallForest.UnmatchedCharged` | dbug/dbug_analyze.c:351-364 | a function whose enter record is missing is charged since the start, without the calls made since then |
| `CallForest.TraceIsCharged` | dbug/dbug_analyze.c:319-416 | the trace of any forest is read to its end if and only if the stack has room, and with the open calls closed at the last time each function has been charged its own time and calls |
| `CallReading.EveryTraceIsOfForest` | dbug/dbug_analyze.c:319-416 | every sequence of records is the trace of such a forest |
| `ProfileTrace.ReadOneKeepsBalance` | dbug/dbug_analyze.c:319-399 | after every record of any trace time and calls are balanced |
| `ProfileTrace.ReadKeepsBalance` | dbug/dbug_analyze.c:302-400 | so they are after any trace |
| `ProfileTrace.ReadIsFeed` | dbug/dbug_analyze.c:302-400 | reading a trace and listing its names on the way is feeding its records with all names listed in advance, and fails exactly if the names or the calls do not fit |
| `ProfileTrace.ForestIsCharged` | dbug/dbug_analyze.c:302-417 | the trace of any forest of named calls is read if and only if its functions fit in the table and its height on the stack, and at its end each function is listed and charged its own time and its calls |
| `ProfileTrace.TraceHasForest` | dbug/dbug_analyze.c:302-417 | every trace file is that of a forest of named calls from time 0 to its last record |
| `NameTree.LessIff` | dbug/dbug_analyze.c:250 | names are ordered by their first difference, a prefix before what it starts |
| `NameTree.InsertOrdered` | dbug/dbug_analyze.c:250-293 | inserting a new name keeps the search tree ordered |
| `NameTree.LinkIsInsert` | dbug/dbug_analyze.c:252-288 | linking a new node in the array where the search ended stores the tree with the name inserted |
| `NameTree.InorderSorted` | dbug/dbug_analyze.c:515-538 | the in-order listing is strictly increasing |
| `Profiler.Analyzer.Add` | dbug/dbug_analyze.c:233-296 | the index of the name, which is listed if and only if it is new; it fails exactly on a full table without the name, and then changes nothing |
| `Profiler.Analyzer.Search` | dbug/dbug_analyze.c:240-296 | the search ends at the name, or links it where it belongs |
| `Profiler.Analyzer.AddBelow` | dbug/dbug_analyze.c:250-291 | the name is linked as a left or right child, everything else unchanged |
| `Profiler.Analyzer.EnterRecord` | dbug/dbug_analyze.c:321-326 | an enter record lists its name and pushes its frame; it fails exactly when a table is full |
| `Profiler.Analyzer.PopCharge` | dbug/dbug_analyze.c:336-347 | a popped frame is charged its own time, its parent gets the whole |
| `Profiler.Analyzer.CloseUntil` | dbug/dbug_analyze.c:336-364 | frames are closed down to the matching one, or the exit is charged as unmatched |
| `Profiler.Analyzer.LeaveRecord` | dbug/dbug_analyze.c:327-364 | an exit record lists its name and is its exit; it fails exactly when the name table is full |
| `Profiler.Analyzer.EndOfTrace` | dbug/dbug_analyze.c:402-416 | all open frames are closed at the last time, as the specification closes them |
| `Profiler.Analyzer.OneRecord` | dbug/dbug_analyze.c:319-399 | names, times and calls after a record are those of reading it, and it fails exactly when reading does |
| `Profiler.Analyzer.Process` | dbug/dbug_analyze.c:302-417 | after a whole trace the state is that of the trace read, with the open calls closed at the last time; it fails exactly when reading does; time and calls are balanced, and the total of calls is enters plus unmatched exits |
| `Profiler.Analyzer.OutBody` | dbug/dbug_analyze.c:515-538 | a subtree is printed in order, and the sums are those of its modules |
| `Profiler.Analyzer.Output` | dbug/dbug_analyze.c:544-560 | the report lists every name once in strictly increasing order, with column sums equal to the sums over all modules |
| `Profiler.Analyzer.Analyze` | dbug/dbug_analyze.c:609-610 | a trace read and reported: for the forest of calls behind it there is a report exactly if it has at most 10000 functions and 100 open calls, with one line for each function, giving its own time and its calls |
| `Profiler.ReportOrder` | dbug/dbug_analyze.c:515-538 | the in-order listing is a permutation of all modules, so sums over it are sums over all of them |
| `LineSplit.LineThenRest` | client/readline.cc:45-58 | the lines of a text with a first line are that line, cut, and the lines of the rest |
| `LineSplit.EitherEnd` | client/readline.cc:52-54 | a line before CRLF is read without both, a line before LF alone, not ending in a return, without that |
| `LineSplit.WrittenAreRead` | client/readline.cc:45-58 | any lines written with LF or CRLF, and a last one without an end, are read back |
| `LineSplit.ShortLinesIff` | client/readline.cc:189-215 | the lines of a text are below the limit exactly if no stretch without a newline reaches it |
| `LineReader.LineBuffer.FromFile` | client/readline.cc:90-102 | a new buffer has the whole file unread |
| `LineReader.LineBuffer.FromString` | client/readline.cc:109-127 | a buffer made from a string has the string and a newline unread |
| `LineReader.LineBuffer.AddString` | client/readline.cc:109-127 | a further string is joined to the text by a space |
| `LineReader.LineBuffer.Grow` | client/readline.cc:147-160 | the doubling ends with room for at least IO_SIZE bytes and the pending text kept |
| `LineReader.LineBuffer.ShiftDown` | client/readline.cc:162-167 | the pending text is moved to the front |
| `LineReader.LineBuffer.FillBuffer` | client/readline.cc:136-185 | what was pending is kept in front, behind it comes what was read, or the pretended newline if the last line has none |
| `LineReader.LineBuffer.InternReadLine` | client/readline.cc:189-215 | the bounds stay in order on any file; on files with short lines the next line is found, however it was read |
| `LineReader.CutDropsEnd` | client/readline.cc:49-55 | CRLF and LF are cut off a line, and nothing else |
| `LineReader.LineBuffer.CutLine` | client/readline.cc:45-58 | the line is cut in place, and what is pending stays |
| `LineReader.LineBuffer.BatchReadline` | client/readline.cc:45-58 | each call returns the first of the lines still to come, then end of input |
| `LineReader.LineBuffer.ReadAll` | client/readline.cc:45-58 | all calls together return exactly the lines of the text |
| `StatementScan.StepKeepsExclusive` | client/mysql.cc:1997-2230 | no turn leads into a string and a comment at once |
| `StatementScan.AddLineKeepsExclusive` | client/mysql.cc:1979-2242 | over any line the client is never left in a string and a comment at once |
| `StatementOutside.LineRunsOutside` | client/mysql.cc:1997-2230 | on every line each turn that runs a statement or a client command or changes the delimiter is at a place that the text of the line has in no string and no comment; what the scan leaves open at the end is what the text does |
| `StatementOutside.AddLineKeepsProper` | client/mysql.cc:1979-2242 | every line leaves the client as the theorem needs it for the next one |
| `StatementOutside.LinesRunOutside` | client/mysql.cc:1979-2242 | so it is for any number of lines |
| `StatementTail.LineLosesIff` | client/mysql.cc:2024-2036 | the scan gives up a backslash at the end of a line if and only if backslashes are escapes, an odd number of them ends the line, and the line does not end in a comment |
| `StatementPieces.LineIsCut` | client/mysql.cc:1979-2242 | for every line, with client commands and changes of the delimiter too, and every state a client can get into: what is run, what is pending, what is open and whether the client ends are what the text says token by token; a delimiter outside strings and comments runs all that is pending |
| `StatementPieces.LinesAreCut` | client/mysql.cc:1979-2242 | so it is for any number of lines |
| `StatementPieces.StretchIsVerbatim` | client/mysql.cc:2210-2229 | a stretch of ordinary tokens and closed strings becomes part of the statement exactly as it is |
| `StatementPieces.DelimiterEnds` | client/mysql.cc:2115-2156 | a delimiter outside ends the statement, which is all that was pending and, if preserved, the spaces and comment behind |
| `StatementWanted.TurnsSeeAll` | client/mysql.cc:1997-2230 | what all turns see of a line, joined, is the line as its text has it, without its comments unless those are preserved, and without its last backslash if that is given up |
| `StatementContent.StepKeepsContent` | client/mysql.cc:1997-2230 | a turn that is no client command adds to statements and buffer, spaces aside, exactly what it takes from the line: its stretch without a delimiter, and nothing of a comment unless those are preserved |
| `StatementContent.LineKeepsContent` | client/mysql.cc:1979-2242 | a line on which no client command is met adds itself, without its comments unless those are preserved, without one delimiter for each statement run, and without its last backslash exactly if that is lost |
| `StatementContent.BackslashLost` | client/mysql.cc:2029-2030 | of the line of an a and a backslash only the a is kept |
| `StatementContent.LinesKeepContent` | client/mysql.cc:1979-2242 | over any lines on which no client command is met, statements and pending buffer together are all lines so taken, in order |
| `StatementSplitter.LineEdit.Put` | client/mysql.cc:2222-2228 | a character is written behind the accepted text, before the read cursor, and what is unread stays |
| `StatementSplitter.LineEdit.CopySpaces` | client/mysql.cc:2120-2124 | spaces behind a delimiter are accepted in place |
| `StatementSplitter.Splitter.Flush` | client/mysql.cc:2126-2130 | the accepted text moves to the buffer |
| `StatementSplitter.Splitter.EscapeTurn` | client/mysql.cc:2024-2083 | a backslash is a client command or kept with its character, as the scan says |
| `StatementSplitter.Splitter.DelimiterTurn` | client/mysql.cc:2084-2114 | a delimiter line runs what is pending and changes the delimiter, as the scan says |
| `StatementSplitter.Splitter.EndTurn` | client/mysql.cc:2115-2156 | a delimiter ends a statement, as the scan says, which by `LineIsCut` is as the text says |
| `StatementSplitter.Splitter.MarkTurn` | client/mysql.cc:2174-2209 | the marks of a comment, as the scan says |
| `StatementSplitter.Splitter.AcceptTurn` | client/mysql.cc:2210-2229 | a plain character with the space owed before it: the write cursor never passes the read cursor |
| `StatementSplitter.Splitter.OneTurn` | client/mysql.cc:1997-2230 | one turn of the in-place loop is one step of the scan |
| `StatementSplitter.Splitter.Add` | client/mysql.cc:1979-2242 | the in-place edit of a line leaves the client exactly as the scan of the line does |
| `PrefixIndex.MatchesCount` | client/completion_hash.cc:220-226 | the matches of a prefix are the added words that start with it, each as often as it was added |
| `PrefixIndex.FiledIsIndexed` | client/completion_hash.cc:220-226 | filing a word under all its non-empty prefixes keeps the index exact for all words added |
| `PrefixIndex.LongestWhenFewer` | client/completion_hash.cc:188-203 | where the next byte would lose a match, the longest common prefix of the matches ends |
| `CompletionTable.HashPjw` | client/completion_hash.cc:29-41 | the hash, computed byte by byte, always below 2^28 |
| `CompletionTable.Table.Find` | client/completion_hash.cc:114-134 | the bucket of the key, or none if and only if the key was never stored |
| `CompletionTable.Table.Update` | client/completion_hash.cc:61-112 | the word is stored in front under the key, all other keys unchanged; an empty key is refused |
| `CompletionTable.Table.AddWord` | client/completion_hash.cc:220-226 | after any calls the table holds exactly the added words under their prefixes |
| `CompletionTable.Table.FindAllMatches` | client/completion_hash.cc:159-172 | exactly the added words with the prefix, and their number; nothing if there are none |
| `CompletionTable.Table.FindLongestMatch` | client/completion_hash.cc:174-203 | the bucket and length of the longest common prefix of all added words with the prefix |
| `CompletionGenerator.EmitsEachWord` | client/mysql.cc:2407-2448 | the entries whose length is that of their key, over all buckets, are each non-empty word as often as it was added |
| `CompletionGenerator.Generator.Advance` | client/mysql.cc:2429-2447 | the walk goes to the next bucket of the chain or to the next used slot |
| `CompletionGenerator.Generator.Walk` | client/mysql.cc:2423-2448 | a call returns the next word of the walk and leaves the rest to later calls |
| `CompletionGenerator.Generator.NextMatch` | client/mysql.cc:2388-2404 | a call with a text returns the next word with that prefix |
| `CompletionGenerator.Generator.Next` | client/mysql.cc:2377-2452 | a call returns the first of the words still to be returned, or nothing |
| `CompletionGenerator.Generator.Completions` | client/mysql.cc:2377-2452 | all calls together return exactly the answers to the text |
| `ExtendedInsert.WriteRows` | client/mysqldump.c:2529-2769 | the output is the text of the statements of a greedy grouping of all rows in order |
| `ExtendedInsert.WriteRow` | client/mysqldump.c:2735-2757 | a row goes on the last statement or starts a new one, and the count stays that of the last statement |
| `ExtendedInsert.WrittenAreStatements` | client/mysqldump.c:2735-2769 | what is written for a grouping is, for each group, the start, the rows with commas between, and the end |
| `ExtendedInsert.FitsByText` | client/mysqldump.c:2735-2757 | two or more rows go in one statement exactly if its length, one for each row and three stay below net_buffer_length |
| `ExtendedInsert.StatementsBelowLimit` | client/mysqldump.c:2739-2745 | every statement of two or more rows is shorter than net_buffer_length |
| `ExtendedInsert.GreedyIsLeast` | client/mysqldump.c:2735-2757 | no grouping in order under the same accounting has fewer statements |
| `DelimiterReader.Source.Getc` | client/mysqltest.c:2834-2839 | the next byte, pushed back ones first |
| `DelimiterReader.Source.Ungetc` | client/mysqltest.c:2842-2845 | the byte is the next one again |
| `DelimiterReader.Source.MatchDelimiter` | client/mysqltest.c:4586-4607 | whether all bytes compare equal; a failed match away from the end of the file leaves the stream unchanged; at most 15 bytes are pushed back |
| `DelimiterReader.Source.ReadUntilDelimiter` | client/mysqltest.c:2848-2894 | dies on a delimiter of more than 16 bytes, and on the line of the command on anything but its newline, exactly then; otherwise, for a plain delimiter, reads the text before its first occurrence or dies at the end of the file if there is none, leaves the stream behind the delimiter and counts the lines |
| `DelimiterReader.FindsFirstIffPlain` | client/mysqltest.c:2848-2894 | the text before the first occurrence is read, and the client dies if and only if there is none, on all files, if and only if the delimiter is ASCII behind its first byte |
| `DelimiterReader.MissesItself` | client/mysqltest.c:4594-4597 | any other delimiter is missed at the start of a file that holds it |
| `LoadFiles.OwnBlocks` | client/mysqlbinlog.cc:367-462 | as long as nothing begins or ends it anew, a statement collects its first block and its own further blocks in order, whatever else is in the log |
| `LoadFiles.ExecutesIffLoads` | client/mysqlbinlog.cc:598-663 | an event prints a statement exactly if the statement began before, is still pending, and the event executes it and is wanted |
| `LoadFiles.LoadIsSent` | client/mysqlbinlog.cc:367-662 | such a statement sends its first block and its own further blocks, at its place among those sent |
| `LoadFiles.LoadProcessor.CreateUniqueFile` | client/mysqlbinlog.cc:142-154 | the first of the 1000 names that no file has, or none if all are taken |
| `LoadFiles.LoadProcessor.ProcessFirst` | client/mysqlbinlog.cc:367-413 | the statement has a file of its own, under the first free name, with its first block; it fails only if all 1000 names are taken, and then nothing changes |
| `LoadFiles.LoadProcessor.ProcessAppend` | client/mysqlbinlog.cc:433-462 | the block goes to the file of its statement only; without one it is ignored |
| `LoadFiles.LoadProcessor.GrabEvent` | client/mysqlbinlog.cc:211-223 | the create event, which is then forgotten |
| `LoadFiles.LoadProcessor.GrabFname` | client/mysqlbinlog.cc:242-256 | the file name of a statement without a create event, which is then forgotten |
| `LoadFiles.LoadProcessor.ProcessExecLoad` | client/mysqlbinlog.cc:598-623 | prints the pending statement if it began with a create event, with the file that holds its data |
| `LoadFiles.LoadProcessor.ProcessExecLoadQuery` | client/mysqlbinlog.cc:641-663 | the same for one that did not; if it is ignored it is forgotten all the same |
| `LoadFiles.LoadProcessor.ProcessLog` | client/mysqlbinlog.cc:564-662 | at the end of any log exactly the statements that began and were executed are printed, in order, each with a file of its first block and its own further blocks; a statement fails to begin only if all names are taken; files that were there before are as they were |
| `Quoting.DumpFieldEscape` | client/mysqldump.c:2277-2305 | writes the quoted form of the text |
| `Quoting.ImportFieldEscape` | client/mysqlimport.c:483-504 | appends the same form, without the outer quotes |
| `Quoting.AddLoadOption` | client/mysqlimport.c:457-473 | the same literal in quotes, hexadecimal constants as they are |
| `Quoting.EscapedCloses` | client/mysqldump.c:2270-2275 | for every text the literal closes exactly at its last quote and means the text with its escapes |
| `Quoting.WrittenAsIs` | client/mysqldump.c:2270-2305 | the text is written as it is, with one more backslash behind an odd number at its end and every quote without a backslash doubled |
| `Quoting.QuoteForLike` | client/mysqldump.c:1260-1279 | writes the name with its characters escaped |
| `Quoting.QuotedMatchesOnly` | client/mysqldump.c:1238-1259 | read as a literal and then used as a pattern it matches the name and no other text |
| `Quoting.LikeQuotedAsIs` | client/mysqldump.c:1260-1279 | a name without backslash, quote, underscore and percent sign is written as it is |

## Left out

- Patterns with `\b`, `\^` and `\$` in `replace_result`, and `replace_regex`: only literal from-strings are modelled.
- The 16-bit size of `next` entries and the pooled memory of sets: the words of a set are a sequence, and entries are integers.
- The text of `replace_result` arguments: from- and to-strings are given.
- `source`, `disable_parsing` and the other commands of mysqltest: what a command and a condition do is a parameter; the command list does not change.
- Server behaviour: the global read lock blocks writes (and, from 4.1.3 on, commits), a consistent snapshot is fixed when it is started, and one status query is atomic; this is assumed, not derived.
- Statements of mysqldump that fail midway, `--lock-tables` without master data, and the text of the dump.
- Unsigned wrap-around of times and counters in the profile analyser, its `S` records and the layout of the report.
- NUL bytes in files and lines longer than the limit in the line reader: there only the bounds are proved.
- Read errors, failed allocations and failed writes, except where a program reports them as a full table or a name that cannot be made.
- LineLosesIff: not for lines with a client command or a change of the delimiter, whose effects are parameters, nor, where comments are not preserved, for a delimiter that starts with a space.
- LineKeepsContent: where comments are not preserved, not for a delimiter that starts with a space, since leading spaces are then skipped before delimiters are looked for.
- LinesKeepContent: the same.
- Multi-byte characters in `add_line`, and what client commands and the server do with a statement: those are parameters.
- Entry lists of the completion table are sequences: entries never change once linked, only their bucket does.
- `completion_hash_exists`, which compares with the first word of a bucket only, and clearing the table.
- Pushed back bytes once the end of the file was met: the client dies before it uses them.
- Platforms where `char` is unsigned: in `DelimiterReader` every delimiter would compare as an ASCII one does here, and in `CompletionTable` the hash would not extend the sign of a byte.
- The names of temporary files in mysqlbinlog and the change of backslashes in them: candidate names are a parameter.
- The server's collation in LIKE: characters are compared for equality.
- The remaining client programs, option tables, connections, terminals and output formats: they would add easy members only.
