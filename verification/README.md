# Models of the MySQL client tools

Dafny models of the algorithmic parts of the MySQL command-line clients, with proofs of what they promise. Code that
changes buffers, lists and flags step by step is modelled by classes, arrays and loops and proved against functions on
values; the theorems about whole runs are lemmas about those functions. `dafny verify dfyconfig.toml` checks everything.

| file | models |
|---|---|
| `DeferredKeys.dfy`, `KeyText.dfy`, `KeyLines.dfy`, `KeyTextEditor.dfy`, `KeyDump.dfy`, `MovedKeys.dfy`, `AutoincKeys.dfy` | mysqldump moving secondary keys out of CREATE TABLE: the decision on definitions, the parsing of one line and how the server's lines are read, the editing of the text in place, the two statements written, which lines are moved, the key on the AUTO_INCREMENT column |
| `InsertBatcher.dfy`, `FieldEscape.dfy` | mysqldump packing rows into extended INSERTs; quoting of field terminators in mysqldump and mysqlimport |
| `Binlog.dfy`, `BinlogDumper.dfy` | mysqlbinlog's event loop, as functions on states and as the program's own statements |
| `BinlogOutput.dfy`, `BinlogSelection.dfy`, `BufferedVars.dfy`, `LoadFiles.dfy`, `GtidFiltering.dfy`, `GtidGroups.dfy`, `GtidHistory.dfy`, `GtidReplay.dfy` | what a whole run of that loop selects and prints, and what it does with user variables, LOAD DATA files and GTID groups |
| `LineReader.dfy` | the growing, shifting line buffer of the batch client |
| `StatementSplitter.dfy`, `LineSplitter.dfy` | `add_line`: the steps of the splitter, and the rewriting of a line in its own buffer |
| `SplitterMeaning.dfy`, `SentStatements.dfy`, `SplitterComments.dfy`, `SplitterCuts.dfy`, `DelimiterLines.dfy`, `SessionEnds.dfy`, `BatchClient.dfy` | what the splitter does to any text, to statements, to comments, to lines that come in parts and to DELIMITER commands, and how a session ends; the batch client from bytes to statements |
| `CompletionIndex.dfy`, `CompletionTraversal.dfy` | the prefix index of tab completion and its resumable traversal |
| `ImportThrottle.dfy` | mysqlimport's threads, mutex, condition variable and counter, as interleaved steps |
| `LoginText.dfy`, `LoginEdits.dfy`, `LoginFile.dfy`, `LoginCommands.dfy`, `LoginMap.dfy` | mysql_config_editor: the text of the login file, its edits, the buffer they work on, the commands, the ordered map they implement |
| `Text.dfy`, `Memory.dfy` | shared vocabulary; C memory operations |

What comes from outside is a parameter or a free choice: each `read` may return any non-empty part of what is asked for or
fail; the hash function of the completion index is arbitrary; thread creation, connections and loads may fail at any time;
the order of threads is arbitrary; the server's verdict on a statement and the character classes are functions in the
splitter's configuration; the parsed fields of a binary log event and the membership
of GTIDs in the include and exclude sets are fields and options of the model.

Assumed about inputs, as the programs do: CREATE TABLE text comes in the shape the server writes it (a header line, one
definition per line, the first one a column, a line that starts with a closing parenthesis, and after a table of one
column no later line that starts like a key); characters are single bytes;
the batch client runs in binary mode; names in the login file contain neither `]` nor line breaks, values no line breaks.

Where code and comments differ, the code is followed. In particular:

- mysqldump means to leave a key on the AUTO_INCREMENT column in the CREATE TABLE, without which the server refuses it. It
  does so under three provisos (`AutoincKeys.WrittenAutoincKeyStays`), and a table can lose its key without each of them:
  the loop that reads the column's name ends too early when a back-quote in the name is followed by another character
  (`AnnouncedIsName`, `InnerQuoteLosesKey`, both equivalences); the word AUTO_INCREMENT is taken anywhere in a column's line,
  so a later column with the word in its comment takes the first one's place (`RemarkLosesKey`); and the leading column of
  a key is compared only as a prefix (`PrefixColumnLosesKey`). `KeyDump.WrittenKeyOnIff` says exactly when a key remains.
- The COMMIT that mysqlbinlog adds for a statement dropped by `--database` does not mark GTID_NEXT as used. After such a log
  the session is not set back to AUTOMATIC (`GtidReplay.LeavesAutomatic`, an equivalence; `GtidReplay.StaysExplicit`, a log).
  In a relay log a format description of the source server may follow; mysqlbinlog then opens a second transaction under the
  same GTID. `GtidReplay.CompleteReplayBreaksIff` says that the output breaks a replaying session exactly there,
  `GtidReplay.RelayLogBreaks` shows a log.
- A group cut off by a server start is rolled back, but what `--database` dropped of it can still call for a COMMIT behind
  the ROLLBACK. `GtidHistory.ReplayBreaksWhere` gives the exact condition for all logs, `GtidReplay.GivenUpGroupBreaks` a log.

## Model

| member | source | states |
|---|---|---|
| DeferredKeys.DefinitionsConserved | client/mysqldump.c:2792-2961 | kept plus skipped definitions are the table's definitions, as multisets |
| DeferredKeys.ScanConserves | client/mysqldump.c:2808-2958 | the same after every number of lines |
| DeferredKeys.PkDoneMeans | client/mysqldump.c:2927-2929 | the flag is set iff a PRIMARY key, or a UNIQUE one standing in for it, came before |
| DeferredKeys.AutoincMeans | client/mysqldump.c:2914-2950 | the remembered AUTO_INCREMENT column is the last one announced that no key has led with since |
| DeferredKeys.DeferralIsClosedForm | client/mysqldump.c:2871-2877 | the streaming flags defer a line iff a closed condition on the whole table says so |
| DeferredKeys.SkippedIsDeferred | client/mysqldump.c:2808-2958 | the list of skipped keys at every point, in closed form, put-back keys removed |
| DeferredKeys.MovedKeysKeepOrder | client/mysqldump.c:4185-4210 | reversed before writing, the list holds the deferred keys in table order |
| DeferredKeys.KeptIsClosedForm | client/mysqldump.c:2808-2958 | the reduced table in closed form: a key put back stands directly before the constraint of its name |
| DeferredKeys.StaysIff | client/mysqldump.c:2808-2958 | a definition is in the reduced table iff it is not deferred at the end |
| DeferredKeys.KeyOnStaysIff | client/mysqldump.c:2871-2950 | the reduced table has a key on a column iff some key on it is the primary key or stands in for it, is the first one matching its AUTO_INCREMENT column, or is named by a later constraint |
| DeferredKeys.AutoincKeyStays | client/mysqldump.c:2871-2950 | a key on the column a definition announces as AUTO_INCREMENT stays, if no later definition announces another one and no key leads with a proper prefix of it |
| KeyText.ParseQuotedIdentifier | client/mysqldump.c:2653-2684 | finds the span from the first back-quote to its closing one, doubled back-quotes skipped |
| KeyText.QuotedNameIsRead | client/mysqldump.c:2653-2684 | parsing undoes quoting, for every identifier |
| KeyText.ContainsAutoincColumn | client/mysqldump.c:2693-2734 | true iff the key's leading column is a prefix of the remembered column |
| KeyText.ClassifyCoherent | client/mysqldump.c:2823-2950 | a line is a key, a constraint or a column, never two of them |
| KeyText.ClassifyComma | client/mysqldump.c:2879-2885 | a trailing comma does not change how a line is read |
| KeyText.ClassifyBlank | client/mysqldump.c:2879-2895 | nor does a trailing blank, unless the line is a bare keyword |
| KeyLines.KeyLineIsRead | client/mysqldump.c:2864-2865 | a line KEY `n` (`c`… is read as a key n on c that is not unique, for all identifiers |
| KeyLines.UniqueLineIsRead | client/mysqldump.c:2862-2863 | a line UNIQUE KEY `n` (`c`… is read as a unique key n on c |
| KeyLines.PrimaryLineIsRead | client/mysqldump.c:2866-2867 | a line PRIMARY KEY (`c`… is read as the primary key on c |
| KeyLines.ConstraintLineIsRead | client/mysqldump.c:2823-2833 | a line CONSTRAINT `n` … is read as a constraint n and no key |
| KeyTextEditor.KeyScanner.FindMatchingSkippedKey | client/mysqldump.c:2742-2771 | the first skipped key of that name, or none |
| KeyTextEditor.KeyScanner.NextLine | client/mysqldump.c:2812-2821 | skips blanks and stops at the end of the line or of the text |
| KeyTextEditor.KeyScanner.Restore | client/mysqldump.c:2835-2858 | the key's line is inserted before the constraint, the rest of the text moved up, nothing else changed |
| KeyTextEditor.KeyScanner.Defer | client/mysqldump.c:2879-2895 | the line leaves the text, its definition without comma joins the list, the comma before it becomes a blank |
| KeyTextEditor.KeyScanner.Keep | client/mysqldump.c:2899-2956 | the line stays and the comma before it is restored, unless the line closes the table |
| KeyTextEditor.KeyScanner.PutBack | client/mysqldump.c:2823-2956 | key and constraint stand one after the other, the comma before them restored |
| KeyTextEditor.KeyScanner.Decide | client/mysqldump.c:2823-2877 | what happens to a line, as the decision on definitions says |
| KeyTextEditor.KeyScanner.ProcessLine | client/mysqldump.c:2808-2958 | the whole effect of one line on text, list and flags |
| KeyTextEditor.KeyScanner.SkipSecondaryKeys | client/mysqldump.c:2792-2961 | the buffer ends as the reduced text, the list as the deferred keys; no character beyond the original text is written |
| KeyTextEditor.KeyScanner.DumpSkippedKeys | client/mysqldump.c:4185-4210 | ALTER TABLE, the list reversed with ADD before each key and commas between them, and an empty list |
| KeyTextEditor.KeyScanner.ReverseList | client/mysqldump.c:4195 | the list reversed |
| KeyDump.DumpTable | client/mysqldump.c:2792-2961 | from the buffer to both statements; what lies beyond the text is untouched |
| KeyDump.FullTextIs | client/mysqldump.c:2808-2821 | the text of a table, spelled out |
| KeyDump.NothingIsLost | client/mysqldump.c:2792-2961 | the definitions in CREATE TABLE and those in ALTER TABLE are, text by text, those of the table |
| KeyDump.AddedInTableOrder | client/mysqldump.c:4185-4210 | ALTER TABLE adds the moved keys in table order |
| KeyDump.WrittenKeyOnIff | client/mysqldump.c:2871-2950 | the lines of the CREATE TABLE written, read again, have a key on a column iff one of the table's keys on it is safe: primary or standing in for it, first to match its AUTO_INCREMENT column, or named by a later constraint |
| KeyDump.ReducedIsTable | client/mysqldump.c:2792-2961 | the reduced text is again a header, a comma-separated list and the same tail, up to one blank |
| MovedKeys.MovedIff | client/mysqldump.c:2792-2961 | a line is in the ALTER TABLE iff its definition is deferred at the end, and in the CREATE TABLE iff not |
| MovedKeys.KeyMoves | client/mysqldump.c:2871-2877 | a KEY line is moved iff it is not the first on the AUTO_INCREMENT column and no constraint below has its name |
| MovedKeys.UniqueMoves | client/mysqldump.c:2871-2877 | a UNIQUE KEY line is moved iff, besides, it does not stand in for the primary key |
| MovedKeys.UniqueMovesBehindPrimary | client/mysqldump.c:2871-2929 | behind the PRIMARY KEY line it is moved under the first two conditions alone |
| MovedKeys.PrimaryStays | client/mysqldump.c:2871-2877 | PRIMARY KEY and CONSTRAINT lines are never moved |
| MovedKeys.ConstraintKeepsKey | client/mysqldump.c:2823-2858 | a key whose name a CONSTRAINT line below has is never moved |
| AutoincKeys.AnnouncedIsName | client/mysqldump.c:2931-2950 | the AUTO_INCREMENT column is taken by its quoted name iff none of the name's back-quotes is followed by another character |
| AutoincKeys.WrittenAutoincKeyStays | client/mysqldump.c:2871-2950 | a table with a key on its AUTO_INCREMENT column is written with one, if no back-quote of the column's name is followed by another character, no later column's line has the word AUTO_INCREMENT, and no later key leads with a proper prefix of the column |
| AutoincKeys.InnerQuoteLosesKey | client/mysqldump.c:2938-2941 | the table of one AUTO_INCREMENT column and a key on it is written without the key iff the first proviso fails |
| AutoincKeys.RemarkLosesKey | client/mysqldump.c:2931 | the second proviso is needed: for all columns c and x, c no prefix of x, a remark on x costs c its key |
| AutoincKeys.PrefixColumnLosesKey | client/mysqldump.c:2720 | the third proviso is needed: for every proper prefix p of a column c, a key on p before the one on c costs c its key |
| InsertBatcher.DumpRows | client/mysqldump.c:4632-4666 | the output is the text of the packed statements, and the packing is a split of the rows in order under the length rule |
| InsertBatcher.StatementsSpelledOut | client/mysqldump.c:4640-4666 | a statement is the pattern, its rows with commas between them and the terminator, and the output is one behind the other |
| InsertBatcher.StatementIsShort | client/mysqldump.c:4632-4654 | a statement of two or more rows has fewer bytes than the network buffer, terminator included |
| InsertBatcher.AccountedIs | client/mysqldump.c:4632-4654 | the accounted length is the statement's bytes, one more for each row and three more |
| InsertBatcher.StatementIsFull | client/mysqldump.c:4632-4654 | a new statement is begun only when its first row would have brought the one before to the limit |
| InsertBatcher.PackedIsMinimal | client/mysqldump.c:4632-4654 | no split of the rows in order under the same rule has fewer statements |
| InsertBatcher.PackedIsAhead | client/mysqldump.c:4632-4654 | with as many statements, the last one of the packing is the shortest |
| FieldEscape.EscapeAppending | client/mysqldump.c:4108-4136 | quote, escaped body, quote, appended |
| FieldEscape.EscapeInto | client/mysqlimport.c:565-586 | the same body, written in place within twice the input's length, nothing else changed |
| FieldEscape.BodyLength | client/mysqlimport.c:565-586 | the body has at least the input's and at most twice its length |
| FieldEscape.LiteralIsRead | client/mysqldump.c:4108-4136 | a lexer with backslashes and doubled quotes reads the result as one literal, up to the last quote, with the user's meaning |
| BinlogDumper.Dumper.ShallSkipGtids | client/mysqlbinlog.cc:787-874 | verdict and flag of the GTID filter for one event |
| BinlogDumper.Dumper.FlushBuffered | client/mysqlbinlog.cc:966-1010 | waiting events are printed, or not, and freed once, front to back |
| BinlogDumper.Dumper.ProcessQuery | client/mysqlbinlog.cc:960-1037 | flags, output and queue after a query |
| BinlogDumper.Dumper.CreateUniqueFile | client/mysqlbinlog.cc:293-305 | the first free version below 1000, or none |
| BinlogDumper.Dumper.ProcessFirstEvent | client/mysqlbinlog.cc:534-600 | a new file with the first block, registered for the id |
| BinlogDumper.Dumper.ProcessAppend | client/mysqlbinlog.cc:662-700 | the block goes behind the id's file, if one is registered |
| BinlogDumper.Dumper.GrabFile | client/mysqlbinlog.cc:360-402 | takes the id's file out of the table, by kind of event |
| BinlogDumper.Dumper.ProcessLoad | client/mysqlbinlog.cc:1067-1156 | files, flags and output of a LOAD DATA event |
| BinlogDumper.Dumper.PrintFormatDescription | sql/log_event.cc:5178-5232 | the tokens and flags printing a format description leaves |
| BinlogDumper.Dumper.ProcessFormatDescription | client/mysqlbinlog.cc:1157-1248 | also the server id and the refusal of a log in use |
| BinlogDumper.Dumper.ProcessRows | client/mysqlbinlog.cc:1292-1443 | table maps and row events, skipped by database |
| BinlogDumper.Dumper.ProcessBoundary | client/mysqlbinlog.cc:1444-1512 | GTID, XID and ROTATE events |
| BinlogDumper.Dumper.ProcessEvent | client/mysqlbinlog.cc:896-1550 | the whole state after one event is that of the state function |
| BinlogDumper.Dumper.DumpEvents | client/mysqlbinlog.cc:2194-2226 | the loop over the events is the run of the state function |
| BinlogDumper.Dumper.Finish | client/mysqlbinlog.cc:2246-2259 | the closing statements: a COMMIT for events skipped in a transaction, AUTOMATIC if GTID_NEXT may be explicit; the flags follow |
| BinlogDumper.Dumper.DumpLogs | client/mysqlbinlog.cc:2194-2264 | the whole state after the run over all events and the closing statements, the status, and the warning iff events are left over |
| BinlogDumper.Dumper.Cleanup | client/mysqlbinlog.cc:1855-1874 | the events left over are freed once |
| BinlogDumper.StoppedEarly | client/mysqlbinlog.cc:2212-2226 | events after the one that stops the run change nothing |
| BinlogOutput.EverythingIsShown | client/mysqlbinlog.cc:896-1550 | over every run without an error the events printed, of all kinds, are those that reach the switch and are not of another database, in order and once each, and the GTIDs set are theirs, in order |
| BinlogOutput.EndsInErrorIff | client/mysqlbinlog.cc:1157-1443 | an event ends the run in an error iff it is a format description of a log in use, a row event without a format description, or the first event of a load with no free file name |
| BinlogSelection.GateMeans | client/mysqlbinlog.cc:896-958 | what --offset, --start-datetime, --server-id and the stop options do to each event, said of the log |
| BinlogSelection.SelectedByOptions | client/mysqlbinlog.cc:896-958 | without GTID options an event reaches the switch iff the run has come to its range, the event is of the server asked for, and no stop option ends the run |
| BinlogSelection.NothingIsLeftOut | client/mysqlbinlog.cc:896-958 | without any such option every event does |
| BinlogSelection.IncludeMeans | client/mysqlbinlog.cc:787-874 | with --include-gtids alone exactly the groups with a GTID in the set |
| BinlogSelection.ExcludeMeans | client/mysqlbinlog.cc:787-874 | with --exclude-gtids alone exactly those without |
| BinlogSelection.SkipGtidsMeans | client/mysqlbinlog.cc:787-874 | with --skip-gtids no GTID is set |
| BufferedVars.SettledThenWaiting | client/mysqlbinlog.cc:1039-1064 | every Intvar, Rand or User_var event is settled by a query or still waits, once and in order |
| BufferedVars.RunBookkeeps | client/mysqlbinlog.cc:896-1550 | the queue, the freed events and the output agree with the history along every run |
| BufferedVars.EveryVarIsSettledOnce | client/mysqlbinlog.cc:966-1010 | freed and queued events are all such events in order; each is printed just before the query it waited for, or dropped with it |
| BufferedVars.DumpAndCleanUp | client/mysqlbinlog.cc:3289-3316 | over the whole program every Intvar, Rand or User_var event that is handled is freed exactly once and in order, none waits at the end, and the warning comes iff some waited |
| BufferedVars.PrintedTogether | client/mysqlbinlog.cc:966-1010 | a printed query follows its events without anything between |
| LoadFiles.CollectingMeans | client/mysqlbinlog.cc:534-700 | what is collected for an id is its latest first block and all blocks appended since |
| LoadFiles.RunAgrees | client/mysqlbinlog.cc:534-700 | table and disk agree with the history for every id; earlier files are left alone |
| LoadFiles.TakenFileHoldsItsBlocks | client/mysqlbinlog.cc:360-402 | a taken file holds exactly these blocks, in order, and is a file of this run |
| LoadFiles.LoadNamesItsFile | client/mysqlbinlog.cc:1250-1291 | an execute event adds one LOAD DATA statement iff a first event of its format is open and --database does not drop it; it names a file of this run that holds exactly the blocks of that load, in order |
| LoadFiles.StrayAppendIgnored | client/mysqlbinlog.cc:662-700 | an append without a registered file changes nothing |
| GtidFiltering.FlagMeans | client/mysqlbinlog.cc:787-874 | the flag is set iff the open group's GTID fails include or exclude |
| GtidFiltering.DropsWithItsGroup | client/mysqlbinlog.cc:787-874 | an event in a group is dropped iff the group's GTID fails, whatever control events fall in between |
| GtidFiltering.FilterDecidesByGroup | client/mysqlbinlog.cc:787-874 | for well-grouped logs, the verdict on every event is the group's; control events always pass |
| GtidFiltering.RunFlag | client/mysqlbinlog.cc:896-958 | along a run, whatever the stop options, the state's flag is the filter's |
| GtidFiltering.AcceptedByGroup | client/mysqlbinlog.cc:896-958 | an event reaches the switch iff its group passes and no stop option ends the run there |
| GtidGroups.ProcessInStep | client/mysqlbinlog.cc:960-1512 | one event keeps the log's phase, the state and the replaying session in step, unless it breaks the session |
| GtidGroups.RunInStep | client/mysqlbinlog.cc:896-1550 | so does every run over a log of GTID groups, complete or given up, with format descriptions of any servers |
| GtidGroups.ReplayBreaksIff | client/mysqlbinlog.cc:2246-2259 | the whole output, closing statements included, uses a GTID twice, skips one, or writes rows or AUTOMATIC at the wrong place iff an event of the log the run gets to, or its end, meets a condition on the log before it |
| GtidGroups.EndsExplicitIff | client/mysqlbinlog.cc:2246-2259 | GTID_NEXT is explicit at the end iff the log's last GTID is not known to have been used |
| GtidGroups.ExactlyOneTerminator | client/mysqlbinlog.cc:1444-1512 | between two SET GTID_NEXT exactly one token ends a transaction |
| GtidGroups.RunMirrorsNext | client/mysqlbinlog.cc:1444-1458 | the flag says whether the session's GTID_NEXT is explicit |
| GtidHistory.ReplayBreaksWhere | client/mysqlbinlog.cc:2246-2259 | the same in closed form, from the events alone: a COMMIT for a group given up of which --database dropped an event, or BEGIN and ROLLBACK where a passed GTID has been used though nothing shows it |
| GtidHistory.EndsExplicitWhere | client/mysqlbinlog.cc:2246-2259 | GTID_NEXT is explicit at the end iff a GTID passed and no later event shows it to be used |
| GtidHistory.SetsBackIff | client/mysqlbinlog.cc:1470-1508 | where SET GTID_NEXT = AUTOMATIC is written: a real rotation iff GTID_NEXT is explicit and used and no transaction is open; a format description iff it is explicit and a server started or it is used |
| GtidHistory.RotationForgets | client/mysqlbinlog.cc:1492-1506 | a rotation that sets GTID_NEXT back leaves the flags as before any GTID |
| GtidHistory.PlainLogsStayPlain | client/mysqlbinlog.cc:960-1512 | while no GTID reaches the switch nothing is written on account of GTIDs: no SET GTID_NEXT, no COMMIT and no BEGIN of its own |
| GtidReplay.CompleteReplayBreaksIff | client/mysqlbinlog.cc:1195-1223 | for complete groups the output breaks the session iff a format description of another server follows a group dropped by --database |
| GtidReplay.ReplayIsSound | client/mysqlbinlog.cc:2246-2259 | without --database, or with one server, complete groups never break it |
| GtidReplay.LeavesAutomatic | client/mysqlbinlog.cc:2246-2259 | after a log of complete groups GTID_NEXT is explicit iff the last group was a dropped statement |
| GtidReplay.StaysExplicit | client/mysqlbinlog.cc:2246-2259 | a log after which it is |
| GtidReplay.RelayLogBreaks | client/mysqlbinlog.cc:1195-1223 | a relay log of complete groups, with the source connected twice, whose output breaks the session |
| GtidReplay.GivenUpGroupBreaks | client/mysqlbinlog.cc:1195-1223 | a relay log with a group given up whose output breaks it |
| LineReader.PieceUnique | client/readline.cc:240-280 | the pieces of a stream are determined by its line breaks |
| LineReader.PiecesRejoin | client/readline.cc:57-92 | the pieces, each with a line break, are the stream again |
| LineReader.LineBuffer.constructor | client/readline.cc:125-136 | an empty buffer before the whole file |
| LineReader.LineBuffer.InitFromString | client/readline.cc:143-161 | the strings so far joined by blanks, and a line break |
| LineReader.LineBuffer.Grow | client/readline.cc:178-204 | room for a block, the unfinished line kept, or a refusal at the size limit |
| LineReader.LineBuffer.ShiftDown | client/readline.cc:206-211 | the unfinished line at the front |
| LineReader.LineBuffer.ReadMore | client/readline.cc:213-236 | new bytes behind it; at the end of the file a missing line break is added |
| LineReader.LineBuffer.FillBuffer | client/readline.cc:170-237 | one of these, an error, or no change |
| LineReader.LineBuffer.InternReadLine | client/readline.cc:240-280 | the next raw line, truncated only at the size limit; nothing iff nothing is pending |
| LineReader.LineBuffer.BatchReadline | client/readline.cc:57-92 | the next piece of what is pending, a part of it at the limit; outside binary mode without a carriage return |
| LineReader.ReadAll | client/readline.cc:57-280 | for every pattern of short reads the results cover the stream; if all pieces are short they are exactly its pieces |
| Text.SpaceTable | client/mysql.cc:2412 | white space is the blank and the characters from 9 to 13 |
| StatementSplitter.RemoveCntrl | client/mysql.cc:5210-5217 | the text up to and with its last graphic character |
| StatementSplitter.StepProgress | client/mysql.cc:2406-2633 | every step consumes a character |
| LineSplitter.GetArg | client/mysql.cc:4703-4749 | the loops find the first argument: quotes, escapes, the end at a blank |
| LineSplitter.ComDelimiter | client/mysql.cc:4502-4524 | the delimiter a command names, cut to its size, or none |
| LineSplitter.Splitter.ComGo | client/mysql.cc:3404-3446 | the buffer is sent, cut behind its last graphic character, unless nothing is left |
| LineSplitter.Splitter.StepTake | client/mysql.cc:2613-2632 | an ordinary character: quotes, server comments, the pending blank |
| LineSplitter.Splitter.StepComment | client/mysql.cc:2577-2612 | a comment opens or closes |
| LineSplitter.Splitter.StepLineComment | client/mysql.cc:2537-2576 | a comment to the end of the line |
| LineSplitter.Splitter.StepBackslash | client/mysql.cc:2434-2494 | a backslash: escape in a string, command outside |
| LineSplitter.Splitter.StepDelimiter | client/mysql.cc:2495-2536 | the delimiter sends the statement or runs the DELIMITER command |
| LineSplitter.Splitter.StepLine | client/mysql.cc:2406-2633 | one iteration equals one step of the function, and the written length plus a pending blank stays within the characters consumed |
| LineSplitter.Splitter.AddLine | client/mysql.cc:2388-2659 | the whole line, rewritten in its own buffer, including the final line break |
| SplitterMeaning.StepIsFlat | client/mysql.cc:2406-2633 | a step on a line is one step of a reader without lines, with comments preserved or not |
| SplitterMeaning.BreakIsFlat | client/mysql.cc:2634-2659 | the end of a line is one more character |
| SplitterMeaning.InLine | client/mysql.cc:2388-2659 | from anywhere in a line on, in a statement, a string or a comment, both readers end in the same place |
| SplitterMeaning.LinesDoNotMatter | client/mysql.cc:2388-2659 | a text with strings, comments and server comments sends, and leaves in the buffer, what reading it character by character does |
| SentStatements.StatementIsRead | client/mysql.cc:2495-2536 | a statement and its delimiter send that statement and nothing else |
| SentStatements.StatementsAreSent | client/mysql.cc:2388-2659 | clean statements, each with the delimiter, are sent one by one and in order, each without leading blanks and cut behind its last graphic character, nothing left over, with comments preserved or not |
| SentStatements.UpToLeadingBlanks | client/mysql.cc:2409-2415 | what is dropped in front of a statement is blanks, and all of them unless comments are preserved |
| SplitterComments.BlockCommentVanishes | client/mysql.cc:2577-2612 | a block comment anywhere in a text, over any number of lines, leaves only the pending blank in what is sent |
| SplitterComments.LineCommentVanishes | client/mysql.cc:2537-2576 | a comment to the end of a line anywhere in a text leaves nothing |
| SplitterComments.CommentMeansBlank | client/mysql.cc:2577-2632 | inside a statement u + comment + v sends what u + blank + v sends, when u is read the same in both |
| SplitterComments.CommentIsOneBlank | client/mysql.cc:2613-2632 | inside a statement the pending blank means what a written blank means, or nothing in front of a blank |
| SplitterCuts.CutChangesNothing | client/mysql.cc:2388-2404 | a line that comes in parts sends what the whole line does, if the first part is read the same without what follows and ends neither in a server comment nor directly behind a comment |
| DelimiterLines.DelimiterIsNamed | client/mysql.cc:4502-4524 | a line DELIMITER d names d |
| DelimiterLines.DelimiterThenStatements | client/mysql.cc:2189-2205 | after that line the statements that follow are cut at d and sent one by one |
| DelimiterLines.QuotedDelimiterIsNamed | client/mysql.cc:4703-4749 | in quotes the delimiter may hold blanks and other quotes |
| SessionEnds.CharsetCommand | client/mysql.cc:2434-2494 | the \\C command is taken with its line, the statement stays, reading goes on behind the next delimiter |
| SessionEnds.UnknownCommand | client/mysql.cc:2434-2494 | an unknown command ends a batch session with nothing sent; otherwise it stays in the statement |
| SessionEnds.NothingAfterTheEnd | client/mysql.cc:2079-2217 | for every text, after something whose answer ends the session nothing more is sent, and the session ends for no other reason but an unknown command in batch mode |
| BatchClient.ReadAndExecute | client/mysql.cc:2079-2217 | for every stream and every pattern of short reads the reader's results cover the stream and are taken one by one, parts of long lines included; when all lines fit, what is sent is a function of the stream's bytes |
| BatchClient.Feed | client/mysql.cc:2189-2205 | one line or part of a line: a DELIMITER command, or `add_line` |
| BatchClient.SendRest | client/mysql.cc:2208-2217 | the last statement needs no delimiter |
| BatchClient.MarkIsSkipped | client/mysql.cc:2112-2126 | a byte order mark in front of the file changes nothing |
| BatchClient.SessionSendsStatements | client/mysql.cc:2079-2217 | a file of clean statements sends exactly them |
| CompletionIndex.HashTable.constructor | client/completion_hash.cc:43-58 | an empty index |
| CompletionIndex.HashTable.Search | client/completion_hash.cc:111-133 | the key's bucket in its chain, for any hash collisions, or none |
| CompletionIndex.HashTable.Update | client/completion_hash.cc:61-109 | one more entry, first in the key's bucket; all other keys unchanged; an empty key is refused |
| CompletionIndex.HashTable.AddWord | client/completion_hash.cc:219-225 | the index agrees with the list of words, the new one first |
| CompletionIndex.HashTable.FindAllMatches | client/completion_hash.cc:158-171 | the added words with that prefix, with multiplicity, newest first, and their number |
| CompletionIndex.HashTable.FindLongestMatch | client/completion_hash.cc:173-202 | exactly the longest prefix common to all of them |
| CompletionIndex.SharedIff | client/completion_hash.cc:191-198 | the words share a longer prefix iff its bucket holds as many |
| CompletionIndex.MatchesNarrow | client/completion_hash.cc:191-198 | a longer prefix selects fewer words, or the same |
| CompletionTraversal.Generator.FindChain | client/mysql.cc:2851-2861 | the first used chain from a position on |
| CompletionTraversal.Generator.Advance | client/mysql.cc:2867-2887 | to the next entry, the cursors' measure lowered |
| CompletionTraversal.Generator.NextWord | client/mysql.cc:2862-2891 | the next whole word of what is left |
| CompletionTraversal.Generator.Next | client/mysql.cc:2816-2892 | one call returns the first of what is left and leaves the rest |
| CompletionTraversal.Completions | client/mysql.cc:2804-2814 | the calls together yield all words of a prefix, newest first, or the whole traversal, and then nothing |
| CompletionTraversal.TraversalYieldsEveryWord | client/mysql.cc:2846-2891 | the traversal yields every word as often as it was added |
| ImportThrottle.InitialInv | client/mysqlimport.c:660-677 | the invariant holds at the start |
| ImportThrottle.StepKeepsInv | client/mysqlimport.c:590-724 | every step of every thread keeps it |
| ImportThrottle.CounterIsExact | client/mysqlimport.c:677-703 | counter = unfinished workers + a creation under way, within the limit |
| ImportThrottle.MutualExclusion | client/mysqlimport.c:621-624 | two threads in a critical section are the same thread, and it holds the mutex; main and workers alike |
| ImportThrottle.LeavesLast | client/mysqlimport.c:706-714 | past the final wait no worker will touch the mutex |
| ImportThrottle.NeverLoadedTwice | client/mysqlimport.c:613-615 | no file is loaded twice |
| ImportThrottle.EveryFileLoadedOnce | client/mysqlimport.c:590-724 | at the end every file was loaded once unless its thread or connection failed; the exit code is nonzero iff a load failed |
| ImportThrottle.NoDeadlock | client/mysqlimport.c:677-714 | some thread can always step, timeouts aside: no wakeup is lost |
| ImportThrottle.StepLowersMeasure | client/mysqlimport.c:590-724 | every step but a timeout lowers a measure |
| ImportThrottle.EveryRunEnds | client/mysqlimport.c:590-724 | a run has at most 25 steps per file plus 7, and two per timeout |
| LoginText.LocateSection | client/mysql_config_editor.cc:1125-1151 | the search finds the start of the first section of that name, or nothing |
| LoginText.NextHeader | client/mysql_config_editor.cc:1040-1074 | the first header behind a section's start is the next section's |
| LoginEdits.RemoveSection | client/mysql_config_editor.cc:1040-1074 | removing from the text removes just that section |
| LoginEdits.RemoveOption | client/mysql_config_editor.cc:969-1026 | removing an option from the text removes just that line of that section |
| LoginEdits.TextDeterminesSections | client/mysql_config_editor.cc:541-578 | different lists of sections have different texts |
| LoginFile.Buffer.StrStr | client/mysql_config_editor.cc:1137-1147 | the first occurrence in the buffer, or none |
| LoginFile.Buffer.LocateLoginPath | client/mysql_config_editor.cc:1125-1151 | the section's start |
| LoginFile.Buffer.CloseGap | client/mysql_config_editor.cc:1014-1021 | byte by byte, the text without the gap |
| LoginFile.Buffer.RemoveLoginPath | client/mysql_config_editor.cc:1040-1074 | the buffer holds the edited text |
| LoginFile.Buffer.FindOption | client/mysql_config_editor.cc:986-1010 | the line of the option within the section, or none |
| LoginFile.Buffer.RemoveOption | client/mysql_config_editor.cc:969-1026 | the buffer holds the edited text |
| LoginCommands.SectionOf | client/mysql_config_editor.cc:541-578 | the text of the new section, spelled out: a line for each option given, with its own value, in this order |
| LoginCommands.RemoveOptions | client/mysql_config_editor.cc:939-966 | the chosen options, or the whole section if none is chosen |
| LoginCommands.Execute | client/mysql_config_editor.cc:512-660 | one command on the buffer is that command on the list of sections |
| LoginCommands.ExecuteAll | client/mysql_config_editor.cc:512-660 | after any commands the buffer is the text of the resulting sections |
| LoginMap.AfterIsMap | client/mysql_config_editor.cc:595-599 | names stay distinct, and keys within a section |
| LoginMap.SetMeans | client/mysql_config_editor.cc:595-599 | set leaves one section of that name, the last; all others unchanged, in order |
| LoginMap.ChosenHolds | client/mysql_config_editor.cc:548-558 | a line is in the new section iff the option of its name was given with its value |
| LoginMap.SetHolds | client/mysql_config_editor.cc:541-599 | after set the last section has the name and exactly the options given, each with its value, in the order of the options |
| LoginMap.DeclinedMeans | client/mysql_config_editor.cc:580-594 | a user who declines keeps the file as it is; without a section of the name no question is asked |
| LoginMap.RemoveMeans | client/mysql_config_editor.cc:1040-1074 | remove deletes that section only |
| LoginMap.RemoveOptionsMeans | client/mysql_config_editor.cc:939-966 | removing options deletes those lines only |

## Left out

- Connections, SSL, queries, result fetching and formatting of rows: calls into libraries; rows, statements and events arrive as values.
- Option parsing, prompts, pager, tee, history, signal handling and table drawing: user interface.
- Parsing and printing of log events, GTID set arithmetic, checksums, raw mode and remote logs: fields and membership of the model; `--rewrite-db`, binary log versions before 3, `--hexdump` and `--short-form` output and failed writes of mysqlbinlog are not modelled.
- mysqldump with `--tab`, XML output, non-extended inserts, `skip_compressed_columns` and option consistency.
- Multi-byte characters, collations and case folding.
- Encryption, key generation, permissions and reading of the login file; the question before overwriting is modelled only by its answer.
- Out of memory, except where the code returns an error that callers see.
- `completion_hash_exists`, `unquote_name` and `create_delimiter`: not part of this model.
- The buffers of the key scanner and of the line reader are read by slices: the NUL the code writes at the end of a line and takes away again is not written in the model.
- The linked lists of skipped keys, buckets and entries are sequences; aliasing of their nodes is not modelled. The word pointers a bucket shares with its entries are values.
- BatchClient.ReadAndExecute: the line is copied out of the reader's buffer before it is rewritten; after a read error only termination is promised.
- SplitterMeaning.LinesDoNotMatter: the \\C command, unknown backslash commands in batch mode, DELIMITER commands, a comment inside a server comment and answers that end the session are handled by the splitter but not by the reader without lines.
- SentStatements.StatementsAreSent: the statements themselves hold no comment; texts with comments are the subject of `LinesDoNotMatter` and `SplitterComments`.
- SplitterComments.BlockCommentVanishes: the comment holds no server comment, which the code reads as an open one of its own.
- DeferredKeys.AutoincKeyStays: one direction, under its two provisos; the exact condition is `KeyOnStaysIff`.
- AutoincKeys.WrittenAutoincKeyStays: one direction, under its three provisos; the exact condition is `KeyDump.WrittenKeyOnIff`.
- BinlogDumper.Dumper.ProcessFirstEvent: failed writes and closes of the local file, which stop the program, are not modelled.
- BinlogDumper.Dumper.ProcessAppend: a file that can no longer be opened, which stops the program, is not modelled.
- BinlogDumper.Dumper.ProcessLoad: failed writes and the test on the version of the binary log are not modelled.
- BinlogDumper.Dumper.ProcessRows: the row events' text goes to the output at once; the caches that collect it until the statement ends are not modelled.
- BinlogDumper.Dumper.DumpLogs: the warning about an open row statement at the end is not modelled; the events of all logs are one sequence, so a `--stop-position` holds for all of them, while the code applies it to the last log only.
- GtidFiltering.RunFlag: speaks of runs from the first event on, without `--offset`, `--start-datetime` and `--server-id`, which can cut groups in two; `AcceptedByGroup` likewise.
- GtidFiltering.AcceptedByGroup: as for `RunFlag`.
- GtidGroups.ProcessInStep: without `--skip-gtids`, which prints no GTID at all.
- GtidGroups.RunInStep: without `--skip-gtids`, and for the runs of `RunFlag`.
- GtidGroups.ReplayBreaksIff: without `--skip-gtids`, and for the runs of `RunFlag`; the SET statements and the final ROLLBACK that `main` writes around every dump are not part of the output.
- GtidGroups.EndsExplicitIff: as for `ReplayBreaksIff`.
- GtidHistory.ReplayBreaksWhere: as for `GtidGroups.ReplayBreaksIff`.
- GtidHistory.EndsExplicitWhere: as for `GtidGroups.ReplayBreaksIff`.
- GtidReplay.CompleteReplayBreaksIff: as for `GtidGroups.ReplayBreaksIff`.
- GtidReplay.ReplayIsSound: as for `GtidGroups.ReplayBreaksIff`.
- GtidReplay.LeavesAutomatic: as for `GtidGroups.ReplayBreaksIff`.
- SplitterCuts.CutChangesNothing: says when a cut is harmless, not what a cut inside a delimiter, a comment mark or an escape does.
- CompletionTraversal.Generator.Next: starting a traversal of an empty table while an old cursor is left promises nothing; the code then reads the old cursor.
- CompletionTraversal.Completions: as for `Generator.Next`.
- ImportThrottle.EveryRunEnds: timeouts of the wait are not bounded in number; a process exit after a failed connection without `--force` ends a run early and is no step of the model.
- LoginFile.Buffer.RemoveOption: the last line of the text has its line break, as every command leaves it.
