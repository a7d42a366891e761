# Verification of the virtual escrow service and its SQL shell

Two parts of the repository are modelled here, and their behaviour is proved.

**The text engine of the SQLite shell** (`sqlite-amalgamation-3081002/shell.c`): what one routine prints, another one
reads back. Buffers are arrays and every index into them is checked; the loops and in-place rewrites are those of the
code, and each method is proved against a function that says what it computes.

| file | what it covers |
|---|---|
| `CBytes.dfy` | bytes, C strings, character classes, doubling of quotes |
| `CsvReader.dfy`, `CsvImport.dfy` | the CSV field reader with its two-byte look-behind, the record loop of `.import` |
| `CreateTable.dfy` | the CREATE TABLE statement that `.import` builds, and the columns SQL reads in it |
| `CsvFormat.dfy`, `CsvFields.dfy` | the record grammar of section 2 of RFC 4180, and what is made of any other field |
| `CsvWriter.dfy`, `CsvRoundTrip.dfy` | CSV output, whole tables out and back in |
| `CStrings.dfy`, `Escapes.dfy` | C string literals, escapes resolved in place, and what the escapes are |
| `MetaCommand.dfy`, `ArgumentRoundTrip.dfy` | dot-command arguments |
| `SqlQuoting.dfy` | the three SQL quoters and how SQL reads quoted text and names |
| `LineReader.dfy`, `Whitespace.dfy` | chunked line reading, blanks and comments |
| `SqlInput.dfy`, `ProcessInput.dfy`, `InputRuns.dfy` | gathering lines into statements, the statement buffer, what a run must be |
| `ExplainIndent.dfy`, `ExplainNesting.dfy`, `TablesLayout.dfy` | indentation of EXPLAIN output and nesting of loops, columns of `.tables` |

**The escrow session protocol** (`server/`, `client/`, `shared/`): any number of server processes share the `sessions`
table; each is stepped from one SQL statement or socket call to the next, in any interleaving.

| file | what it covers |
|---|---|
| `ProtobufWire.dfy`, `Messages.dfy`, `Frame.dfy` | the messages on the wire, the frame in memory and its size bound |
| `Sessions.dfy`, `Agreement.dfy`, `SessionRuns.dfy` | the server processes as a transition system, what each step keeps, whole runs |
| `Takeover.dfy`, `DistinctRuns.dfy`, `PartnerLimit.dfy` | what goes wrong, and exactly when |
| `ServerProcess.dfy`, `ClientProcess.dfy` | the two process classes; their methods are its steps |
| `Connections.dfy`, `Callbacks.dfy`, `NetRuns.dfy` | clients, the frames under way, callbacks; servers and clients together |

## Assumptions

- Strings in memory are free of NUL bytes, so a C string is its bytes up to the terminator; lengths stay below 2^30;
  allocation succeeds; no interrupt arrives. Character classes are those of the "C" locale.
- The CSV column separator is one byte; for the results about the record format it is an ASCII character other than NUL,
  the quote, CR and LF (`CsvRoundTrip.SeparatorExactly` says what other bytes do). Records end in LF on import (`.import`
  itself turns a CRLF setting into LF in CSV mode). `char` is signed.
- SQL reads the table's name in a CREATE TABLE statement as a whole. What it makes of the text in a name beyond the quotes
  that enclose it, and of column definitions other than a bare type, is arbitrary (`CreateTable.Sql`).
- `sqlite3_complete`, the return value of a dot-command, whether a statement fails and whether the shell goes on after
  errors are arbitrary functions (`SqlInput.Env`).
- SQL statements on the `sessions` table are atomic; the table maps `client_id`, which is UNIQUE, to `session_id`. Each
  receive yields one whole frame, and frames arrive in order. Generated ids are 16 bytes and new. A server
  process that has not been given a client id deletes no row and excludes none from its partner list.
- A process can die at any point; that covers every failing SQL statement, read and write.

## What the proofs found

- **A refused client takes the winner's session with it.** `run` deletes by client id even when the process was refused
  (`server/server-process.cpp:122-127`), and a refused client disconnects at once (`client.cpp:64-72`). From every state in
  which a client is registered, a refused duplicate followed by a third client leaves two registered processes with one id
  (`Takeover.DuplicateAfterRefusal`). Registered ids stay distinct throughout a run if and only if no id is deleted by one
  process while another holds it and then inserted again while that one still does (`DistinctRuns.ClientsDistinctExactly`).
  The table agrees with the processes throughout a run if and only if no such deletion happens at all, and is exactly their
  graph when in addition no registered process dies (`SessionRuns.AgreesThroughoutExactly`,
  `SessionRuns.ExactThroughoutExactly`). A process can see it coming: in an exact state its DELETE takes another's row if and
  only if it has no session itself and the table has a row for its id (`DistinctRuns.DeleteStealsExactly`), and with that
  check in front of every DELETE no run doubles an id (`DistinctRuns.GuardSuffices`).
- **More than 55 partners end the asking process.** If the table has 57 or more other clients the answer does not fit the
  serializer's buffer, and `Logger::fatal` ends the process without its DELETE (`PartnerLimit.ListingStrandsExactly`); a run
  with 58 clients gets there from the start (`PartnerLimit.AskingCanKill`). The body of exactly 56 ids is longer than the
  frame's body but not than that buffer, for which the code defines nothing.
- **A double quote in a column name changes the table.** `.import` puts the names of a new table between double quotes as
  they are (`shell.c:3036`). The table gets the printed names if and only if none has a double quote and no two are the
  same to SQL (`CreateTable.CreatedExactly`, `CsvRoundTrip.HeaderRoundTrip`); one name with the text between two columns in it
  becomes two columns, and every row gets a NULL it did not have (`CsvRoundTrip.SplicedHeader`).
- **Column separators beyond ASCII do not separate.** `.import` compares the separator as a signed char with bytes. A table of
  two or more columns comes back if and only if the separator is below 128 (`CsvRoundTrip.SeparatorExactly`); with 255, which
  equals EOF, the import does not end (`CsvRoundTrip.EofSeparatorNeverEnds`).
- Of several frames that one receive brings only the first is handled (`Frame.FirstFrameOnly`).
- **An echo can lose its callback.** The request is written before its callback is registered, in another thread than the
  one that reads. A callback whose reply is read in between never runs; the callbacks left over at rest are exactly those
  (`NetRuns.AtRestExactly`, `NetRuns.MissedNeverFires`, `NetRuns.EchoCanBeLost`).
- **What is told OK is kept.** Once nothing is left to hear from a process that was not killed, a client has a session if and
  only if its process registered it, and then the same one (`NetRuns.SessionExactly`, `NetRuns.OkIsKept`).
- NULL does not survive CSV: a table comes back unchanged exactly when it has no NULL (`CsvRoundTrip.TableRoundTrip`). A last
  record without a line break keeps its fields exactly when it does not end in an empty bare field
  (`CsvFormat.LastRecordExact`). A line that a lone LF ends comes back exactly when it does not end in CR
  (`LineReader.TextLineExact`). Argument lists come back exactly up to 50 entries (`ArgumentRoundTrip.ArgumentsComeBack`).
- Where comment and code differ the model follows the code: the indentation rules name SeekGt and SeekLt while the code
  compares with "SeekLT" and "SeekGT", and they ask for P1 equal to one while the code takes any P1 other than zero
  (`shell.c:1396-1401, 1415, 1451`); `resolve_backslashes` documents `\s` as a space but leaves the letter
  (`shell.c:1946-2002`); `process_input` is said to return the number of errors and returns whether there were any
  (`shell.c:4144, 4254`).

## Model

| member | source | states |
|---|---|---|
| CsvReader.ReadField | sqlite-amalgamation-3081002/shell.c:2176-2236 | a field ends just past a column separator, a row separator or at end of file, and only an exhausted input gives the null field |
| CsvReader.ImportCtx.constructor | sqlite-amalgamation-3081002/shell.c:2138-2148 | the context of an import: nothing read, line 1 |
| CsvReader.ImportCtx.AppendChar | sqlite-amalgamation-3081002/shell.c:2151-2161 | the byte is appended, the earlier ones are kept when the buffer grows, and a terminator still fits |
| CsvReader.ImportCtx.StripToQuote | sqlite-amalgamation-3081002/shell.c:2205 | the backward loop stops at the last quote without underflow and keeps exactly the text before it |
| CsvReader.ImportCtx.ReadRun | sqlite-amalgamation-3081002/shell.c:2224-2227 | an unquoted field is everything up to the first separator or end of file |
| CsvReader.ImportCtx.ReadBare | sqlite-amalgamation-3081002/shell.c:2223-2233 | an unquoted field as the specification reads it, one CR before the row separator dropped |
| CsvReader.ImportCtx.QuotedByte | sqlite-amalgamation-3081002/shell.c:2191-2222 | one byte of a quoted field: the field is over, or reading on from the new look-behind gives the same result |
| CsvReader.ImportCtx.ReadQuoted | sqlite-amalgamation-3081002/shell.c:2186-2222 | a quoted field as the specification reads it, terminating on every input |
| CsvReader.ImportCtx.CsvReadOneField | sqlite-amalgamation-3081002/shell.c:2176-2236 | the field, its terminator and the new position; n stays below the allocation; nLine grows by the row separators consumed |
| CsvFields.QuotedExactly | sqlite-amalgamation-3081002/shell.c:2186-2222 | any input behind an opening quote, stray quotes and a missing closing quote included, is read exactly as its pieces say |
| CsvFields.ReadsPieces | sqlite-amalgamation-3081002/shell.c:2191-2222 | only the second of two quotes goes; a quote ends the field before a separator, LF, CRLF or the end; else it stays |
| CsvFields.PiecesFrom | sqlite-amalgamation-3081002/shell.c:2191-2222 | whatever stands behind an opening quote is made of such pieces |
| CsvFields.BareExactly | sqlite-amalgamation-3081002/shell.c:2223-2233 | any other field ends at the first separator, LF or end of file, and loses one CR before an LF only |
| CsvImport.ReadRecord | sqlite-amalgamation-3081002/shell.c:3094-3135 | a record has a field, ends just past a row separator or at end of file, and starts with null exactly at end of file |
| CsvImport.FillWithNull | sqlite-amalgamation-3081002/shell.c:3114-3115 | the parameters from a number on become NULL, the others stay, and the loop index ends past the last column |
| CsvImport.BindField | sqlite-amalgamation-3081002/shell.c:3097-3116 | one column: its field is bound, missing columns become NULL, the input's end stops the loop |
| CsvImport.BindRecord | sqlite-amalgamation-3081002/shell.c:3096-3117 | all parameters are bound to the first fields in order and NULL for missing ones, unless the input had ended |
| CsvImport.SkipExtras | sqlite-amalgamation-3081002/shell.c:3118-3126 | surplus fields are read to the end of the record, at least one |
| CsvImport.ImportRecord | sqlite-amalgamation-3081002/shell.c:3095-3127 | one round of the loop consumes exactly one record and offers a row unless the input had ended |
| CsvImport.ImportRecords | sqlite-amalgamation-3081002/shell.c:3094-3135 | exactly one insert per record, in order, to the end of the input; the loop terminates, and nLine stays 1 plus the row separators read |
| CsvImport.ReadName | sqlite-amalgamation-3081002/shell.c:3035-3039 | one column of the header record goes into the statement |
| CsvImport.ReadHeader | sqlite-amalgamation-3081002/shell.c:3033-3039 | the statement has a column for every field of the first record, and reading goes on behind it |
| CsvImport.Import | sqlite-amalgamation-3081002/shell.c:3031-3135 | an existing table gets a row per record; a missing one gets the columns SQL reads in the statement; an empty file is an error then, and so is a statement that creates nothing |
| CsvImport.SeparatorsExactly | sqlite-amalgamation-3081002/shell.c:2969-2996 | one column separator and one row separator, or CRLF in CSV mode, and nothing else is accepted |
| CreateTable.ColumnsNext | sqlite-amalgamation-3081002/shell.c:3036-3037 | a column added to the statement stands behind the others |
| CreateTable.StatementText | sqlite-amalgamation-3081002/shell.c:3033-3047 | the statement for two columns, letter by letter |
| CreateTable.QuotedAsItIs | sqlite-amalgamation-3081002/shell.c:3036 | SQL reads a name put between double quotes as it is, if and only if it has no double quote |
| CreateTable.ReadsColumns | sqlite-amalgamation-3081002/shell.c:3035-3047 | the columns SQL reads in the list are the names if and only if none has a double quote |
| CreateTable.CreatedExactly | sqlite-amalgamation-3081002/shell.c:3033-3048 | the created table has the names as columns if and only if moreover no two are the same to SQL, which is an error |
| CreateTable.SplicedNameSplits | sqlite-amalgamation-3081002/shell.c:3036 | a name that holds the text between two columns becomes those two |
| CsvFormat.ReadsBare | sqlite-amalgamation-3081002/shell.c:2223-2233 | an unquoted field of the grammar is read to its text before a separator, LF, CRLF or the end of file |
| CsvFormat.ReadsQuoted | sqlite-amalgamation-3081002/shell.c:2186-2222 | a quoted field with doubled quotes is read to its text, whatever bytes are in it |
| CsvFormat.ReadsRecord | sqlite-amalgamation-3081002/shell.c:2163-2236 | every record of the grammar, with any mix of quoted and bare fields, is read to its intended fields |
| CsvFormat.ImportsLines | sqlite-amalgamation-3081002/shell.c:3094-3135 | lines in sequence are imported as one row each, from any position on |
| CsvFormat.ImportsDocument | sqlite-amalgamation-3081002/shell.c:3094-3135 | every document of the grammar is imported record by record |
| CsvFormat.ImportedCells | sqlite-amalgamation-3081002/shell.c:3094-3135 | row by row and column by column: a record's cells in order, surplus ones dropped, missing ones NULL |
| CsvFormat.HeaderNames | sqlite-amalgamation-3081002/shell.c:3035-3039 | the columns of a header record are its cells; an empty bare one that the end of the file ends is none |
| CsvFormat.LastRecordExact | sqlite-amalgamation-3081002/shell.c:2181-2184 | a record ended by the end of file keeps its fields if and only if it does not end in an empty bare field |
| CsvWriter.OutputCsv | sqlite-amalgamation-3081002/shell.c:769-798 | a value is quoted exactly when a byte of it needs that or it is empty, quotes doubled; NULL prints as the nullValue |
| CsvWriter.PrintedAsItIsExactly | sqlite-amalgamation-3081002/shell.c:744-798 | a value is printed as it is if and only if it is not empty and all its bytes are visible ASCII other than quotes and the separator |
| CsvWriter.OutputValues | sqlite-amalgamation-3081002/shell.c:983-985 | the values of a row with separators between them |
| CsvWriter.CsvPrinter.Callback | sqlite-amalgamation-3081002/shell.c:973-989 | a header line before the first row only, then the row and a row separator, nothing for no columns |
| CsvWriter.Export | sqlite-amalgamation-3081002/shell.c:973-989 | a whole result is the header line, if asked for and not empty, and every row in order |
| CsvRoundTrip.WriterQuotesEnough | sqlite-amalgamation-3081002/shell.c:744-798 | what the writer leaves bare the grammar allows bare, and the printed bytes are the field's form in the grammar |
| CsvRoundTrip.RowsAreRendered | sqlite-amalgamation-3081002/shell.c:973-989 | printed rows are lines of the grammar |
| CsvRoundTrip.TableRoundTrip | sqlite-amalgamation-3081002/shell.c:2984-2991 | importing what is printed without a header inserts the printed values in order, and the original rows if and only if there is no NULL |
| CsvRoundTrip.SeparatorExactly | sqlite-amalgamation-3081002/shell.c:3021-3022 | a printed table without NULL is restored if and only if the separator is below 128, or there is one column or no row |
| CsvRoundTrip.EofSeparatorNeverEnds | sqlite-amalgamation-3081002/shell.c:3118-3122 | with separator 255 the loop over surplus fields meets its own condition again at end of file |
| CsvRoundTrip.HeaderRoundTrip | sqlite-amalgamation-3081002/shell.c:3032-3057 | with a header line a missing table gets the printed names and rows if and only if there is a row, no name has a double quote and no two are the same to SQL; no rows give the empty-file error |
| CsvRoundTrip.SplicedHeader | sqlite-amalgamation-3081002/shell.c:3036 | one spliced column name gives two columns and a NULL in every row |
| CStrings.OutputCString | sqlite-amalgamation-3081002/shell.c:677-703 | prints the C literal of the string |
| CStrings.EscapeSize | sqlite-amalgamation-3081002/shell.c:683-700 | which bytes are printed as they are, which have an escape of their own, and that the others take three digits |
| CStrings.Unit | sqlite-amalgamation-3081002/shell.c:1964-1999 | an escape or plain byte takes one to four bytes and never more than there are |
| CStrings.DecodeEscaped | sqlite-amalgamation-3081002/shell.c:677-703 | resolving the escapes of a printed string gives the string back, for every C string |
| Escapes.DecodedIsByParts | sqlite-amalgamation-3081002/shell.c:1946-2002 | the decoder gives a text exactly the bytes that its plain bytes, letter escapes and octal escapes stand for |
| Escapes.DecodesParts | sqlite-amalgamation-3081002/shell.c:1965-1999 | every text made of such parts is decoded to their values, which a table gives for the letters |
| Escapes.PartsOf | sqlite-amalgamation-3081002/shell.c:1960-2002 | every text is made of such parts, a backslash at its end left alone |
| CStrings.NextUnit | sqlite-amalgamation-3081002/shell.c:1965-1998 | the branches of the loop compute length and value of the next escape |
| CStrings.NextOctal | sqlite-amalgamation-3081002/shell.c:1987-1997 | at most three octal digits, modulo 256 |
| CStrings.RewriteFrom | sqlite-amalgamation-3081002/shell.c:1964-2001 | the two-index loop writes the decoded text, never past the read index, and touches nothing else |
| CStrings.ResolveBackslashes | sqlite-amalgamation-3081002/shell.c:1960-2002 | the buffer holds the decoded string, never longer, and no byte outside changes |
| MetaCommand.FindQuote | sqlite-amalgamation-3081002/shell.c:2632-2635 | the closing quote, backslash pairs skipped inside double quotes |
| MetaCommand.FindSpace | sqlite-amalgamation-3081002/shell.c:2642 | the end of an unquoted argument |
| MetaCommand.Finish | sqlite-amalgamation-3081002/shell.c:2636-2644 | terminating and resolving one argument leaves the rest of the line as it was |
| MetaCommand.TakeToken | sqlite-amalgamation-3081002/shell.c:2629-2645 | one argument, quoted or not, with its value in place |
| MetaCommand.TokensAreDisjoint | sqlite-amalgamation-3081002/shell.c:2626-2646 | every argument with its terminator ends before the next one starts |
| MetaCommand.Tokenize | sqlite-amalgamation-3081002/shell.c:2617-2646 | after the in-place cut every argument pointer holds its value, at most 50 of them |
| ArgumentRoundTrip.TokenOfLiteral | sqlite-amalgamation-3081002/shell.c:2629-2639 | a printed C literal is one token whose value is the string |
| ArgumentRoundTrip.TokenOfSingle | sqlite-amalgamation-3081002/shell.c:2629-2639 | between single quotes every byte stands for itself |
| ArgumentRoundTrip.TokenOfWord | sqlite-amalgamation-3081002/shell.c:2640-2645 | a bare word ends at the next space and is its own value |
| ArgumentRoundTrip.TokenOfAnyWord | sqlite-amalgamation-3081002/shell.c:2640-2645 | whatever is in it, an argument without quotes ends at white space and has its escapes resolved |
| ArgumentRoundTrip.TokenOfUnquoted | sqlite-amalgamation-3081002/shell.c:2640-2645 | a text printed by output_c_string is one token with that value even without the quotes |
| ArgumentRoundTrip.QuoteEndExactly | sqlite-amalgamation-3081002/shell.c:2632-2635 | a double quote closes at the first one that no backslash hides, or at the end of the line |
| ArgumentRoundTrip.InsideFrom | sqlite-amalgamation-3081002/shell.c:2632-2635 | whatever stands behind a double quote is bytes and backslash pairs up to there |
| ArgumentRoundTrip.TokenOfOpenQuote | sqlite-amalgamation-3081002/shell.c:2629-2639 | an argument whose quote never closes goes to the end of the line |
| ArgumentRoundTrip.WrittenArgumentsComeBack | sqlite-amalgamation-3081002/shell.c:2617-2646 | arguments written in any mix of the four ways, with any white space around them and none needed behind a quote, are cut back into the first 50 of their texts |
| ArgumentRoundTrip.ArgumentsComeBack | sqlite-amalgamation-3081002/shell.c:2617-2646 | a list of strings printed as C literals after a dot is cut back into its first 50 entries, so into itself if and only if it has at most 50 |
| SqlQuoting.OutputQuotedString | sqlite-amalgamation-3081002/shell.c:645-672 | printing run by run gives the quoted form |
| SqlQuoting.NextRun | sqlite-amalgamation-3081002/shell.c:656-668 | one round prints the doubled form of what it moves over |
| SqlQuoting.AppendText | sqlite-amalgamation-3081002/shell.c:1103-1138 | the new buffer is filled to its last byte with the old text, the quoted one and a terminator |
| SqlQuoting.AppendedComesBack | sqlite-amalgamation-3081002/shell.c:1103-1138 | without a quote the text is appended as it is; with one, SQL reads it back from where it was appended |
| SqlQuoting.MeasureName | sqlite-amalgamation-3081002/shell.c:1072-1079 | the first loop computes the exact size and whether quotes are needed |
| SqlQuoting.SetTableName | sqlite-amalgamation-3081002/shell.c:1062-1093 | the name is quoted exactly when it is no plain name, in a buffer filled to its last byte |
| SqlQuoting.TableNameComesBack | sqlite-amalgamation-3081002/shell.c:1062-1093 | SQL reads the name back, whatever it is, wherever a space or anything but a quote or a byte of a name follows |
| SqlQuoting.QuotedExactly | sqlite-amalgamation-3081002/shell.c:1073-1078 | there are quotes around a name if and only if SQL would not read it without them |
| SqlQuoting.QuotedIsSelfDelimiting | sqlite-amalgamation-3081002/shell.c:645-672 | read as SQL the quoted text gives the text and ends at its own quote, if and only if no quote follows at once |
| SqlQuoting.QuotingIsInjective | sqlite-amalgamation-3081002/shell.c:1115-1131 | different texts have different quoted forms |
| SqlQuoting.NestedQuoting | sqlite-amalgamation-3081002/shell.c:1702-1706 | the name quoted twice in a dump is recovered by reading twice |
| SqlQuoting.QuotersAgree | sqlite-amalgamation-3081002/shell.c:1062-1138 | the three quoters agree on every name that needs quotes, and SQL reads the name back |
| LineReader.TextLineExact | sqlite-amalgamation-3081002/shell.c:460-468 | a line with its line break is read back if and only if it is no lone-LF line ending in CR |
| LineReader.LinesOfText | sqlite-amalgamation-3081002/shell.c:444-471 | a text of such lines, in any mix of line breaks, is read back line by line |
| LineReader.InputFile.ReadChunk | sqlite-amalgamation-3081002/shell.c:453-463 | one chunk extends the gathered line by input bytes and knows whether it ended |
| LineReader.InputFile.Chomp | sqlite-amalgamation-3081002/shell.c:464-467 | the LF and one CR before it go, also when CR and LF came in different chunks |
| LineReader.InputFile.LocalGetline | sqlite-amalgamation-3081002/shell.c:444-471 | exactly the next line, of any length, null exactly at end of file; the prior buffer is reused or replaced |
| LineReader.InputFile.ReadAll | sqlite-amalgamation-3081002/shell.c:444-471 | repeated calls with buffer reuse return exactly the lines of the input |
| Whitespace.AcceptsGrammar | sqlite-amalgamation-3081002/shell.c:4085-4104 | every text of blanks, closed comments and remarks is accepted |
| Whitespace.ParsesAccepted | sqlite-amalgamation-3081002/shell.c:4085-4104 | every accepted text has a parse in that grammar |
| Whitespace.AllBlankIsGrammar | sqlite-amalgamation-3081002/shell.c:4085-4104 | the accepted texts are exactly those of the grammar |
| Whitespace.AllWhitespace | sqlite-amalgamation-3081002/shell.c:4085-4104 | the scan computes that answer and terminates |
| Whitespace.TerminatorIsGrammar | sqlite-amalgamation-3081002/shell.c:4111-4121 | a terminator line is exactly spaces, a slash or "go" in any mix of cases, and a text without SQL |
| Whitespace.LineIsCommandTerminator | sqlite-amalgamation-3081002/shell.c:4111-4121 | the scan recognises those lines |
| SqlInput.StepConserves | sqlite-amalgamation-3081002/shell.c:4171-4244 | one line keeps all lines so far accounted for |
| SqlInput.LinesAreConserved | sqlite-amalgamation-3081002/shell.c:4159-4252 | for any lines and any completeness predicate every line read is skipped, a dot-command, part of an executed or a discarded text, or left over; a text ends at the first line that completes it with a semicolon or leaves no SQL in it, and nothing else is executed or discarded |
| SqlInput.CompleteLineIsExecuted | sqlite-amalgamation-3081002/shell.c:4211-4236 | a line with a semicolon that leaves the gathered text complete ends it: it is executed there |
| InputRuns.EventsAreDetermined | sqlite-amalgamation-3081002/shell.c:4159-4252 | the lines determine what happens: of two accounts of the same lines one begins with the other |
| InputRuns.StopsExactly | sqlite-amalgamation-3081002/shell.c:4159-4180 | lines are read to the end or to the first one that an earlier exit, or an error not gone on after, keeps from being read |
| InputRuns.FailsExactly | sqlite-amalgamation-3081002/shell.c:4245-4254 | the run fails if and only if a command or statement did or lines with SQL in them are left over |
| SqlInput.EventsAreDisjoint | sqlite-amalgamation-3081002/shell.c:4159-4252 | no two events share a line |
| SqlInput.EachLineOnce | sqlite-amalgamation-3081002/shell.c:4159-4252 | every line before the gathered ones belongs to exactly one event |
| SqlInput.SqlTextIsJoined | sqlite-amalgamation-3081002/shell.c:4186-4210 | an executed text is its lines as they are kept, joined by LF, the first without leading space |
| SqlInput.KeptExactly | sqlite-amalgamation-3081002/shell.c:4186-4188 | a line is kept unless it is a terminator and its semicolon completes what is there |
| ProcessInput.Shell.LineIsComplete | sqlite-amalgamation-3081002/shell.c:4127-4135 | asks about the text with a semicolon, inside the buffer, and restores it |
| ProcessInput.Shell.Reserve | sqlite-amalgamation-3081002/shell.c:4190-4197 | room for the line, a line break and a terminator, the text kept |
| ProcessInput.Shell.Gather | sqlite-amalgamation-3081002/shell.c:4190-4210 | the line joins the text after an LF, or starts it without leading space |
| ProcessInput.Shell.LineContainsSemicolon | sqlite-amalgamation-3081002/shell.c:4076-4079 | whether what was added last has a semicolon |
| ProcessInput.Shell.Execute | sqlite-amalgamation-3081002/shell.c:4213-4236 | runs the text, escapes resolved in place if asked to, counts a failure, empties the buffer |
| ProcessInput.Shell.Dispatch | sqlite-amalgamation-3081002/shell.c:4211-4244 | executes a complete text, drops an all-comment one, keeps any other |
| ProcessInput.Shell.FeedEmpty | sqlite-amalgamation-3081002/shell.c:4172-4185 | with nothing gathered, blanks are skipped and dot-commands run |
| ProcessInput.Shell.FeedStatement | sqlite-amalgamation-3081002/shell.c:4186-4244 | a line that begins or continues a statement |
| ProcessInput.Shell.Feed | sqlite-amalgamation-3081002/shell.c:4171-4244 | one round of the loop is one step of the specification, every write inside the buffer |
| ProcessInput.ProcessLines | sqlite-amalgamation-3081002/shell.c:4146-4255 | the whole input is the specified run; the result says whether there were errors, incomplete SQL included |
| ExplainIndent.StrInArray | sqlite-amalgamation-3081002/shell.c:1378-1384 | membership |
| ExplainIndent.IndentLoop | sqlite-amalgamation-3081002/shell.c:1447-1449 | two more for the rows from the target to before the jump |
| ExplainIndent.IndentGoto | sqlite-amalgamation-3081002/shell.c:1450-1454 | two more for the rows strictly between a qualifying Goto and its target |
| ExplainIndent.PrepareRow | sqlite-amalgamation-3081002/shell.c:1425-1455 | one row keeps the closed form |
| ExplainIndent.ExplainDataPrepare | sqlite-amalgamation-3081002/shell.c:1404-1459 | every row's indentation is twice the number of later loop ends whose target is at or before it plus twice the number of later qualifying Gotos whose target is before it |
| ExplainIndent.IndentedIffEnclosed | sqlite-amalgamation-3081002/shell.c:1386-1402 | a row is indented if and only if some later row jumps back over it |
| ExplainNesting.IndentIsDepth | sqlite-amalgamation-3081002/shell.c:1386-1402 | in a program of properly nested loops a row is indented by two for every loop around it |
| ExplainNesting.IndentCounts | sqlite-amalgamation-3081002/shell.c:1404-1455 | in any program a row is indented by two for every later row that jumps back over it, by opcodes, P1 and P2 |
| TablesLayout.LongestName | sqlite-amalgamation-3081002/shell.c:3769-3772 | the length of the longest name |
| TablesLayout.PrintLine | sqlite-amalgamation-3081002/shell.c:3777-3781 | one line: every nPrintRow-th name, padded, two spaces between columns |
| TablesLayout.PrintTables | sqlite-amalgamation-3081002/shell.c:3765-3783 | prints the layout, of which the following rows say what bytes it is |
| TablesLayout.PrintedLines | sqlite-amalgamation-3081002/shell.c:3776-3783 | cut at its line breaks, what is printed is the lines from the first to the last |
| TablesLayout.PrintedExactly | sqlite-amalgamation-3081002/shell.c:3776-3782 | the bytes of every printed line: the names of its columns, filled up with spaces, two spaces between, nothing else |
| TablesLayout.PrintedFitsExactly | sqlite-amalgamation-3081002/shell.c:3765-3783 | no printed line exceeds 78 characters if and only if no name does |
| TablesLayout.LinesAreFewest | sqlite-amalgamation-3081002/shell.c:3773-3775 | as many columns as 80 characters hold, one at least, and no more lines than they make necessary |
| TablesLayout.EntriesFit | sqlite-amalgamation-3081002/shell.c:3773-3775 | the two roundings never leave a line empty or with more than nPrintCol names |
| TablesLayout.LineWidth | sqlite-amalgamation-3081002/shell.c:3776-3782 | a line is as wide as its columns with two spaces between them |
| TablesLayout.LinesFitExactly | sqlite-amalgamation-3081002/shell.c:3765-3783 | no line exceeds 78 characters if and only if no name does |
| TablesLayout.EachNameOnce | sqlite-amalgamation-3081002/shell.c:3776-3782 | line by line every name has its turn exactly once and nothing else has |
| TablesLayout.NamePlaced | sqlite-amalgamation-3081002/shell.c:3776-3782 | every name is printed in exactly one place: line j modulo the lines, column j divided by them |
| ProtobufWire.FieldsComeBack | shared/shared.cpp:15-17 | parsing the wire format gives the serialized fields back |
| ProtobufWire.FixedIsReadOver | protos/session.proto:13-17 | fields of eight and of four bytes, which no message has, are read over |
| ProtobufWire.GroupIsReadOver | protos/session.proto:13-17 | and so is a group with all its fields |
| Messages.MessageComesBack | shared/shared.cpp:15-36 | every message is parsed back from its serialized form under its id |
| Messages.PartnersSize | server/server-process.cpp:30-34 | a partner list takes 18 bytes per id |
| Messages.RequestsOnTheWire | protos/session.proto:9-11 | the bytes of the requests and of an echo |
| Messages.ResponseOnTheWire | protos/session.proto:3-17 | the bytes of an answer to a session request |
| Messages.IdsOnTheWire | protos/trade.proto:6-8 | the bytes of a partner list |
| Frame.WordComesBack | shared/messageformat.h:11-16 | the integer fields survive their four bytes |
| Frame.CreateWrapperFromProtobuf | shared/shared.cpp:24-37 | the structure starts with the frame, or is untouched when the serializer's buffer is too small, or is overrun by a body of 1001 to 1024 bytes |
| Frame.CreateWrapperFromBuffer | shared/shared.cpp:19-22 | the received bytes overlay the start of the structure, the rest stays |
| Frame.FrameComesBack | shared/messageformat.h:11-19 | id, request id, size and body read back whatever follows the frame, which has at most 1024 bytes |
| Frame.FrameLayout | shared/messageformat.h:11-27 | the bytes of a frame: message number and size with their low bytes first, the request id, the body |
| Frame.SocketWriteMessage | shared/BaseProcess.tpp:122-145 | the frame is written under the given or generated request id, unless it is fatal or overruns the structure |
| Frame.MessageDispatch | shared/BaseProcess.tpp:18-56 | the handler gets request id and message of the first frame received; unknown ids and bodies that do not parse are dropped; less than a frame is told apart |
| Frame.FirstFrameOnly | shared/BaseProcess.tpp:18-56 | whatever follows a frame in one receive is not handled |
| Frame.Transmit | shared/BaseProcess.tpp:18-145 | what is dispatched is the message that was written, under its request id |
| Frame.PartnersFitExactly | server/server-process.cpp:30-36 | a partner list fits a frame if and only if it has at most 55 ids |
| Frame.EchoFitsExactly | server/server-process.cpp:45-48 | an echo fits if and only if its text has at most 997 bytes |
| Frame.SessionStartFits | server/server-process.cpp:51-95 | the session messages always fit |
| Sessions.CopiedId | server/server-process.cpp:100 | at most 16 bytes of a client id are taken, and exactly 16 are all taken |
| Sessions.MovedSound | server/server-process.cpp:17-128 | every step of a process keeps its fields consistent, and its OK and SESSION_STARTED answers name its own ids |
| Sessions.StepKeepsInvariant | server/server-process.cpp:17-128 | every step of any process keeps that for all of them, session ids stay different, and only ids of 16 bytes get into the table |
| Agreement.AgreeingAreDistinct | server/server-db.cpp:56 | where the table agrees with the registered processes their client ids are distinct |
| Agreement.ThievesWereRefused | server/server-process.cpp:72-82 | only a process that never got a session can delete the row of one that is registered |
| Agreement.StepAgreesExactly | server/server-process.cpp:114-128 | a step keeps the agreement if and only if it does not delete another's row |
| Agreement.StepExactlyExact | server/server-process.cpp:51-128 | a step keeps the table the exact graph if and only if it neither does that nor ends a registered process without its DELETE |
| SessionRuns.RaceSafe | server/server-process.cpp:72-91 | in every interleaving two successful INSERTs of an id have a DELETE of it between them |
| SessionRuns.EndedStaysEnded | shared/Logger.tpp:3-6 | a process that has ended never acts again |
| SessionRuns.RaceLoser | server/server-db.cpp:25-32 | who loses the race dies in its INSERT, changes no row, and never answers or deletes afterwards |
| SessionRuns.AgreesThroughoutExactly | server/server-process.cpp:51-128 | the table agrees throughout a run if and only if no step deletes another's row |
| SessionRuns.ClientsDistinct | server/server-process.cpp:51-128 | in particular, then registered client ids are distinct at every point of the run |
| DistinctRuns.DistinctThroughoutExactly | server/server-process.cpp:51-128 | from any agreeing state: ids are distinct throughout a run if and only if no id is deleted by one process while another holds it and inserted again while that one still does |
| DistinctRuns.ClientsDistinctExactly | server/server-process.cpp:51-128 | the same for every run from the start |
| DistinctRuns.DeleteStealsExactly | server/server-process.cpp:122-127 | in an exact state a DELETE takes another's row if and only if the process has no session and the table has a row for its id |
| DistinctRuns.GuardSuffices | server/server-process.cpp:122-127 | runs in which every DELETE passes that check never steal a row, and ids are distinct throughout |
| SessionRuns.ExactThroughoutExactly | server/server-process.cpp:51-128 | the table is exactly the graph throughout a run if and only if no step deletes another's row or strands its own |
| SessionRuns.IdentityIsFrozen | server/server-process.cpp:97-112 | once connected no step changes a process's client id or session id |
| SessionRuns.RowIsFrozen | server/server-process.cpp:97-128 | while no row is stolen a live registered process keeps its row with the same session |
| SessionRuns.OkMeansRegistered | server/server-process.cpp:82-94 | OK is answered only by a registered process, with its own ids |
| SessionRuns.AlwaysTheSameAnswer | server/server-process.cpp:51-95 | in every run all later session answers of a registered process are SESSION_STARTED with the same ids |
| SessionRuns.PartnersAreTheOthers | server/server-process.cpp:17-37 | the partner list that is answered has every other registered client once and no one else |
| SessionRuns.RefusedHearsOfTheHolder | server/server-process.cpp:76-81 | a refusal names the session of the process that holds the id |
| Takeover.RaceHasOneWinner | server/server-process.cpp:72-91 | two processes that both found no row: one registers, the other dies in its INSERT |
| Takeover.Registers | server/server-process.cpp:82-94 | undisturbed, a new client id is registered |
| Takeover.IsRefused | server/server-process.cpp:114-128 | undisturbed, a duplicate is refused, and its exit removes the row |
| Takeover.DuplicateAfterRefusal | server/server-process.cpp:122-127 | from every state with a registered client, a refused duplicate and a third client lead to two registered processes with one id |
| Takeover.DistinctIsConditional | server/server-process.cpp:122-127 | such a run exists from the start |
| PartnerLimit.TooManyPartners | server/server-process.cpp:36 | answering with more than 56 partners ends a registered process and strands its row, with fewer than 56 it does not |
| PartnerLimit.ListingStrandsExactly | server/server-process.cpp:26-36 | a registered process that asks is ended by the answer if and only if the table has more than 56 other clients |
| PartnerLimit.AskingCanKill | server/server-process.cpp:17-37 | a run from the start in which 58 or more clients register and the first one's question ends it, its row left behind |
| ServerProcesses.SessionsDb.SelectSession | server/server-process.cpp:73-75 | the row of a client id, if any |
| ServerProcesses.SessionsDb.SelectOthers | server/server-process.cpp:27-28 | every other client id once, in any order |
| ServerProcesses.SessionsDb.Insert | server/server-db.cpp:25-32 | the row is added unless the id is there |
| ServerProcesses.SessionsDb.Delete | server/server-process.cpp:124-125 | the row goes, if there is one |
| ServerProcesses.ServerProcess.constructor | server/server-process.h:26-30 | a forked process has neither session nor client id |
| ServerProcesses.ServerProcess.SetClientId | server/server-process.cpp:97-103 | only a process without session takes a client id, at most 16 bytes of it over what was there |
| ServerProcesses.ServerProcess.StartSession | server/server-process.cpp:105-112 | a session id is generated once |
| ServerProcesses.ServerProcess.Receive | server/server-process.cpp:39-66 | from a request to its first SQL statement or its reply |
| ServerProcesses.ServerProcess.CheckDuplicate | server/server-process.cpp:72-86 | refused with the session that is there, or connected with a new one |
| ServerProcesses.ServerProcess.RecordSession | server/server-process.cpp:88-91 | the row is inserted and OK prepared, or the process ends |
| ServerProcesses.ServerProcess.ListPartners | server/server-process.cpp:17-34 | the reply lists the other clients |
| ServerProcesses.ServerProcess.WriteReply | server/server-process.cpp:94 | the reply's frame under the request's id, or the end of the process, or an overrun |
| ServerProcesses.ServerProcess.DeleteOwnRow | server/server-process.cpp:122-127 | the row of the id last given goes, whoever put it there |
| ServerProcesses.ServerProcess.HandleSessionStart | server/server-process.cpp:51-95 | undisturbed, the whole handler refuses or registers, changes the table accordingly and writes the matching frame |
| ServerProcesses.ServerProcess.Prepare | server/server-process.cpp:17-92 | undisturbed, every request gets a reply of its kind, and the table changes by the process's own row at most |
| ServerProcesses.ServerProcess.Serve | server/server-process.cpp:118 | one message from receipt to reply |
| ServerProcesses.ServerProcess.Run | server/server-process.cpp:114-128 | undisturbed, all messages are answered in order and in kind; afterwards the table is as before but without the row of the id last given, whoever had put it there; an answer too long for a frame ends this earlier and leaves the own row |
| Connections.ServerKeepsOrder | server/server-process.cpp:36-94 | no server step loses, adds or reorders requests and replies |
| Connections.ClientKeepsOrder | client/client-process.cpp:28-57 | nor does a client step: replies come in the order of the requests with their ids and kinds |
| Connections.ServerKeepsTruth | server/server-process.cpp:51-95 | every OK under way names what its process inserted |
| Connections.ClientKeepsTruth | client/client-process.cpp:88-101 | a client's session is the one its process inserted |
| Connections.ServerDeliversOk | server/server-process.cpp:83-94 | once a process has inserted its row an OK is on its way to the client or has arrived, unless the process dies |
| Connections.ClientHearsOk | client/client-process.cpp:88-101 | no client action loses it: a client that takes an OK has a session |
| Connections.TakesOk | client/client-process.cpp:90-93 | taking an OK sets the session to the one it names |
| Connections.ServerKeepsEchoes | server/server-process.cpp:39-49 | the server echoes the text it was sent |
| Connections.ClientKeepsEchoes | client/client-process.cpp:40-51 | echoes under way and delivered carry the text of their request |
| Callbacks.ClientKeepsAccounts | shared/BaseProcess.tpp:5-19 | every client action keeps the accounts: pending is registered minus fired, each fires at most once and on a reply of its kind |
| Callbacks.LostExactly | client/client-process.cpp:40-51 | a registered callback of an answered request is still pending if and only if its reply was read before add_callback |
| Callbacks.QuiescentExactly | client/client-process.cpp:40-51 | with everything answered the pending callbacks are exactly those |
| NetRuns.NetStepKeepsInvariant | shared/BaseProcess.tpp:58-120 | every step of servers and clients together keeps order, truth, echoes and accounts on every connection |
| NetRuns.ServersRun | server/server-process.cpp:114-128 | a run of the whole is a run of the server processes, so all that holds of those holds |
| NetRuns.SessionsAgree | client/client-process.cpp:88-101 | in every run a client with a session has the one its own server process inserted for its id |
| NetRuns.SessionExactly | client/client-process.cpp:88-108 | in every run, once nothing is left to hear from a process that was not killed, a client has a session if and only if its process registered it, and then the same |
| NetRuns.OkIsKept | client/client-process.cpp:90-93 | a client told OK at any point of a run has the session it was told from then on |
| NetRuns.SessionInTable | client/client-process.cpp:103-108 | and while no row is stolen and the process lives, the table says so too |
| NetRuns.CallbacksAccounted | shared/BaseProcess.tpp:90-117 | in every run all callbacks are accounted for and replies are in order |
| NetRuns.EchoesComeBack | client/client-process.cpp:48-50 | in every run an echo callback is handed the text that was sent |
| NetRuns.AtRestExactly | client/client-process.cpp:40-51 | in every run, at rest, exactly the callbacks registered too late are left over |
| NetRuns.MissedNeverFires | shared/BaseProcess.tpp:11-19 | such a callback never runs, however the run goes on |
| NetRuns.EchoCanBeLost | client/client-process.cpp:40-51 | from every connection at rest an echo can lose its callback |
| ClientProcesses.ClientProcess.constructor | client/client-process.cpp:17-26 | a new client has an id, no session and no callbacks |
| ClientProcesses.ClientProcess.AddCallback | shared/BaseProcess.tpp:5-8 | the callback is pending under its request id |
| ClientProcesses.ClientProcess.InvokeCallback | shared/BaseProcess.tpp:11-19 | the callback of the id is called with the message and erased; without one nothing happens |
| ClientProcesses.ClientProcess.HandleSessionStartResponse | client/client-process.cpp:88-101 | OK sets m_session_set and copies the session id; a refusal and a repeated start change nothing |
| ClientProcesses.ClientProcess.CmdSessionStartRequest | client/client-process.cpp:53-57 | the request carries the client's id under a generated request id and registers nothing |
| ClientProcesses.ClientProcess.CmdAvailableTradePartnersRequest | client/client-process.cpp:28-38 | the request is written and its callback registered |
| ClientProcesses.ClientProcess.WriteEchoRequest | client/client-process.cpp:40-46 | the request is written, its callback not yet registered |
| ClientProcesses.ClientProcess.RegisterEchoCallback | client/client-process.cpp:48-50 | the callback is registered |
| ClientProcesses.ClientProcess.ProcessMessage | shared/BaseProcess.tpp:85-113 | what one receive brings is parsed, handled and its callback called and erased; what does not parse changes nothing |
| ClientProcesses.ClientProcess.StartSession | client/client-process.cpp:103-108 | a request, one receive, and true exactly when there is a session now |

## Left out

- CsvReader.ImportCtx.CsvReadOneField: the warnings about unescaped quotes and unterminated fields, which go to stderr and change nothing else.
- CsvImport.Import: failures of CREATE TABLE other than a repeated column name, such as limits, failures of single INSERTs, the transaction around them, and the ASCII import mode with its own field reader.
- CsvRoundTrip.TableRoundTrip: a NULL is considered only where the nullValue setting is a text that CSV can leave bare.
- CsvWriter.OutputCsv: column separators of more than one character.
- ExplainIndent.ExplainDataPrepare: the test whether the statement is an EXPLAIN, and jumps to negative targets, which the code does not define.
- LineReader.InputFile.LocalGetline: input with NUL bytes, at which the scan of a chunk would stop early.
- ProcessInput.ProcessLines: prompts, echoing, timers, interrupts, and the messages printed about errors.
- TablesLayout.PrintTables: the query that yields the names.
- TablesLayout.PrintedLines: names with line breaks in them, whose output no longer says where a line ends.
- SqlQuoting.QuotedExactly: words that SQL reserves; the shell looks at the bytes of a name only.
- Frame.CreateWrapperFromProtobuf: what a body of 1001 to 1024 bytes overwrites behind the structure; the overrun is reported, nothing is said of what follows it.
- Frame.MessageDispatch: what the handler makes of less than a frame; that case is reported, and nothing is said of the bytes it would read.
- ProtobufWire.FieldsComeBack: varints of more than ten bytes or 32 bits, and the limit on nested groups.
- Sessions.CopiedId: a first client id of less than 16 bytes, which leaves bytes of the field that nothing has set.
- ServerProcesses.ServerProcess.Run: other processes coming in between; the transition system has those.
- ClientProcesses.ClientProcess.ProcessMessage: polling, timeouts and lost connections.
- Callbacks.ClientKeepsAccounts: the unsynchronised use of the callback map by two threads; each of its operations is taken as atomic.
- sqlite3.h, sqlite3ext.h and sqlite3.c are not part of this model; neither are libuuid, sockets, poll and fork.
- The user interface (client/client-ui.cpp), the inventory (shared/virtualitems.cpp) and logging: no state that another part depends on.
- The other dot-commands and output modes of the shell: printing without a reader that has to undo it.
