# Models of the Rubinius standard library

Dafny models of eleven self-contained algorithms of the Rubinius standard library, and proofs of what they promise.
Each model is a specification on values with its theorems, and, where the Ruby code works by changing things, methods
and classes in the form of that code which are proved to do exactly what the specification says.

- **Pretty printer** (`Pretty*.dfy`, lib/prettyprint.rb): the streaming layout engine with its buffer, group stack and
  depth-indexed group queue. Its output is always a consistent layout, outermost groups broken first, and equals the
  single-line form exactly when it fits.
- **DNS messages** (`Dns*.dfy`, lib/resolv.rb): encoder with name compression and decoder with backward pointers
  (RFC 1035, sections 4.1.1 to 4.1.4). Decoding undoes encoding; decoding arbitrary bytes ends.
- **CSV** (`Csv*.dfy`, lib/csv.rb): generator, character automaton, and the chunked stream buffer that acts like a flat
  string.
- **Matrices** (`Matrix*.dfy`, lib/matrix.rb): Gauss-Jordan inverse and square-and-multiply powers over exact numbers.
- **Number theory** (`Number*.dfy`, lib/mathn.rb and lib/rational.rb): incremental sieve, prime division, the two
  greatest common divisors, reduction of fractions.
- **Calendar** (`Date*.dfy`, lib/date.rb): civil and week dates and day numbers in the fixed calendars and with a day of
  reform. The float constants are exact fractions rounded down.
- **Monitor** (`Monitor*.dfy`, lib/monitor.rb), **actors** (`Actor*.dfy`, lib/actor.rb) and **join calculus**
  (`Join*.dfy`, lib/join.rb): protocols whose critical sections are atomic steps, proved over every interleaving.
- **Paths** (`Path*.dfy`, lib/pathname.rb): cleaning, joining and relativising as operations on the place a path
  denotes.
- **PStore** (`Store*.dfy`, lib/pstore.rb): the write, rename, copy, unlink protocol, with a crash possible between any
  two elementary file operations.

`Common.dfy` holds what they share. `dafny verify dfyconfig.toml` checks everything.

## What the code does that its documentation does not say

- lib/csv.rb: a stream that holds nothing but a byte order mark is a format error, the same text as a string is an
  empty table (`CsvReader.ParseStream`). Quote and line feed are accepted as column separators but are not read back
  (`CsvRoundTrip.RowsRoundTrip`). An empty row is written like a row of one nil.
- lib/csv.rb: a carriage return alone at the end of the text, behind a last cell that is nil, is accepted
  (`CsvGrammar.ParsesExactly`); with the carriage return as column separator CRLF is a
  separator and a line end (`CsvWhole.ReturnsAreRead`).
- lib/prettyprint.rb: when a deep group has to be broken, an open group that has no hint yet is broken too if it is less
  deep, even when it does not enclose that group (`PrettySiblings.SiblingBreaks`), and then its own hints come out as
  newlines without need.
- lib/mathn.rb: the prime division of a negative number holds its power of two only; `gcd2` is right nevertheless
  because it takes absolute values.
- lib/matrix.rb: the power 0 of a singular matrix raises ErrNotRegular, because the inverse is computed first
  (`MatrixInverse.Pow`).
- lib/date.rb: with a day of reform before day 1794169 some day numbers are not found again, because the Gregorian
  calendar is then behind the Julian one (`DateReform.ReformRoundTrip`).
- lib/pstore.rb: after a recovery the file is read from where the copy ended, so the block starts with an empty table,
  and a transaction that saves then replaces the recovered table (`StoreTransaction.BlocksTakeEffect`).
- lib/csv.rb: rows whose text happens to begin with a byte order mark are not read back
  (`CsvWhole.WrittenIsRead`, `CsvWhole.MarkCell`).
- lib/join.rb: a chord may name a channel twice, and then the mask can go wrong or a synchronous channel raises
  (`JoinSafety.SafeIffDistinct` for one firing, `JoinClasses.SafeIffNotDangerous` for whole runs).

## Model

| member | source | states |
|---|---|---|
| `PrettyTheorems.FormatIsALayout` | lib/prettyprint.rb:43-48 | For every call sequence and every width the output is the layout of what was printed under some set of broken groups that is closed outwards: the breakables of a group are all newlines or all separators, and a newline in a group makes every enclosing group break. |
| `PrettyTheorems.FormatIsConsistent` | lib/prettyprint.rb:124-138 | The finished output never mixes newlines and separators within a group, and no unbroken group encloses a broken one. |
| `PrettyTheorems.ErasingNewlinesGivesSingleLine` | lib/prettyprint.rb:344-378 | Putting each newline back to its separator turns the output into exactly what the single-line printer prints for the same calls. |
| `PrettyTheorems.SingleLineIsALayout` | lib/prettyprint.rb:344-378 | The single-line printer prints the layout in which no group is broken. |
| `PrettyTheorems.ReadIsChained` | lib/prettyprint.rb:207-219 | The chain of enclosing groups of each group extends the chain of the group it was opened in. |
| `PrettyWidth.SingleLineExactlyWhenItFits` | lib/prettyprint.rb:124-138 | With widths that are not negative, output and single-line output are equal token by token, a newline differing from every text, if and only if there is no breakable or the whole text fits into the width. |
| `PrettyWidth.NoNewlineExactlyWhenItFits` | lib/prettyprint.rb:172-185 | With widths that are not negative, no newline is printed if and only if there is no breakable or the whole text fits. |
| `PrettyFit.FittingGroupStaysFlat` | lib/prettyprint.rb:124-138 | In any state that a run reaches, whatever was printed or broken before: if the text of a group, its widths not negative, fits on the rest of the line, running the group prints no newline and no hint, and leaves it and every group in it unbroken. |
| `PrettyBreaks.NewlinesAreNeeded` | lib/prettyprint.rb:124-138 | The converse: the group of every newline in the output was broken at a call at which a line had become too wide. Either everything given since the group's first hint, together with the line in front of it, exceeds the maximum, and all the hints in it are the group's own or deeper ones; or the group was open without a hint when that happened to a deeper group, or when the line was too wide with nothing to break. |
| `PrettyBreaks.EnclosesExactlyIfOpenedBefore` | lib/prettyprint.rb:324-337 | A group that is broken along with a deeper one encloses it if and only if it was opened before it. |
| `PrettySiblings.SiblingBreaks` | lib/prettyprint.rb:324-337 | Such a group need not enclose the deeper one: in 10 columns aaaa and bb, a group in a group, and behind them the group of cccc and d are printed on three lines, although with the last hint unbroken its line has 8 columns. |
| `PrettyNeed.RoundNeeded` | lib/prettyprint.rb:124-138 | Whatever one turn of the loop breaks was needed in that sense. |
| `PrettyWidth.BufferedLineFits` | lib/prettyprint.rb:124-158 | After any calls the two width counters are the width of the current output line and of the buffer, and while anything is buffered their sum is within the maximum. |
| `PrettyWidth.BreakOutmostBreaks` | lib/prettyprint.rb:124-138 | If breaking the outermost groups prints no newline then it changed nothing at all. |
| `PrettyWidth.OutputGroupBreaks` | lib/prettyprint.rb:261-284 | Writing out a broken group with pending breakables prints a newline. |
| `PrettyInvariant.BreakOutmostInv` | lib/prettyprint.rb:124-138 | Breaking outermost groups keeps the invariant of buffer, stack, queue and log, and afterwards the buffer is empty or fits. |
| `PrettyInvariant.TextInv` | lib/prettyprint.rb:144-158 | A text keeps the invariant and the fitting of the buffered line. |
| `PrettyInvariant.BreakableInv` | lib/prettyprint.rb:172-185 | A breakable keeps both, printed as a newline in a broken group or buffered. |
| `PrettyInvariant.OpenGroupInv` | lib/prettyprint.rb:207-219 | Opening a group, which files it in the queue, keeps the invariant. |
| `PrettyInvariant.CloseGroupInv` | lib/prettyprint.rb:207-219 | Closing a group, which takes it out of the queue if nothing of it is pending, keeps the invariant. |
| `PrettyInvariant.RunInv` | lib/prettyprint.rb:144-231 | Every sequence of calls keeps the invariant. |
| `PrettyInvariant.FinalFlush` | lib/prettyprint.rb:235-241 | The final flush keeps the output consistent. |
| `PrettyState.DeqMeetsSpec` | lib/prettyprint.rb:324-337 | Dequeuing takes a group with pending breakables from the shallowest row that has one; exactly that group and those of the rows before it are marked broken and leave the queue. |
| `PrettyLayout.FormatIsRead` | lib/prettyprint.rb:144-241 | The pieces printed are the texts, breakables and groups of the calls, in order, with their widths and nesting. |
| `PrettyPrinter.PrettyPrint.Text` | lib/prettyprint.rb:144-158 | The method appends to the buffer or prints, and leaves exactly the specified state and output. |
| `PrettyPrinter.PrettyPrint.Breakable` | lib/prettyprint.rb:172-185 | The method leaves exactly the specified state and output in all three branches. |
| `PrettyPrinter.PrettyPrint.BreakOutmostGroups` | lib/prettyprint.rb:124-138 | The loop over queue and buffer leaves exactly the specified state and output. When that breaks a group and when it breaks none is what the rows of PrettyFit and PrettyBreaks say. |
| `PrettyState.LastPending` | lib/prettyprint.rb:326-332 | In a row the last group with pending breakables is taken, none exactly if none has any. |
| `PrettyPrinter.PrettyPrint.Deq` | lib/prettyprint.rb:324-337 | The loop over the queue rows returns the specified group, with the broken marks and the shortened queue. |
| `PrettyPrinter.PrettyPrint.OutputBreakable` | lib/prettyprint.rb:272-283 | A breakable writes newline and indentation or its separator, leaves its group, and takes an exhausted group out of the queue. |
| `PrettyPrinter.PrettyPrint.GroupSub` | lib/prettyprint.rb:207-219 | Entering, running the block and leaving give exactly the specified state. |
| `PrettyPrinter.PrettyPrint.Nest` | lib/prettyprint.rb:224-231 | The indentation is raised for the block and restored behind it. |
| `PrettyPrinter.PrettyPrint.Flush` | lib/prettyprint.rb:235-241 | The whole buffer is written in order and emptied. |
| `PrettyPrinter.Format` | lib/prettyprint.rb:43-48 | A fresh printer, the calls and a flush write exactly the specified pieces, so the theorems above are about its output. |
| `DnsRoundTrip.MessageRoundTrip` | lib/resolv.rb:1222-1346 | Decoding an encoded message of at most 0x4000 bytes gives the same header fields, questions and records, with names equal label by label up to case, and ends at the last byte; labels may have 1 to 191 bytes. |
| `DnsRoundTrip.PutLabelsReads` | lib/resolv.rb:1296-1308 | What put_labels writes, literal or with a pointer into the name table, is read back as the labels up to case, and the table afterwards still points to where its suffixes are readable. |
| `DnsRoundTrip.NameReads` | lib/resolv.rb:1292-1308 | A written name is read back up to case with the index behind it, and the table stays good. |
| `DnsRoundTrip.PutRDataReads` | lib/resolv.rb:1484-2023 | The data of each modelled resource class is read back by the class found for its type and class numbers. |
| `DnsRoundTrip.RecordReads` | lib/resolv.rb:1242-1249 | A record put into a message is read back with its name, time to live and data. |
| `DnsRoundTrip.QuestionReads` | lib/resolv.rb:1237-1241 | A question put into a message is read back with its name, type and class. |
| `DnsRoundTrip.AllRead` | lib/resolv.rb:1237-1249 | A list of items written one behind the other is read back whole when each single item is, the name table carried along. |
| `DnsRoundTrip.GetAllSplit` | lib/resolv.rb:1334-1343 | Reading n and then k items is reading n + k items and cutting the list, so the three record sections are separated correctly. |
| `DnsRoundTrip.FlagsRoundTrip` | lib/resolv.rb:1222-1236 | The flag word decodes into the fields it was packed from. |
| `DnsRoundTrip.HeaderReads` | lib/resolv.rb:1315-1333 | The six header words are found again at the front of the message. |
| `DnsRoundTrip.LabelsMonotone` | lib/resolv.rb:1416-1439 | A list of labels that was readable stays the same when limit and bound are raised. |
| `DnsRecords.DecodedBearsItsNumbers` | lib/resolv.rb:1512-1515 | Whatever the bytes are, decoded record data bears the type and class numbers of the message, and is generic if and only if the class is not 1 or the type is none of the thirteen registered for it. |
| `DnsRecords.OtherBlockIsGeneric` | lib/resolv.rb:1451-1540 | A block of another class, or of class 1 with another type, is read as a generic record with its numbers and its bytes, as far as there are any. |
| `DnsRecords.KnownType` | lib/resolv.rb:1816-1975 | Data of class 1 with one of the eleven modelled types is read as that type's own kind. |
| `DnsRecords.RecordBearsItsNumbers` | lib/resolv.rb:1451-1456 | A decoded record has the type, class and time to live that stand behind its name. |
| `DnsRecords.BlockIsUsedUp` | lib/resolv.rb:1356-1368 | A block is read up to exactly its stated length, or the message is refused. |
| `DnsRecords.PointerReads` | lib/resolv.rb:1416-1439 | A pointer in place of a name stands for the name it points to if that lies before it, and is refused otherwise. |
| `DnsRecords.HeaderBytes` | lib/resolv.rb:1222-1236 | The twelve bytes in front of an encoded message: identifier, flags bit by bit, and the four counts. |
| `DnsRecords.AddressRecords` | lib/resolv.rb:1848-1954 | The bytes of an A and of an AAAA record: name, type 1 or 28, class 1, time to live, length and address. |
| `DnsRecords.ServiceRecord` | lib/resolv.rb:1877-1919 | The bytes of a WKS record, type 11: address, protocol and bit map. |
| `DnsRecords.StringRecords` | lib/resolv.rb:1680-1817 | The bytes of HINFO and TXT records, types 13 and 16, each string with its length in front. |
| `DnsRecords.NameRecords` | lib/resolv.rb:1569-1680 | The bytes of NS, CNAME and PTR records, types 2, 5 and 12. |
| `DnsRecords.ExchangeRecord` | lib/resolv.rb:1751-1784 | The bytes of an MX record, type 15: preference and name. |
| `DnsRecords.ServerRecord` | lib/resolv.rb:1957-2023 | The bytes of an SRV record, type 33: priority, weight, port and name, in this order. |
| `DnsRecords.AuthorityRecord` | lib/resolv.rb:1599-1668 | The bytes of an SOA record, type 6: two names and five numbers, in this order. |
| `DnsRecords.PointerBytes` | lib/resolv.rb:1296-1308 | A name that is in the table with a place below 0x4000 is put as the two bytes of a pointer to that place. |
| `DnsCompression.PutAgain` | lib/resolv.rb:1296-1308 | A name that is the end of one put before, whatever the case of its letters, is put as a pointer of two bytes and leaves the table as it is. |
| `DnsCompression.OwnerIsPointer` | lib/resolv.rb:1237-1249 | Behind any records of a section, a further record of one of their names takes two bytes for it. |
| `DnsReencode.DecodedIsOk` | lib/resolv.rb:1315-1346 | A message decoded from any bytes, if no block reaches beyond them, satisfies everything the encoder needs. |
| `DnsReencode.DecodedReturns` | lib/resolv.rb:1222-1346 | Encoding such a message in at most 0x4000 bytes and decoding again gives the same message, names up to case. |
| `DnsCodec.MessageEncoder.PutLabels` | lib/resolv.rb:1296-1308 | The loop over the suffixes appends exactly the specified bytes and table entries, returning at the first known suffix. |
| `DnsCodec.MessageEncoder.PutLength16` | lib/resolv.rb:1272-1279 | The placeholder is patched with the length of the data written behind it. |
| `DnsCodec.MessageEncoder.EncodeRData` | lib/resolv.rb:1534-2015 | The record data of every modelled class is appended as specified. |
| `DnsCodec.Encode` | lib/resolv.rb:1222-1251 | The encoder with its growing buffer and table produces exactly the specified message. |
| `DnsReader.MessageDecoder.GetLabels` | lib/resolv.rb:1416-1439 | On arbitrary bytes the loop ends with labels or a fault: every pointer must go strictly below the bound, which becomes the new bound. |
| `DnsReader.MessageDecoder.GetLength16` | lib/resolv.rb:1356-1368 | The limit is narrowed for the block and restored, and a block that is not used up exactly is a fault. |
| `DnsReader.MessageDecoder.DecodeRData` | lib/resolv.rb:1512-1518 | The class for a type and class number decodes the data, a generic class where none is registered. |
| `DnsReader.MessageDecoder.GetString` | lib/resolv.rb:1396-1402 | A string ends within the limit or is a fault. |
| `DnsReader.MessageDecoder.GetRR` | lib/resolv.rb:1451-1456 | A record is name, type, class, time to live and a length-delimited block. |
| `DnsReader.MessageDecoder.GetSections` | lib/resolv.rb:1334-1343 | The four counted sections are read one behind the other. |
| `DnsReader.Decode` | lib/resolv.rb:1315-1346 | The decoder that moves index and limit gives exactly the specified message or fault on any bytes. |
| `CsvRoundTrip.RowsRoundTrip` | lib/csv.rb:343-508 | Behind any byte order mark, parsing what was generated gives back all lists of non-empty rows, nil and the empty string kept apart, if and only if the separator is neither quote nor line feed; a carriage return works too. |
| `CsvGrammar.ParsesExactly` | lib/csv.rb:343-482 | For every separator but quote and line feed a text is parsed into given rows without an error if and only if it is a text of those rows: cells plain or in quotes, nil as nothing, rows ended by LF or, if CR is not the separator, by CRLF; the last row may lack its end, and behind a last nil a lone CR may stand. |
| `CsvGrammar.RejectsExactly` | lib/csv.rb:343-482 | A format error is raised exactly for the texts of no rows. |
| `CsvWhole.ReturnsAreRead` | lib/csv.rb:418-447 | With every row ended by CRLF all lists of non-empty rows are read back if and only if CR is not the separator. |
| `CsvWhole.TerminatedIsParsed` | lib/csv.rb:418-447 | Rows ended by LF and CRLF in any mixture are read back, an empty row as one nil. |
| `CsvWhole.TerminatedIsRead` | lib/csv.rb:591-644 | With line ends of either kind a reader gives back the rows if and only if the text does not begin with the mark. |
| `CsvWhole.ReadTerminatedString` | lib/csv.rb:591-612 | The string reader on such a text: the rows come back without an error exactly in that case. |
| `CsvWhole.ReadTerminatedStream` | lib/csv.rb:615-644 | The stream reader on such a text, however it is cut into chunks: the same. |
| `CsvWhole.WrittenIsRead` | lib/csv.rb:591-644 | A reader, which drops a byte order mark, gives back the rows that were written if and only if the text written does not begin with the mark. |
| `CsvWhole.MarkCell` | lib/csv.rb:591-600 | The text written for a single cell that holds the mark begins with the mark, so that this row is not read back. |
| `CsvWhole.WriteThenReadString` | lib/csv.rb:591-694 | Writer and string reader together: the rows come back without an error exactly in that case. |
| `CsvWhole.ReadWrittenStream` | lib/csv.rb:615-694 | Writer and stream reader together, however the stream is cut into chunks: the same. |
| `CsvWhole.GeneratedIsShortest` | lib/csv.rb:343-508 | Any text parsed into some rows is at most one character shorter than the text generated for them. |
| `CsvRoundTrip.UnusableSeparator` | lib/csv.rb:343-482 | With a quote or a line feed as separator the row of two plain cells is not read back. |
| `CsvRoundTrip.NormalRoundTrip` | lib/csv.rb:271-301 | With empty rows allowed, each comes back as the row of one nil. |
| `CsvRoundTrip.CellRoundTrip` | lib/csv.rb:343-500 | A generated cell in front of a separator or the end is read back as that cell with the index behind the separator. |
| `CsvRoundTrip.LineRoundTrip` | lib/csv.rb:160-183 | A generated line is parsed into its row. |
| `CsvStream.StreamBuf.Get` | lib/csv.rb:803-831 | A character of the stream is that of the flat remaining text, whatever the chunks. |
| `CsvStream.StreamBuf.GetString` | lib/csv.rb:803-847 | A partial string collected across buffers is that of the flat remaining text. |
| `CsvStream.StreamBuf.Drop` | lib/csv.rb:854-880 | Dropping within the remaining text removes exactly that many characters from its front. |
| `CsvStream.StreamBuf.AddBuf` | lib/csv.rb:917-939 | One more chunk is appended behind the others, or the end is noted, the buffers before it untouched. |
| `CsvStream.StreamBuf.RelBuf` | lib/csv.rb:941-953 | The current buffer is given up and the next one, if there is one, becomes current. |
| `CsvStream.StreamBuf.EosIsEmpty` | lib/csv.rb:882-957 | The end is reported exactly when no text remains. |
| `CsvReader.ReadBody` | lib/csv.rb:343-482 | The loop over characters and state variables gives the cell, separator and index of the automaton, on a string and on a stream. |
| `CsvReader.ReadRow` | lib/csv.rb:214-241 | The loop over cells gives the row and the index behind it, or zeros at the end and for a format error. |
| `CsvReader.ReadLine` | lib/csv.rb:148-157 | The cells up to the first row separator, none for a format error. |
| `CsvReader.StringReader.Each` | lib/csv.rb:591-612 | The rows of the text and whether it ended without a format error. |
| `CsvReader.IOReader.GetRow` | lib/csv.rb:636-644 | A row is read and dropped from the stream; the index left over is zero. |
| `CsvReader.IOReader.Each` | lib/csv.rb:615-644 | The rows of the stream, which are those of its text unless nothing but the byte order mark is there. |
| `CsvReader.ParseStream` | lib/csv.rb:615-644 | However a stream is cut into chunks, the rows or the format error are those of the string reader, except that the byte order mark alone is an error for the stream only. |
| `CsvReader.ParseString` | lib/csv.rb:591-612 | The string reader gives the rows of the text behind an optional byte order mark. |
| `CsvWriter.WriteAll` | lib/csv.rb:690-694 | A writer that is given rows writes exactly the generated text. |
| `CsvWriter.GenerateRowTo` | lib/csv.rb:271-301 | The loop writes the row, left open with a column separator when more cells were asked for, and returns the number of cells. |
| `CsvWriter.GenerateLineOf` | lib/csv.rb:160-183 | The loop writes the cells with separators between them. |
| `MatrixInverse.Inverse` | lib/matrix.rb:579-582 | A returned matrix is a two-sided inverse; ErrNotRegular is raised only if there is no inverse, not even from the left; ErrDimensionMismatch exactly for matrices that are not square. |
| `MatrixInverse.Matrix.InverseFrom` | lib/matrix.rb:588-628 | Gauss-Jordan elimination in place turns the identity into the inverse, although the work array keeps stale diagonal entries. |
| `MatrixInverse.Matrix.ClearColumn` | lib/matrix.rb:603-625 | One round keeps the rows times the source equal to the logical work rows, and keeps the rows independent. |
| `MatrixInverse.FindPivot` | lib/matrix.rb:593-597 | The first row at or below k with a nonzero entry, or ErrNotRegular if there is none. |
| `MatrixElimination.EliminateOk` | lib/matrix.rb:603-616 | Subtracting a multiple of the pivot row keeps the relation to the source, the cleared column being read as a unit entry. |
| `MatrixElimination.DivideOk` | lib/matrix.rb:618-625 | Dividing the pivot row keeps it, although the work array keeps the undivided diagonal entry. |
| `MatrixElimination.ReducedInjective` | lib/matrix.rb:603-625 | A round keeps the rows linearly independent. |
| `MatrixElimination.EndIsInverse` | lib/matrix.rb:588-628 | After the last column the rows are a two-sided inverse of the source. |
| `MatrixElimination.NoPivotNoInverse` | lib/matrix.rb:593-597 | When no pivot is left no matrix is a left inverse of the source. |
| `MatrixAlgebra.MulAssociative` | lib/matrix.rb:466-481 | The product is associative for matrices of any matching sizes. |
| `MatrixAlgebra.MulIdentity` | lib/matrix.rb:189-191 | The identity matrix is neutral on both sides. |
| `MatrixInverse.Entry` | lib/matrix.rb:470-476 | The accumulating loop is the inner product of row and column. |
| `MatrixInverse.Times` | lib/matrix.rb:466-481 | The product, or ErrDimensionMismatch exactly when the sizes do not match. |
| `MatrixInverse.PowerLoop` | lib/matrix.rb:646-657 | Square and multiply gives the n-fold product for every n > 0. |
| `MatrixInverse.Pow` | lib/matrix.rb:638-657 | Powers of all integers, negative ones being inverses of the positive ones; for square matrices the power 0 and negative powers raise ErrNotRegular if and only if there is no inverse, not even from the left; a matrix that is not square has its power 1 only, else ErrDimensionMismatch. |
| `MatrixInverse.ZeroToTheZero` | lib/matrix.rb:638-645 | The power 0 of the matrix of a single 0 raises ErrNotRegular. |
| `MatrixAlgebra.PowerOfSquare` | lib/matrix.rb:649-653 | Powers of the square are the even powers. |
| `MatrixAlgebra.PowerOfInverse` | lib/matrix.rb:641-645 | Powers of an inverse are inverses of the powers. |
| `NumberMethods.Gcd2` | lib/mathn.rb:19-35 | The product of the common prime powers is the greatest common divisor Euclid finds, for all integers but zero, which raises ZeroDivisionError. |
| `NumberMethods.PrimeDivision` | lib/mathn.rb:45-66 | Ascending primes with positive exponents whose product is the number; a negative number is divided by its power of two only; zero raises ZeroDivisionError. |
| `NumberMethods.FromPrimeDivision` | lib/mathn.rb:37-43 | The product of the prime powers. |
| `NumberMethods.DivisionRoundTrip` | lib/mathn.rb:37-66 | Multiplying ascending prime powers and dividing the product gives back those prime powers. |
| `NumberMethods.FactorRoundTrip` | lib/mathn.rb:37-66 | Dividing a positive number and multiplying its prime powers gives back the number. |
| `NumberFactors.FactorisationUnique` | lib/mathn.rb:45-66 | Two lists of ascending primes with positive exponents and the same product are the same list. |
| `NumberFactors.CommonPartIsGcd` | lib/mathn.rb:19-35 | The common part of two factorisations is the greatest common divisor of their products. |
| `NumberSieve.Prime.Succ` | lib/mathn.rb:78-99 | The k-th call returns the k-th prime, and keeps the primes and their counted multiples exact. |
| `NumberSieve.Prime.Search` | lib/mathn.rb:78-95 | The search ends, at the next prime, each count a multiple of its prime just behind the seed. |
| `NumberSieve.SievedIsNext` | lib/mathn.rb:78-95 | A seed that no count hits is the next prime. |
| `NumberSieve.EveryPrimeCounted` | lib/mathn.rb:78-99 | No prime is left out by the sequence of primes returned. |
| `NumberTheory.LargerPrime` | lib/mathn.rb:78-95 | There is always a larger prime, so each call ends. |
| `NumberMethods.EuclidGcd` | lib/rational.rb:469-478 | The loop computes the greatest common divisor of the absolute values. |
| `NumberTheory.GcdIsGreatest` | lib/rational.rb:469-478 | It divides both numbers, and every common divisor divides it. |
| `NumberMethods.Reduce` | lib/rational.rb:71-86 | The same fraction in lowest terms with a positive denominator; ZeroDivisionError exactly for the denominator zero. |
| `DateCalendar.CivilRoundTrip` | lib/date.rb:396-438 | In each fixed calendar every date is found again from its day number. |
| `DateCalendar.JdRoundTrip` | lib/date.rb:396-438 | In each fixed calendar every day number has a date of the calendar and is found again from it. |
| `DateCalendar.NextDayNumber` | lib/date.rb:396-410 | The calendar's next day has the next number, over month ends, leap days and year ends. |
| `DateCalendar.NextNumberDay` | lib/date.rb:418-438 | The next number is the calendar's next day. |
| `DateReform.ReformRoundTrip` | lib/date.rb:340-438 | With a day of reform every day number is found again from its date if and only if the reform is not before day 1794169, in March of the year 200. |
| `DateValid.ValidIsFound` | lib/date.rb:620-636 | For any year, month and day, negative ones counting from the end of the year and of the month, valid_civil? gives a day number exactly when that number has the date named, in the calendar in force on that day. |
| `DateValid.ValidIsOnReformed` | lib/date.rb:620-636 | Year, month and day are valid exactly if they name a Julian date before the reform or a Gregorian one from it on. |
| `DateReform.ItalySkips` | lib/date.rb:302-302 | Of October 1582 exactly the days 5 to 14 are invalid. |
| `DateReform.EnglandSkips` | lib/date.rb:306-306 | Of September 1752 exactly the days 3 to 13 are invalid. |
| `DateValid.LookUpStyle` | lib/date.rb:624-630 | The look-up for a negative day is that of the calendar in force on the day it arrives at, and finds nothing if it arrives there by the other calendar. |
| `DateReform.NegativeDay` | lib/date.rb:620-636 | In a fixed calendar a negative day counts from the end of the month and is invalid beyond its beginning. |
| `DateCommercial.JdCommercialRoundTrip` | lib/date.rb:445-467 | Under any day of reform every day number has a week 1 to 53 and a day 1 to 7, and is found again from its week date in the calendar in force on that day, the Julian before the reform and the Gregorian from it on. |
| `DateCommercial.CommercialRoundTrip` | lib/date.rb:445-467 | Every week date of a year is found again from its day number. |
| `DateCommercial.ThursdayDecides` | lib/date.rb:459-467 | In the calendar in force the week year is the civil year of the week's Thursday, and weeks are counted by Thursdays. |
| `DateCommercial.ValidWeekIsFound` | lib/date.rb:654-668 | For any year, week and day, negative ones counting from the end: valid_commercial? gives a day number if and only if the Gregorian calendar is in force on that day and its week date is the one that is named. |
| `DateCalendar.LeapYears` | lib/date.rb:564-570 | A Gregorian leap year is a Julian one that is not one of the lost centuries. |
| `MonitorSafety.EveryRunIsSafe` | lib/monitor.rb:147-278 | In every interleaving at most one thread is inside, the monitor is free exactly when its count is zero, and when it is free with a thread blocked on it another contender has been signalled. |
| `MonitorSafety.StepInv` | lib/monitor.rb:147-298 | Every critical section keeps owner, count, queues and the two waiter counters right, and loses no wake-up. |
| `MonitorSafety.SignalledTakes` | lib/monitor.rb:237-243 | A signalled contender that finds the monitor free takes it, with the count 1 when it enters and with its saved count behind a wait. |
| `MonitorSafety.StepGain` | lib/monitor.rb:147-278 | Only entering and leaving change how deep a thread is inside, by one, and a thread enters exactly if no other owns the monitor; waiting keeps the depth. |
| `MonitorSafety.DepthIsKept` | lib/monitor.rb:255-278 | Over every run a thread inside has the count of its entries less its exits: a waiter gets its saved count back. |
| `MonitorOrder.SignalWakesLongest` | lib/monitor.rb:280-285 | In every run a signal wakes the thread that has waited longest on the condition, and moves no other thread. |
| `MonitorOrder.BroadcastWakesAll` | lib/monitor.rb:287-292 | In every run a broadcast wakes every thread that waits on the condition, and moves no other thread. |
| `MonitorOrder.ExitWakesLongest` | lib/monitor.rb:174-253 | In every run leaving the monitor wakes the thread that has been blocked longest: one that came back from a wait as long as any such thread contends, otherwise one that enters. |
| `MonitorOrder.StepInLine` | lib/monitor.rb:147-292 | Every critical section keeps every queue in the order in which its threads blocked. |
| `MonitorObject.Monitor.TryEnter` | lib/monitor.rb:147-157 | Takes a free monitor or one more level of the own one, and says whether it did. |
| `MonitorObject.Monitor.Enter` | lib/monitor.rb:164-169 | Takes the monitor, or queues the thread. |
| `MonitorObject.Monitor.Exit` | lib/monitor.rb:174-181 | Gives up one level; the last one releases the monitor and signals a contender; ThreadError for a thread that is not the owner. |
| `MonitorObject.Monitor.Wait` | lib/monitor.rb:255-278 | Saves the count, releases the monitor and waits; ThreadError for a thread that is not the owner. |
| `MonitorObject.Monitor.Resume` | lib/monitor.rb:269-275 | Behind the wait the thread contends for the monitor and restores its count. |
| `MonitorObject.Monitor.AcquireAgain` | lib/monitor.rb:237-243 | One look of the acquiring loop: taken, or queued again. |
| `MonitorObject.Monitor.ReleaseMonitor` | lib/monitor.rb:245-253 | Clears the owner and signals a waiter if there is one, otherwise a thread that wants to enter. |
| `MonitorObject.Monitor.Signal` | lib/monitor.rb:280-285 | Wakes the first waiter of a condition. |
| `MonitorObject.Monitor.Broadcast` | lib/monitor.rb:287-292 | Wakes all waiters of a condition. |
| `MonitorObject.Monitor.CountWaiters` | lib/monitor.rb:294-298 | The number of threads that are between waiting on a condition and having the monitor back. |
| `ActorMailbox.EveryRunConserves` | lib/actor.rb:216-307 | In every interleaving each message accepted by a live actor is in exactly one of mailbox, hand-over slot or delivered, exits likewise are pending or raised, at most one token is ready, and a waiting actor has no message its filter matches. |
| `ActorMailbox.WakeHasAction` | lib/actor.rb:276-307 | In every run a receiver that wakes without an interrupt finds an action, and it is the one its filter gives for the message handed over: nil is never called. |
| `ActorOrder.EveryRunIsInOrder` | lib/actor.rb:216-307 | Numbering the messages as they arrive, those put back included: in every run the mailbox holds the ones still there in the order of arrival, and exits are raised in the order in which they were notified. |
| `ActorOrder.ReceivesEarliest` | lib/actor.rb:248-307 | In every run a receive delivers the earliest message still there that its filter matches, waits if and only if there is none, and gives way to the oldest exit. |
| `ActorOrder.StepInOrder` | lib/actor.rb:216-393 | Every critical section keeps that order. |
| `ActorMailbox.StepInv` | lib/actor.rb:216-393 | Every critical section keeps the handshake of filter, slot and token. |
| `ActorLinks.ExitsReachLinked` | lib/actor.rb:313-393 | If B was passed to A's notify_link before, during or after A's death with a reason, then once that call and A's watchdog are done B has had the exit, with A's reason, queued as an interrupt, or is dead. |
| `ActorLinks.StepInv` | lib/actor.rb:313-393 | Every step of linking, dying and notifying keeps the news of an exit on its way to each linked actor. |
| `ActorObject.Actor.Send` | lib/actor.rb:216-236 | Hands over to a waiting receiver whose filter matches, otherwise queues; a dead actor ignores the message. |
| `ActorObject.Actor.ReceiveFirst` | lib/actor.rb:249-275 | Up to the wait: an interrupt is raised, the first matching message is taken out, or the filter is left for the senders. |
| `ActorObject.Actor.ReceiveLast` | lib/actor.rb:276-307 | Behind the wait: the message handed over is taken, or an interrupt is raised and the message put back. |
| `ActorObject.Actor.ShiftInterrupt` | lib/actor.rb:239-247 | The oldest interrupt is taken out and raised. |
| `ActorObject.Actor.NotifyLink` | lib/actor.rb:313-326 | A live actor adds the link once; a dead one answers with its exit reason. |
| `ActorObject.Actor.NotifyExited` | lib/actor.rb:347-365 | A live actor removes the link, and queues an interrupt and wakes a waiting receiver when there is a reason. |
| `ActorObject.Actor.Watchdog` | lib/actor.rb:367-393 | The critical section of dying: links are handed to the notifying loop, everything else is cleared. |
| `PathMethods.Clean` | lib/pathname.rb:318-340 | The cleaned path is the one clean form of the place the path denotes, and no other path to that place is shorter but the empty one, which is cleaned to a dot. |
| `PathLength.CleanIsShortest` | lib/pathname.rb:318-340 | Every path but the empty one is at least as long as the clean path to the place it denotes. |
| `PathRelative.CleanResolves` | lib/pathname.rb:318-340 | In a tree without symbolic links the cleaned path leads to the same directory from everywhere. |
| `PathRelative.CleanIdempotent` | lib/pathname.rb:318-340 | Cleaning a cleaned path changes nothing. |
| `PathRelative.CleanShape` | lib/pathname.rb:318-340 | In a cleaned path parent names stand only at the front of relative paths, and a dot only alone. |
| `PathMethods.Plus` | lib/pathname.rb:586-625 | Joining denotes going on from the first path along the second; an absolute second path is the result. It is written as the front of the first and the rear of the second, as they are, with a separator between them, and without a dot or a name and a parent taking each other back at the joint. |
| `PathMethods.Indexes` | lib/pathname.rb:587-595 | The second path is taken apart into its components and where each begins. |
| `PathMethods.SkipDots` | lib/pathname.rb:598-617 | Dropping dots, and parents at the root, does not change where the two parts lead. |
| `PathRelative.RelativePathFrom` | lib/pathname.rb:693-727 | ArgumentError exactly if one path is absolute and the other is not or the base goes further up than the destination; otherwise the result is a clean relative path that leads from base to destination, and none is shorter but the empty one. |
| `PathRelative.Between` | lib/pathname.rb:711-726 | Dropping the common front and going up for what is left of the base leads to the destination, on the shortest way. |
| `PathRelative.UpRemains` | lib/pathname.rb:716-718 | A parent name is left in the base exactly if the base goes further up than the destination. |
| `PathRelative.RelativeComesBack` | lib/pathname.rb:586-727 | Relativising, joining to the base and cleaning gives the cleaned destination whenever the first step succeeds, which leads where the destination leads from everywhere. |
| `PathPlace.CleanNamesIsWalk` | lib/pathname.rb:318-340 | The loop over components from the right keeps exactly the components of the place walked to from the left. |
| `PathPlace.CleanRoot` | lib/pathname.rb:333-340 | At the root the leading parents are dropped because the root is its own parent. |
| `PathPlace.ShowDenotes` | lib/pathname.rb:285-296 | The path written for a place denotes that place. |
| `PathNames.NamesSpec` | lib/pathname.rb:264-282 | Chopping names from the end leaves components without separators and a prefix of separators. |
| `PathNames.JoinNames` | lib/pathname.rb:285-296 | Components joined with separators are split into the same components. |
| `StoreTransaction.CrashSafe` | lib/pstore.rb:284-372 | A write transaction that stops behind any of its elementary file operations leaves exactly the old logical content before the rename and exactly the new one from it on. |
| `StoreTransaction.EveryRunIsAtomic` | lib/pstore.rb:284-372 | Over any sequence of crashing and finishing transactions the logical content is exactly what the last one that got behind its rename wanted to save from the disk it found, or the first content if none did. |
| `StoreTransaction.Finished` | lib/pstore.rb:284-372 | A finished transaction leaves its content in the store's file and no new file. |
| `StoreTransaction.AbortedChangesNothing` | lib/pstore.rb:261-265 | A transaction that ends by abort or an exception changes no logical content, crashed or not. |
| `StoreTransaction.UnchangedKeepsTable` | lib/pstore.rb:295-317 | A block that changes nothing keeps the table if and only if there is nothing to recover or the recovered table is empty: behind a recovery the block starts with an empty table. |
| `StoreTransaction.BlockTable` | lib/pstore.rb:284-340 | A finished transaction leaves the table its block ended with, by itself or by commit, and the stored table when it ended by abort or by an exception. |
| `StoreTransaction.BlocksTakeEffect` | lib/pstore.rb:295-335 | A finished transaction leaves what its block makes of the table that was stored, for every block, if and only if there is nothing to recover or the recovered table is empty. |
| `StoreTransaction.ReadOnlyIsLogical` | lib/pstore.rb:299-307 | A read-only transaction reads the logical content. |
| `StoreDisk.SaveFlips` | lib/pstore.rb:329-335 | Saving keeps the old logical content up to the rename and shows the new one from it on, at every operation. |
| `StoreDisk.BeginKeeps` | lib/pstore.rb:295-298 | Recovery shows the same logical content at every operation and leaves it in the store's file alone. |
| `StoreDisk.CommitNewKeeps` | lib/pstore.rb:364-372 | Copying the new file over the store's file and unlinking it never changes the logical content. |
| `StoreObject.PStore.Transaction` | lib/pstore.rb:284-345 | The method performs exactly the specified operations in order, raises what the block raises, refuses to nest and always ends the transaction. |
| `StoreObject.PStore.CommitNewFile` | lib/pstore.rb:364-372 | Truncate, copy, unlink, with the file position left where the copy ended. |
| `StoreObject.PStore.OpenForWriting` | lib/pstore.rb:295-298 | Recovers if there is a new file, and reads from the position where that left the file. |
| `StoreObject.PStore.SaveTable` | lib/pstore.rb:328-335 | Writes, renames and commits when the dumped table differs from what was read or nothing was read. |
| `StoreObject.PStore.ReadTransaction` | lib/pstore.rb:299-317 | Gives the table of the logical content and changes no file. |
| `JoinRuns.EveryRun` | lib/join.rb:82-119 | For chords with distinct names, after any calls in any order: bit i is set exactly when queue i is not empty, no chord is still fully enabled, what threads took from a channel followed by its queue is what was sent on it in order, and replies belong to the threads that took their values. |
| `JoinRuns.CallerAnsweredOnce` | lib/join.rb:82-118 | A synchronous caller is answered exactly when its value has left the queue, and by the one thread that was given it. |
| `JoinRuns.SendKeepsCore` | lib/join.rb:82-113 | A send keeps the mask exact, never raises, and starts the first chord whose queues all hold something, giving it their heads, or none if there is none; no chord is enabled afterwards. |
| `JoinRuns.QuietAfter` | lib/join.rb:91-109 | One firing is enough: the queue that completed the chord is empty again, so no other chord is left enabled. |
| `JoinRuns.TakeDraws` | lib/join.rb:93-105 | A firing takes the head of each named queue, in the order of the names, and leaves the other queues alone. |
| `JoinRuns.StepInOrder` | lib/join.rb:89-97 | A send keeps every channel first in, first out. |
| `JoinRuns.StepReplied` | lib/join.rb:95-107 | A send keeps answers and consumed synchronous values in step. |
| `JoinSafety.SafeIffDistinct` | lib/join.rb:13-23 | Firing a chord from any exact state that enables it keeps the mask exact and never raises if and only if the chord names no channel twice. |
| `JoinSafety.ExactAfterTakeIff` | lib/join.rb:95-105 | For any chord and any exact state a firing that does not raise keeps the mask exact if and only if each queue keeps an item or is shifted past its end an even number of times. |
| `JoinSafety.RaisedIff` | lib/join.rb:97-99 | A firing raises if and only if it asks a synchronous queue for more than it holds. |
| `JoinRuns.RepeatedNameLeavesBit` | lib/join.rb:13-23 | With a chord that names its only channel twice one call leaves the queue empty and its bit set, and the thread gets a nil that was never sent. |
| `JoinSafety.EnabledMeansReady` | lib/join.rb:92-92 | The mask comparison holds exactly when every queue the chord names has an item. |
| `JoinBits.CoveredBits` | lib/join.rb:92-92 | The bitwise and with a mask equals the mask exactly when all its bits are set. |
| `JoinRules.MaskBit` | lib/join.rb:18-18 | The mask of a chord has exactly the bits of its channels. |
| `JoinObject.Definition.DefChannels` | lib/join.rb:37-47 | Known names keep their numbers and new ones get the next numbers; the numbers are distinct exactly if the names are. |
| `JoinObject.Definition.AddChord` | lib/join.rb:13-23 | A chord is added with the mask and numbers of its names; without names ArgumentError is raised and nothing changes. |
| `JoinObject.Definition.Mark` | lib/join.rb:25-35 | The named channels become synchronous or asynchronous, the others stay. |
| `JoinObject.Definition.Finish` | lib/join.rb:53-59 | Later chords are tried first, the numbers of all chords are distinct exactly if their names are, and then every run of an object is safe. |
| `JoinClasses.SafeIffNotDangerous` | lib/join.rb:13-119 | For any class, repeated names included: in every run the mask stays exact and no send raises, if and only if no chord can both fire and go wrong. A chord can fire by a call of channel i exactly if no earlier tried chord lies inside its channels and no chord inside them without i; it goes wrong if it repeats another channel, or repeats i an even number of times or where i is synchronous. |
| `JoinClasses.RepeatedNeedsTurn` | lib/join.rb:82-119 | If no chord with a repeated name can get its turn, every run of every object is safe. |
| `JoinClasses.Completes` | lib/join.rb:91-109 | A call that readies a chord found its own queue empty, and is a call by which that chord can fire. |
| `JoinClasses.FillRun` | lib/join.rb:82-92 | As long as no chord lies inside the channels called, values only queue up and the mask stays exact. |
| `JoinObject.Joined.ChannelSend` | lib/join.rb:82-119 | One call under the lock leaves exactly the specified queues, mask, threads and answers, and returns, waits or raises as specified. |
| `JoinObject.Joined.TakeItems` | lib/join.rb:95-105 | The loop over a chord's channels shifts the queues, collects arguments and waiters, and clears the bits of queues that run dry. |

## Left out

- Pretty printer: an explicit flush in the middle of a block, exceptions in blocks, `first?` and `fill_breakable`;
  groups are numbers in an arena instead of linked objects, texts are strings, and `group` with open and close objects
  is text, `group_sub`, `nest` and text.
- DnsRoundTrip.MessageRoundTrip: messages longer than 0x4000 bytes, where a pointer may need more than its 14 bits (the
  model cuts it as the encoder does), with no condition stated on the reused suffixes alone, and labels of 192 bytes and
  more, which look like pointers.
- DNS: MINFO, which writes names and reads strings; integers read behind the end of the data; request ids; `Name#==`;
  query classes are only their numbers.
- CSV: column separators of several characters, a row separator of one's own, files, and restarting a string reader
  behind its end.
- CsvStream.StreamBuf.Drop: dropping more than the text that remains, where the loop of the source does not end.
- CsvStream.StreamBuf.constructor: reads that return an empty string or more characters than were asked for.
- Matrix: rank, determinants, scalars, vectors, floats and truncating integer division; matrices have at least one row.
- Number theory: square roots in floats, fractional powers and `power2`.
- Date: DateTime, parsing and formatting, ordinal and week-number dates, and the rounding of floats
  for very large years.
- DateValid.ValidIsFound: days of reform before day 1794169, where some day numbers are not found from their own dates.
- Monitor: killed threads and asynchronous interrupts while waiting, and fairness; a time limit is a step that may
  happen at any time.
- Actors: receiving with a time limit, trapping exits, unlinking, exits sent by hand and the registry; a filter is a
  partial function from messages to actions.
- ActorLinks.ExitsReachLinked: nothing is said about an actor that ends without a reason, which notifies without an
  interrupt.
- Join: a missing block, the results of actions and when threads finish; reply channels are numbered by their calls.
- Paths: symbolic links, `realpath`, the facade of file operations, other separators, conservative cleaning, and the
  check for NUL characters.
- PStore: marshalling is a pair of inverse functions, locks are not modelled because transactions follow one another,
  digests do not collide, and the table operations inside a block are the block's.
