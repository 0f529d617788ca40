# gosoline: models and proofs

gosoline is a Go application framework. Most of it is wiring; this project models the small pieces in it that carry
real logic, and proves what they promise. `dafny verify dfyconfig.toml` checks everything.

- **Mail encoding** (`Bytes`, `AsciiFields`, `Base64`, `Utf8`, `Decimal`, `HeaderText`, `HeaderFolding`, `HeaderLines`,
  `EncodedWords`, `EncodedWordReader`, `EncodedWordHeaders`, `HeaderValues`, `MimeBase64`, `MimeParameters`,
  `MimeParameterReader`, `AttachmentHeaders`). The printers of `pkg/email` are methods; the readers are written from the
  standards (RFC 5322, 2045, 2047, 2231, 4648, 3629) and know nothing of the printers. The results are round trips and
  length bounds.
- **Concurrent protocols** (`KeyLock`, `KeyLockObject`, `Container`, `HealthWatch`, `HealthServer`, `CircuitBreaker`,
  `CircuitBreakerClient`, `ConnectionPressure`, `ConnectionPressureManager`, `ConnectionLimit`, `FakeClock`,
  `FakeClockObject`). Each is a state machine whose steps are the atomic pieces of the code; invariants hold over every
  run. Beside it stands a class with the source's fields whose methods are those pieces in place and do exactly what the
  steps say, or that lets the other threads in between its atomic operations.
- **SQL builder** (`SqlPieces`, `SqlFragments`, `SqlExpressions`, `SqlSoundness`, `SqlPlaceholders`, `SqlStatements`,
  `SqlStatementSoundness`, `SqlSeams`, `SqlStatementSeams`, `SqlArgumentOrder`, `SqlReader`, `SqlSyntax`,
  `SqlConditions`, `SqlConditionLaw`, `SqlClauseReader`, `SqlClauses`, `SqlRows`). A statement means a list of pieces in
  which each hole carries its own argument. The code builds text and arguments apart; the law is that a database which
  pairs them up again reads the meaning.
- **DynamoDB client** (`DynamoBatch`, `DynamoPaging`). The server is nondeterministic and promises no more than the
  client relies on.
- **Algorithms** (`WrapLine`, `HistoricalRates`, `StatementSplitting`).

Automatic induction is switched off in every lemma: proofs by induction call themselves. Fields and datatype parts that
are "kept for the statements" (histories, what was sent on a channel) have no counterpart in the source and are never
read by the modelled code.

Where a promise does not hold of the code, the model keeps the code, a lemma shows an input, and another says exactly
when the promise holds:

- `encodeHeader` reads back: `HeaderValues.EncodeHeaderReadsBack`, with the input in `EncodedWordAsValue`.
- SQL expressions and statements are read as they were meant: `SqlSeams.HolesGetTheirArgumentsExactlyWhen` and
  `SqlStatementSeams.StatementReadAsMeantExactlyWhen`, with `SqlSoundness.ConcatCanMakeAnEscape`.
- Numbered holes get their arguments: `SqlPlaceholders.NumberedReadsBack` and `ClearExactlyWhen`, with
  `DigitAfterHoleClashes`.
- `??` is a question mark to the database: with `?` as the format, which is the default, `??` stays in the text. For a
  database that knows no such escape `SqlPlaceholders.PlainReadsBack` has the condition.
- A folded line has at most 998 bytes: `HeaderLines.FoldedLines`, with `EmptyLayout`.
- At most one retry in the retry delay, as the comment on `doRequest` has it: `CircuitBreaker.DelayCutShortExactlyWhen`
  and `ProbesAreSpacedUnless`, with `TwoProbesAtOnce`.
- A clause is the list of its parts: `SqlClauses.ClauseIsListExactlyWhen`, with `SeparatorInFront`.
- `Advance` never blocks: `FakeClock.AdvanceBlocksExactlyWhen`, with `NegativeDurationBlocksAdvance` and
  `GoingBackBlocksAdvance`.
- No call of `BlockUntil` sleeps through its wake-up: `FakeClock.NoWakeUpIsLostExactlyWhen`, with
  `GoingBackLosesAWakeUp`.

The gauge of open connections is the number of connections for every order in which net/http reports
(`ConnectionPressure.GaugeIsTheNumberOfConnections`); `GaugeIsRightExactlyWhen` says what it would be for other reports.

## Model

| member | source | states |
|---|---|---|
| HeaderFolding.AppendFoldedHeaderWord | pkg/email/mime_headers.go:143-166 | adds one word with its white space to the text, folding exactly when the word would pass column 78 and the line holds more than the name; fails exactly when a line would pass 998 bytes; the returned line length is that of the last line |
| HeaderFolding.TakeWord | pkg/email/mime_headers.go:88-141 | takes one run of white space or one word off the value and keeps the word layout that the rest leads to |
| HeaderFolding.FoldHeader | pkg/email/mime_headers.go:88-141 | folds a header field into the word layout of its value, or reports a line break in the value or a line that cannot be made to fit |
| HeaderLines.FoldedLines | pkg/email/mime_headers.go:88-166 | for every header that folds, whatever the name and value: a reader finds no line over 998 bytes if and only if the value is not empty or the name leaves room for it; every continuation line starts with a space, holds a word, and was needed; without its last word no line passes 78 bytes or the name; and the lines carry `name: value` |
| HeaderLines.LayoutShape | pkg/email/mime_headers.go:88-166 | the same shape and text for the layout itself, also where the header is refused for its length |
| HeaderLines.UnfoldReturnsText | pkg/email/mime_headers.go:88-141 | unfolding by section 2.2.3 of RFC 5322 returns `name: value` byte for byte, except that the first character of each continuation line, a space or a tab, comes back as a space |
| HeaderLines.EmptyLayout | pkg/email/mime_headers.go:88-141 | an empty value gives the one line `name: `, whose length the code does not check; FoldedLines has the exact condition |
| HeaderLines.FoldsWhenWordsFit | pkg/email/mime_headers.go:88-166 | a line break in the value is refused and nothing else is refused for one; a header folds when its words fit behind the field name, and is refused as too long when some word cannot fit on a line of its own |
| HeaderText.LinesOfJoin | pkg/email/mime_headers.go:88-141 | lines without line breaks, joined by CRLF, are found again by a reader |
| HeaderText.UnfoldOfJoin | pkg/email/mime_headers.go:88-141 | unfolding joined lines that start with white space gives their concatenation |
| HeaderText.TokensCover | pkg/email/mime_headers.go:88-141 | the words of a value with the white space before them, and the white space at its end, are the value: nothing is lost in tokenising |
| EncodedWords.EncodedWordLength | pkg/email/mime_headers.go:209-223 | the most bytes, up to 45, that end between two UTF-8 runes |
| EncodedWords.EncodeHeaderWords | pkg/email/mime_headers.go:198-207 | one encoded word for each piece of the value, with single spaces between them |
| Utf8.CutKeepsRunes | pkg/email/mime_headers.go:209-223 | cutting a string at that length leaves every rune, valid or not, on one side or the other |
| Utf8.TakesAllThatFit | pkg/email/mime_headers.go:209-223 | one more rune would pass the 45 bytes: the pieces are as long as they can be |
| EncodedWordHeaders.EncodedWordShape | pkg/email/mime_headers.go:198-223 | each encoded word has 16 to 72 characters (the limit of section 2 of RFC 2047 is 75), at least 68 unless it is short of 42 payload bytes, holds no white space, and decodes to its payload |
| EncodedWordHeaders.WordsOfValue | pkg/email/mime_headers.go:198-207 | the words of a value all have those sizes, only the last may be short, and decoding them one by one returns the value |
| EncodedWordHeaders.PayloadsKeepRunes | pkg/email/mime_headers.go:198-223 | no UTF-8 rune is split between two words (section 5 of RFC 2047) |
| EncodedWordHeaders.DecodeHeaderWords | pkg/email/mime_headers.go:198-207 | a reader of RFC 2047, who drops the space between encoded words, gets back every value |
| EncodedWordHeaders.EncodedHeader | pkg/email/mime_headers.go:88-224 | for every value that is not empty and every name of at most 67 bytes: folding the encoded value never fails; every line holds exactly one encoded word of at most 72 characters, continuation lines a space and that word (73); no rune is split; unfolding gives `name: ` and the words; decoding gives the value |
| HeaderValues.EncodeHeaderReadsBack | pkg/email/mime_headers.go:168-196 | exact condition for encodeHeader: a reader of RFC 2047 gets the value back if and only if it was encoded or none of its words has the shape of an encoded word, in whatever character set, encoding and case |
| HeaderValues.EncodeHeaderExactlyWhen | pkg/email/mime_headers.go:168-207 | what goes out, said of bytes and fields alone: ASCII for every value; an ASCII value without a field over 997 bytes goes out unchanged; any other goes out as encoded words of at most 72 characters and nothing else |
| HeaderValues.LongFields | pkg/email/mime_headers.go:178-196 | the scan for long tokens finds one exactly when some field of the value is over 997 bytes |
| EncodedWordReader.ShapeIs | pkg/email/mime_headers.go:198-207 | the reader finds the character set, encoding and text that a word was written from: words of the shape of section 2 of RFC 2047, whoever wrote them |
| EncodedWordReader.ShapeReadsParts | pkg/email/mime_headers.go:198-207 | and nothing else has the shape: a word that the reader takes apart is written from those parts |
| HeaderValues.EncodedWordAsValue | pkg/email/mime_headers.go:168-196 | the failing family: a value that is itself an encoded word goes out as it is and is read as its payload |
| HeaderValues.NonAsciiBytes | pkg/email/mime_headers.go:178-196 | a value needs encoding for its characters exactly when some byte is not ASCII |
| MimeBase64.MimeBase64Writer.Write | pkg/email/mime_base64.go:41-68 | appends the data with a line break after every 76th character, counted across calls; fails exactly when the writer underneath fails or takes too little, and then what has been written is a prefix of that |
| MimeBase64.WriteMIMEBase64 | pkg/email/mime_base64.go:8-22 | whatever pieces the encoder hands over, a call writes the one body that belongs to the data, or fails exactly when the writer underneath fails or takes too little |
| MimeBase64.WrapAppend | pkg/email/mime_base64.go:41-68 | writing two pieces is writing their concatenation: the output does not depend on the split |
| MimeBase64.ColumnIsRemainder | pkg/email/mime_base64.go:41-68 | the column after any writes is the number of characters so far modulo 76 |
| MimeBase64.BodyLines | pkg/email/mime_base64.go:8-68 | the lines of a body: at most 76 characters (section 6.8 of RFC 2045), none empty, each ended by CRLF, only the last one shorter |
| MimeBase64.BodyReadsBack | pkg/email/mime_base64.go:8-68 | every body has those lines, and removing line breaks and decoding returns the data |
| Base64.RoundTrip | pkg/email/mime_base64.go:8-22 | decoding by section 4 of RFC 4648 undoes encoding, for all data |
| Base64.EncodeShape | pkg/email/mime_base64.go:8-22 | four characters for every three bytes begun, all from the base64 alphabet or padding |
| MimeParameters.EncodeRFC2231Parameter | pkg/email/mime_parameters.go:46-63 | the value escaped byte by byte and cut greedily, with the character set in front of the first chunk; never without a chunk |
| MimeParameters.FormatLongMediaTypeParameters | pkg/email/mime_parameters.go:23-44 | the media type and, for every parameter in order, its numbered sections |
| MimeParameters.AppendSections | pkg/email/mime_parameters.go:23-44 | the sections of one parameter, numbered from 0 |
| MimeParameterReader.ParameterChunks | pkg/email/mime_parameters.go:46-78 | chunks have at most 45 characters before the character set, never cut a percent escape, decode piece by piece to the value, and every chunk but the last is full |
| MimeParameterReader.LongParametersReadBack | pkg/email/mime_parameters.go:23-78 | a reader of sections 3, 4 and 4.1 of RFC 2231 gets back every parameter, for every media type without a semicolon and all parameters whose keys are attributes that differ in lower case |
| AttachmentHeaders.FormatAttachmentHeaderValue | pkg/email/mime_parameters.go:13-21 | the folded value that the library formats, or else that of the long form |
| AttachmentHeaders.LongFormFolds | pkg/email/mime_parameters.go:13-44 | the fallback never fails for a media type without white space and keys that leave room beside the field name: name, key and the digits of the value's length within 940 characters, name and media type within 995 |
| AttachmentHeaders.AttachmentHeaderReadsBack | pkg/email/mime_parameters.go:13-78 | folding within those bounds succeeds, every line keeps its limits, unfolding returns the long form byte for byte, and a reader finds every parameter in it |
| AttachmentHeaders.NameComesFirst | pkg/email/mime_headers.go:79-86 | a folded header starts with its name, so that trimming it off loses nothing |
| MimeParameterReader.EscapeDecodes | pkg/email/mime_parameters.go:65-78 | a byte written as itself or as a percent escape is read back |
| KeyLock.StepKeepsInv | pkg/conc/key_lock.go:32-55 | every atomic step of lock, wait and unlock keeps the invariant: one holder of the map's mutex, all waiters and holders of a key at the entry stored under it, counts, owners, no stale entry |
| KeyLock.EveryRunKeepsInv | pkg/conc/key_lock.go:32-55 | so does every run of any number of calls, interleaved in any way |
| KeyLock.MutualExclusion | pkg/conc/key_lock.go:32-55 | in every reachable state at most one call holds a key |
| KeyLock.WaitersShareTheEntry | pkg/conc/key_lock.go:32-55 | in every reachable state each waiter or holder of a key points at the entry the map has for it, and that entry's refCount is the number of such calls |
| KeyLock.NoEntryLeaks | pkg/conc/key_lock.go:32-55 | once all calls are over the map is empty |
| KeyLock.SomeCallCanGoOn | pkg/conc/key_lock.go:32-55 | the lock never deadlocks by itself: while some call is not over, a call that has begun can take its next step |
| KeyLock.UncontendedLock | pkg/conc/key_lock.go:32-55 | a key that nobody uses is locked in three steps that do not wait, under a new entry with one reference |
| KeyLockObject.KeyedLock.constructor | pkg/conc/key_lock.go:25-30 | a new lock is the initial state of the protocol |
| KeyLockObject.KeyedLock.Enter | pkg/conc/key_lock.go:32-33 | taking the map's mutex is the step Enter |
| KeyLockObject.KeyedLock.FindOrMake | pkg/conc/key_lock.go:34-38 | the entry under the key, or a new one that nobody else has |
| KeyLockObject.KeyedLock.Register | pkg/conc/key_lock.go:34-40 | looking up or making the entry and counting it is the step Register, on the map and the entries in place |
| KeyLockObject.KeyedLock.Take | pkg/conc/key_lock.go:42-42 | taking the entry's mutex is the step Take |
| KeyLockObject.KeyedLock.BeginUnlock | pkg/conc/key_lock.go:44-47 | giving the reference back is the step BeginUnlock |
| KeyLockObject.KeyedLock.Release | pkg/conc/key_lock.go:48-48 | releasing the entry's mutex is the step Release |
| KeyLockObject.KeyedLock.Finish | pkg/conc/key_lock.go:49-53 | removing the entry when nobody uses it is the step Finish |
| KeyLockObject.KeyedLock.SafeWhenInv | pkg/conc/key_lock.go:32-55 | the protocol's invariant is all that the pieces of code need to be safe |
| Container.StepKeepsInv | pkg/appctx/container.go:51-101 | every step of Provide, Get and the lock under them keeps: a call in the middle of its body holds its key, and while it has missed nobody has stored under it |
| Container.StoredForGood | pkg/appctx/container.go:51-76 | what has been stored under a key is never overwritten, in any run |
| Container.OneValuePerKey | pkg/appctx/container.go:51-101 | every successful Provide or Get of a key, at any point of any run, returns the one value the container has for it ever after |
| Container.OnceProvidedAlwaysFound | pkg/appctx/container.go:51-101 | once a key has a value, at any point of any run, each Get or Provide that has not looked yet ends with that value: Get never misses what was provided |
| Container.FactoriesDoNotRace | pkg/appctx/container.go:51-76 | no two calls run the factory of one key at once, and none runs it when the key has a value |
| Container.Items.Provide | pkg/appctx/container.go:66-75 | the body under the lock: the stored value, else the factory's value, which is then stored, else its error |
| Container.StepsOfGet | pkg/appctx/container.go:83-101 | the steps of one Get up to the end of its unlock: each goes through, nothing is stored, the key is free again, and the outcome is the stored value or the missing-item error |
| Container.StepsOfProvide | pkg/appctx/container.go:66-75 | the interleaved steps, run without another call in between, are that body |
| Container.CallsStart | pkg/appctx/container.go:51-101 | a call starts when the mutex of the lock's map is free, and then wants the lock of its key |
| SqlPieces.ReadsBackExactlyWhen | pkg/dbx/placeholder.go:68-95 | text and arguments are read back as the pieces they were written from if and only if every hole has its argument and nothing but a literal follows a hole |
| SqlPieces.Unread | pkg/dbx/placeholder.go:68-95 | whatever a database makes of a text and its arguments has that text and those arguments, and is of that form |
| SqlPieces.SoundAppend | pkg/dbx/expr.go:89-107 | two sound texts side by side are sound exactly when the first does not end in a hole or the second starts with a literal |
| SqlFragments.FillSound | pkg/dbx/expr.go:32-85 | a fragment with as many holes as arguments, filled with sound expressions, is sound: nesting never makes or breaks an escape |
| SqlFragments.JoinedSound | pkg/dbx/expr.go:391-411 | so is any join with a separator that has no question mark |
| SqlFragments.ClauseSound | pkg/dbx/part.go:41-65 | so is a clause, with its separators and left-out parts |
| SqlFragments.FlatSound | pkg/dbx/expr.go:89-107 | a plain concatenation is sound exactly when all its seams fit |
| SqlExpressions.ExprToSql | pkg/dbx/expr.go:32-85 | the loop over question marks and arguments builds the text and arguments of the expression's meaning, also with too many or too few arguments; it fails exactly when a nested expression it reaches fails |
| SqlExpressions.ConcatToSql | pkg/dbx/expr.go:89-107 | likewise for ConcatExpr, which fails on a part of another type |
| SqlExpressions.EqToSql | pkg/dbx/expr.go:147-216 | likewise for Eq and NotEq: NULL tests, IN lists, constants for empty lists, pointers and valuers; what they say is in SqlConditionLaw |
| SqlExpressions.EqOperandToSql | pkg/dbx/expr.go:177-212 | one column of Eq, with a placeholder for each value of a list |
| SqlExpressions.CompareToSql | pkg/dbx/expr.go:238-353 | likewise for Lt, Gt and Like and their kin, which refuse NULL and lists |
| SqlExpressions.JunctionToSql | pkg/dbx/expr.go:391-411 | likewise for And and Or: parts without text are left out with their arguments, the rest joined in parentheses, a constant when there are none |
| SqlExpressions.ToSql | pkg/dbx/expr.go:32-425 | for every expression tree: the text and arguments of its meaning, or failure exactly when it has none |
| SqlExpressions.PlaceholdersAreHoles | pkg/dbx/placeholder.go:60-66 | Placeholders(n) is the text of n holes with commas, one for each value of a list, in order |
| SqlSoundness.MeaningSound | pkg/dbx/expr.go:32-425 | every tree whose texts have as many unescaped question marks as arguments, and whose ConcatExpr seams fit, is sound |
| SqlSoundness.HolesGetTheirArguments | pkg/dbx/expr.go:32-425 | the law: for such a tree the built statement has as many holes as arguments, and the database binds each hole to the argument its own fragment supplied, through nested Expr, Eq with lists, And, Or and Alias |
| SqlSeams.HolesGetTheirArgumentsExactlyWhen | pkg/dbx/expr.go:32-425 | the law both ways: every built tree whose texts match their arguments is read with each hole bound to its own argument if and only if no ConcatExpr anywhere inside it puts a hole right in front of a question mark |
| SqlSeams.SoundMeansSeamsOk | pkg/dbx/expr.go:32-425 | nesting, joining and leaving out empty parts never hide a wrong seam |
| SqlSoundness.ReadAsMeantExactlyWhen | pkg/dbx/expr.go:32-425 | for any tree at all it is read as meant if and only if its pieces are balanced and separated |
| SqlSoundness.JoinsAreSafe | pkg/dbx/expr.go:147-411 | without ConcatExpr there is no seam to check: nesting, joining and negating never create or destroy an escape |
| SqlSoundness.ConcatReadAsMeantExactlyWhen | pkg/dbx/expr.go:89-107 | exact condition for ConcatExpr: it is read as meant if and only if no hole stands right before a question mark |
| SqlSoundness.ConcatCanMakeAnEscape | pkg/dbx/expr.go:89-107 | the failing case: two fragments `?` give `??`, which is read as an escape with two arguments left over |
| SqlSoundness.ExprFillsInOrder | pkg/dbx/expr.go:32-87 | Expr fills its holes from left to right: text is copied, a hole becomes its argument or the expression that the argument is |
| SqlSoundness.ConcatText | pkg/dbx/expr.go:89-107 | a concatenation is its parts in order, with their arguments |
| SqlSoundness.AliasedText | pkg/dbx/expr.go:130-145 | an alias puts the expression into parentheses in front of its name, with its arguments |
| SqlPlaceholders.ReplacePositionalPlaceholders | pkg/dbx/placeholder.go:68-95 | the loop numbers the k-th hole with k and turns each `??` into `?`, for every text |
| SqlPlaceholders.NumberedText | pkg/dbx/placeholder.go:68-95 | scanning a written statement again finds the same holes |
| SqlPlaceholders.NumberedReadsBack | pkg/dbx/placeholder.go:68-95 | renumbering keeps which argument lands in which hole: read by numbers, the statement is the one that was meant with its escapes undone, if and only if no literal starts a placeholder in the numbered text and no digit follows a hole |
| SqlPlaceholders.ClearExactlyWhen | pkg/dbx/placeholder.go:18-58 | for $, : and @p that condition can be checked on the statement itself: the prefix followed by a digit is nowhere spelled out, and no digit follows a hole |
| SqlPlaceholders.PlainReadsBack | pkg/dbx/placeholder.go:18-36 | the format ? leaves `??` in the text: a database without escapes reads the statement as it was meant if and only if there is none |
| SqlPlaceholders.DigitAfterHoleClashes | pkg/dbx/placeholder.go:68-95 | why digits matter: `?5` becomes `$15` |
| SqlStatements.AppendToSql | pkg/dbx/part.go:41-65 | the parts of a clause after the text so far, parts without text skipped, the separator before every written part but one that is first in the list |
| SqlStatements.SelectToSqlRaw | pkg/dbx/select.go:67-147 | the text and arguments of the clauses in order; fails exactly without columns or when a part fails |
| SqlStatements.SelectToSql | pkg/dbx/select.go:55-64 | the same with the holes in the database's form |
| SqlStatements.UpdateToSql | pkg/dbx/update.go:54-116 | the same for UPDATE; fails exactly without a table, without a SET clause, or when a part fails |
| SqlStatements.DeleteToSql | pkg/dbx/delete.go:42-80 | the same for DELETE; fails exactly without a table or when a part fails |
| SqlStatementSoundness.SelectReadsAsMeant | pkg/dbx/select.go:55-147 | for a SELECT whose texts match their arguments: with ? the database reads the meaning if it knows the escape `??`, and if it does not, exactly when the statement has none; with numbered holes it reads the meaning exactly when no placeholder is spelled out and no digit follows a hole |
| SqlStatementSoundness.UpdateReadsAsMeant | pkg/dbx/update.go:54-116 | likewise for UPDATE |
| SqlStatementSoundness.DeleteReadsAsMeant | pkg/dbx/delete.go:42-80 | likewise for DELETE |
| SqlStatementSeams.StatementReadAsMeantExactlyWhen | pkg/dbx/select.go:55-147 | clauses in a row, as those of SELECT, UPDATE and DELETE, whose texts match their arguments: read as meant if and only if no clause has a wrong seam inside |
| SqlConditionLaw.ConditionsHoldOfTheirRows | pkg/dbx/expr.go:147-425 | the law of conditions, for the built text and arguments and a reader of SQL with three truth values: a tree of Eq, NotEq, comparisons, And and Or over columns is built exactly when its values can be, and is then true of exactly the rows it is for: each column equal to its value, NULL, in its list, or different, not NULL, not in its list, or in its relation; all for And, one for Or, every row for an empty And, none for an empty Or |
| SqlConditionLaw.EntryTruth | pkg/dbx/expr.go:147-216 | one column of Eq or NotEq: an empty list is false for Eq and true for NotEq, a NULL column differs from nothing |
| SqlConditionLaw.CompareTruth | pkg/dbx/expr.go:238-389 | one column of a comparison: <, >, <=, >=, LIKE, ILIKE and their negations |
| SqlSyntax.AnyReads | pkg/dbx/expr.go:391-425 | the reader of conditions finds every condition that is written down, AND before OR, parentheses inside parentheses |
| SqlSyntax.TokensAppend | pkg/dbx/expr.go:147-425 | pieces put together have the tokens of the pieces, when no word or operator goes on across the seam |
| SqlClauseReader.ClausesFoundAgain | pkg/dbx/select.go:67-147 | a reader that takes a statement apart at its keywords outside of parentheses finds any clauses that stand behind each other, each with its own text and arguments |
| SqlClauses.SelectReadClauseByClause | pkg/dbx/select.go:55-147 | a built SELECT has options and columns behind SELECT, source and joins behind FROM, exactly the WHERE parts with text in order and with their arguments, GROUP BY, HAVING, ORDER BY, LIMIT and OFFSET with theirs, and nothing else; it is built exactly when it has columns and all parts can be built |
| SqlClauses.UpdateReadClauseByClause | pkg/dbx/update.go:54-116 | a built UPDATE has options and table behind UPDATE, each column with its own value behind SET, then WHERE, ORDER BY and LIMIT with theirs, and nothing else; fails exactly without table or setters or with a part that cannot be built |
| SqlClauses.DeleteReadClauseByClause | pkg/dbx/delete.go:42-80 | a built DELETE has the options behind DELETE, the table behind FROM, exactly the WHERE parts with text in order and with their arguments, then ORDER BY and LIMIT, and nothing else; fails exactly without a table or with a part that cannot be built |
| SqlClauses.NumberedClausesFound | pkg/dbx/placeholder.go:68-95 | with numbered holes the same clauses are found, escapes undone |
| SqlClauses.ClauseIsListExactlyWhen | pkg/dbx/part.go:41-64 | exact condition: a clause is the list of its parts that have text, with the separator between them, if and only if its first part has text or none has |
| SqlClauses.SeparatorInFront | pkg/dbx/part.go:41-64 | the failing family: a first part without text leaves its separator in front of the list |
| SqlRows.SelectIsAbout | pkg/dbx/select.go:55-147 | a SELECT whose WHERE parts are conditions takes exactly the rows into account for which all of them hold |
| SqlRows.UpdateIsAbout | pkg/dbx/update.go:54-116 | an UPDATE whose WHERE parts are conditions is about exactly the rows for which all of them hold |
| SqlRows.DeleteIsAbout | pkg/dbx/delete.go:42-80 | a DELETE whose WHERE parts are conditions is about exactly the rows for which all of them hold, and about all rows only without parts |
| SqlRows.WhereIsTidy | pkg/dbx/where.go:16-37 | a WHERE clause of conditions can stand in front of any other clause: its words are no keywords, its parentheses match |
| SqlStatementSoundness.SequencedSound | pkg/dbx/select.go:67-147 | clauses that start with their keyword fit behind each other |
| SqlArgumentOrder.SelectArguments | pkg/dbx/select.go:67-147 | the arguments are those of the columns, FROM, joins, WHERE, HAVING and ORDER BY, in this order |
| SqlArgumentOrder.UpdateArguments | pkg/dbx/update.go:54-116 | the SET arguments come before the WHERE arguments |
| DynamoBatch.Chunk | pkg/ddb/reflect.go:48-62 | the chunks are the input cut in order, none empty, all but the last of the given size |
| DynamoBatch.TotalItemCount | pkg/ddb/repository.go:333-341 | the number of requests over all tables, whatever the order of the loop |
| DynamoBatch.ChunkWriteItem | pkg/ddb/repository.go:298-331 | against any server that gives back part of what it got: nothing is lost or written twice, success leaves nothing, it fails exactly when the server does, gives up only with something left and when the backoff says so, which is asked afresh after every progress, and the loop ends |
| DynamoBatch.BatchWriteItem | pkg/ddb/repository.go:260-296 | accepted, pending and unsent items together are the input at every end; success leaves none of either; fails exactly when the server does |
| DynamoBatch.AllOfWithout | pkg/ddb/repository.go:333-341 | counting table by table does not depend on the order of the tables |
| DynamoBatch.LessOfEach | pkg/ddb/repository.go:298-331 | a server that gives back part of each table gives back part of the whole |
| DynamoPaging.PageIterator.constructor | pkg/ddb/page_iterator.go:40-56 | the page size is cut to the limit, and is the limit when none was given |
| DynamoPaging.PageIterator.Advance | pkg/ddb/page_iterator.go:19-38 | counts the items of a page and asks next for the page size or for what is still wanted, whichever is less |
| DynamoPaging.Operation.Query | pkg/ddb/builder_query.go:189-248 | the first request of a Query asks for the page size, which the limit has cut |
| DynamoPaging.Operation.Scan | pkg/ddb/builder_scan.go:114-144 | the first request of a Scan asks for the limit and not for a page |
| DynamoPaging.Operation.Read | pkg/ddb/repository.go:539-576 | one read of Query or Scan: nothing once the limit is reached; else one request, for at least 1 and no more than is still wanted, and the count never passes the limit, which makes the equality test in isDone sound |
| DynamoPaging.ReadAll | pkg/ddb/repository.go:721-748 | however the server cuts its pages, the result is the first min(limit, total) matching items, each once and in order; every request was modest; the loop ends |
| HealthWatch.StepKeepsInv | pkg/grpcserver/health.go:94-201 | every step of registering, receiving, leaving, changing a status, Shutdown and Resume keeps the invariant |
| HealthWatch.WatchersSeeTheCurrentStatus | pkg/grpcserver/health.go:94-201 | in every interleaving, whenever nobody is changing a status, a registered watcher has the current status in its channel or has received it last, and has then sent it to its client last |
| HealthWatch.WatchersAreToldWhatWasSet | pkg/grpcserver/health.go:94-201 | read off the calls alone: whenever nobody is changing a status, each watcher has, or was told last, the last status set for its service while not shut down, that of the last Shutdown or Resume, or SERVICE_UNKNOWN |
| HealthWatch.StatusFollowsTheCalls | pkg/grpcserver/health.go:149-201 | the map holds the last status set for every service that ever had one, but for those that Shutdown or Resume is still to reach |
| HealthWatch.WatchersReceive | pkg/grpcserver/health.go:94-138 | a watcher receives whenever there is something in its channel, and its client is told |
| HealthWatch.CallsGoThrough | pkg/grpcserver/health.go:94-201 | status changes, Shutdown, Resume and new watchers go through whenever the lock is free |
| HealthWatch.NoStatusTwiceInARow | pkg/grpcserver/health.go:118-130 | no client is sent the same status twice in a row |
| HealthWatch.HolderNeverBlocks | pkg/grpcserver/health.go:189-201 | setServingStatusLocked never blocks: the holder of the lock can always take its next step |
| HealthWatch.HolderGetsDone | pkg/grpcserver/health.go:149-201 | its work shrinks with each step, so it lets go of the lock |
| HealthWatch.NotServingUntilResume | pkg/grpcserver/health.go:149-187 | after Shutdown every service is NOT_SERVING until Resume, whatever is set in between |
| HealthServer.Server.SetServingStatusLocked | pkg/grpcserver/health.go:189-201 | on the maps and channels in place, with watchers receiving at any moment: every send finds its slot free, and afterwards all watchers are up to date again |
| HealthServer.Server.SetServingStatus | pkg/grpcserver/health.go:149-159 | sets the status, or nothing after Shutdown |
| HealthServer.Server.Shutdown | pkg/grpcserver/health.go:166-173 | every known service is NOT_SERVING, later changes are ignored, watchers are up to date |
| HealthServer.Server.Resume | pkg/grpcserver/health.go:180-187 | every known service is SERVING, changes count again, watchers are up to date |
| HealthServer.Server.Register | pkg/grpcserver/health.go:94-116 | a new watcher's channel starts with the status of its service, or SERVICE_UNKNOWN when it has none |
| HealthServer.Server.WatchersKnow | pkg/grpcserver/health.go:94-138 | in every valid state a registered watcher has, or was told last, the status of its service, or SERVICE_UNKNOWN |
| HealthServer.Server.Unregister | pkg/grpcserver/health.go:111-115 | the stream is gone from the map, nothing else changes |
| HealthServer.WatchersReceive | pkg/grpcserver/health.go:118-135 | a watcher that receives stays up to date, and an empty channel stays empty |
| CircuitBreaker.StepKeepsInv | pkg/http/circuit_breaker.go:71-124 | every atomic operation of every request keeps the invariant of the two shared integers |
| CircuitBreaker.FailuresCountAfterTheWrite | pkg/http/circuit_breaker.go:90-96 | in every interleaving, recentFailures > 0 implies that nextRetryAt has been written |
| CircuitBreaker.OneProbePerWrite | pkg/http/circuit_breaker.go:103-124 | each write of nextRetryAt admits at most one probe |
| CircuitBreaker.ProbesWaitForTheDelay | pkg/http/circuit_breaker.go:103-124 | a probe's clock reading is at least RetryDelay after that of the write it replaced, in whole milliseconds; in nanoseconds less than two milliseconds can be missing. Between probes see ProbesAreSpacedUnless |
| CircuitBreaker.ProbesAreSpacedUnless | pkg/http/circuit_breaker.go:90-124 | any two probes of any run are at least RetryDelay apart, unless in between a request stored a value below the earlier probe's, made from a clock reading before that probe |
| CircuitBreaker.LateStoresAreOld | pkg/http/circuit_breaker.go:90-124 | a store below the value of a probe comes from a clock reading before the probe's |
| CircuitBreaker.ProbesWaitForNextRetryAt | pkg/http/circuit_breaker.go:103-124 | a probe that is the next write does not read the clock before nextRetryAt |
| CircuitBreaker.EarlyProbeExactlyWhen | pkg/http/circuit_breaker.go:103-124 | from any reachable state with the failures at the limit, a probe with no store in between can come before a given time if and only if nextRetryAt is below it |
| CircuitBreaker.LaterProbeExactlyWhen | pkg/http/circuit_breaker.go:90-124 | the same for any time v within the delay after any start: a probe before v can still come if and only if a value below v is in nextRetryAt or pending |
| CircuitBreaker.RunKeepsNothingBelow | pkg/http/circuit_breaker.go:71-124 | while no value below v is stored or pending, no request that reads the clock from start on changes that, and every new probe comes at v or later |
| CircuitBreaker.DelayCutShortExactlyWhen | pkg/http/circuit_breaker.go:90-124 | exact condition for at most one retry in the delay: from any moment after a probe with the failures at the limit, over all continuations in which no clock reading is before the probe's, a later probe can come less than the delay after it if and only if nextRetryAt is below the value that the probe wrote or a failed request is about to store such a value |
| CircuitBreaker.WithoutLimitTheFirstRequestProbes | pkg/http/circuit_breaker.go:103-124 | with MaxFailures of 0 or less the first request is a probe of the initial value: the edge where there is no write to replace |
| CircuitBreaker.TwoProbesAtOnce | pkg/http/circuit_breaker.go:90-124 | the delay counts from the replaced write only: a failure that stores an old reading late lets a second probe out at the same moment |
| CircuitBreaker.SuccessClosesTheCircuit | pkg/http/circuit_breaker.go:71-88 | whatever the state, a request that is answered as expected sets the counter to 0, and the next request is performed |
| CircuitBreakerClient.Client.IsCircuitOpen | pkg/http/circuit_breaker.go:103-124 | the code with other requests let in between its atomic operations: below the limit, as the counter stands at the call, a request is admitted; at the limit it is turned away only because the value it loaded was past its clock reading or another write replaced that value before its swap, and else it is a probe whose write comes right after the one it used up |
| CircuitBreakerClient.Client.DoRequest | pkg/http/circuit_breaker.go:71-101 | rejected only at the limit and for one of those reasons; an error other than a cancellation or an unexpected status is counted once, when the request's own write to nextRetryAt is already there; an answer as expected sets the counter to 0; a cancelled or rejected request leaves it alone |
| CircuitBreakerClient.Client.Others | pkg/http/circuit_breaker.go:71-124 | whatever other requests do, both histories only grow, every failure is counted after its own store, and the shared invariant holds |
| ConnectionPressure.GaugeIsTheNumberOfConnections | pkg/httpserver/connection_pressure_manager.go:56-148 | over all legal state reports, mixed with closings of idle connections in any way: the idle list and the idle entries of the map are in bijection, the list is in the order of idle times, and the gauge is the size of the map |
| ConnectionPressure.KnownAreTheLastReported | pkg/httpserver/connection_pressure_manager.go:56-148 | read off the reports alone: the connections in the map are those last reported new, active or idle and not closed for being idle since; those last reported idle are in the list, with the time of that report and in the order of those reports |
| ConnectionPressure.GaugeIsRightExactlyWhen | pkg/httpserver/connection_pressure_manager.go:92-108 | over any reports at all bijection and order still hold, and the gauge is right if and only if no connection turned idle without being known |
| ConnectionPressure.FirstReportedIdle | pkg/httpserver/connection_pressure_manager.go:56-120 | such a stray: a connection first reported idle, which net/http does not do; it is not counted when it comes but when it goes, and the gauge ends at -1 |
| ConnectionPressure.PopTakesTheLongestIdle | pkg/httpserver/connection_pressure_manager.go:136-148 | the connection taken has been idle longest, and none is taken only when none is idle |
| ConnectionPressure.MarkIdleKeeps | pkg/httpserver/connection_pressure_manager.go:101-108 | marking idle keeps bijection and order while the clock does not go back |
| ConnectionPressure.NextKeepsCounted | pkg/httpserver/metric_recorder.go:59-65 | every report keeps: map size equals gauge plus strays |
| ConnectionPressureManager.Manager.RemoveIdle | pkg/httpserver/connection_pressure_manager.go:125-134 | the element is taken out of the list in place, its entry stays and points nowhere |
| ConnectionPressureManager.Manager.MarkActive | pkg/httpserver/connection_pressure_manager.go:92-99 | refines marking active, with the map and the list linked |
| ConnectionPressureManager.Manager.MarkIdle | pkg/httpserver/connection_pressure_manager.go:101-108 | refines marking idle; an unknown connection is not counted |
| ConnectionPressureManager.Manager.Remove | pkg/httpserver/connection_pressure_manager.go:117-123 | refines removing; only a known connection is counted down |
| ConnectionPressureManager.Manager.PopOldestIdleConnection | pkg/httpserver/connection_pressure_manager.go:136-148 | refines taking the front of the list, and returns it |
| ConnectionPressureManager.Manager.ConnState | pkg/httpserver/connection_pressure_manager.go:56-70 | refines a state report |
| ConnectionPressureManager.MetricRecorder.TrackConnectionOpened | pkg/httpserver/metric_recorder.go:59-61 | the gauge goes up by one |
| ConnectionPressureManager.MetricRecorder.TrackConnectionClosed | pkg/httpserver/metric_recorder.go:63-65 | the gauge goes down by one |
| ConnectionLimit.LimitHolds | pkg/httpserver/connection_limit_listener.go:49-116 | in every run open connections and accepts in flight together never pass MaxConnections |
| ConnectionLimit.ReleaseNeverBlocks | pkg/httpserver/connection_limit_listener.go:108-116 | giving a token back never waits |
| ConnectionLimit.RoomExactlyWhen | pkg/httpserver/connection_limit_listener.go:49-98 | in every run an accept can get a token exactly when open connections and accepts in flight leave room for one more |
| ConnectionLimit.OneReleasePerConnection | pkg/httpserver/connection_limit_listener.go:112-116 | a connection gives its token back with its first Close and never again |
| ConnectionLimit.StepKeepsInv | pkg/httpserver/connection_limit_listener.go:49-116 | the tokens in the channel are the accepts in flight and the open connections |
| ConnectionLimit.Listener.TryAcquire | pkg/httpserver/connection_limit_listener.go:67-98 | one look: a token only when there is room, net.ErrClosed only when the listener is closed, either when both hold, and nothing only when neither does |
| ConnectionLimit.Listener.FinishAccept | pkg/httpserver/connection_limit_listener.go:49-65 | hands the token to the connection, or gives it back after an error |
| ConnectionLimit.Listener.CloseConn | pkg/httpserver/connection_limit_listener.go:112-116 | releases once |
| FakeClock.StepKeepsWaiters | pkg/clock/fake_clock.go:149-254 | each parked waiter asks for more than there are, each channel is closed at most once: every operation but Advance keeps it; an Advance(d), for any d, does if and only if each waiter asks for more than the number of sleepers or timers with over d remaining, which a negative d can break |
| FakeClock.WaitersAreWoken | pkg/clock/fake_clock.go:149-254 | for runs whose Advances are not negative: the same in every reachable state, for sleepers, timers and tickers, so no lost wake-up and no double close |
| FakeClock.ParkedExactlyWhen | pkg/clock/fake_clock.go:149-198 | a caller that finds enough goes on at once, one that does not is parked for the number it asked for |
| FakeClock.ParkedUntilEnough | pkg/clock/fake_clock.go:149-214 | no step makes a parked caller vanish or wakes it before there are as many as it asked for |
| FakeClock.NoWakeUpIsLostExactlyWhen | pkg/clock/fake_clock.go:67-254 | for all runs: no wake-up is ever lost if and only if the waiters stay short at each Advance, as they do while time does not go back |
| FakeClock.GoingBackLosesAWakeUp | pkg/clock/fake_clock.go:67-181 | a negative Advance, which the code accepts, lets a stopped timer run again: a caller waiting for one timer stays parked beside it |
| FakeClock.AdvanceNeverBlocks | pkg/clock/fake_clock.go:67-105 | with durations that are not negative, Advance never blocks on a channel, in any run |
| FakeClock.AdvanceBlocksExactlyWhen | pkg/clock/fake_clock.go:67-137 | for every run with any durations: Advance(e) goes through if and only if no listed sleeper that was made with no time to go is unread, not due just now, and due by the time reached |
| FakeClock.SleepersFireOnce | pkg/clock/fake_clock.go:67-137 | a sleeper sends nothing before its due time and one value from then on, sent by the first Advance that reaches it, with the time reached |
| FakeClock.TimersFireOnce | pkg/clock/fake_timer.go:15-94 | a running timer sends once, in the first Advance that reaches its due time; Stop and Reset do what they should and nothing else sends |
| FakeClock.TimersSendWhatIsOwed | pkg/clock/fake_timer.go:15-94 | over a whole run a timer has sent once for each time it was set and not called off before its time, less the one it is running for; never stopped or reset, once |
| FakeClock.TickersTick | pkg/clock/fake_ticker.go:15-94 | a running ticker sends once in the first Advance that reaches its due time, with the time reached, and is next due a full period later; nothing else sends, and a stopped ticker never does |
| FakeClock.DueWhenAskedFor | pkg/clock/fake_clock.go:118-137 | sleepers, timers and tickers are due when they were asked for, at once for a duration of 0 or less |
| FakeClock.OnlyAdvanceBlocks | pkg/clock/fake_clock.go:67-137 | no other operation waits, and a read waits for something to be sent |
| FakeClock.SleeperAdvances | pkg/clock/fake_clock.go:90-105 | one sleeper over one Advance |
| FakeClock.TimerAdvances | pkg/clock/fake_timer.go:67-83 | one timer over one Advance |
| FakeClock.AdvanceInOneOrTwo | pkg/clock/fake_clock.go:67-88 | Advance(a) then Advance(b) leaves the time, all remaining times, the list and what has fired as Advance(a+b) does |
| FakeClock.NegativeDurationBlocksAdvance | pkg/clock/fake_clock.go:118-137 | such a run: a sleeper with a negative duration sends at once and then blocks the next Advance |
| FakeClock.GoingBackBlocksAdvance | pkg/clock/fake_clock.go:67-137 | the other cause: a sleeper of duration 0, unread, and a negative Advance block the next Advance |
| FakeClockObject.NotifyBlockers | pkg/clock/fake_clock.go:200-214 | the loop closes the channels of all that asked for no more than there are, each once, and keeps the others |
| FakeClockObject.WaitingTimers | pkg/clock/fake_clock.go:228-240 | the number of timers with time remaining |
| FakeClockObject.WaitingSleepers | pkg/clock/fake_clock.go:216-226 | the number of listed sleepers with time remaining |
| FakeClockObject.Clock.AdvanceSleepers | pkg/clock/fake_clock.go:67-105 | the loop over sleepers: each advanced once, the list rebuilt from those that stay |
| FakeClockObject.Clock.AdvanceTimers | pkg/clock/fake_timer.go:67-94 | the loop over timers |
| FakeClockObject.Clock.AdvanceTickers | pkg/clock/fake_ticker.go:69-94 | the loop over tickers: a tick resets the full period |
| FakeClockObject.Clock.Advance | pkg/clock/fake_clock.go:67-88 | is the step Advance |
| FakeClockObject.Clock.After | pkg/clock/fake_clock.go:118-137 | is the step After: waiters notified, an expired sleeper sent to at once |
| FakeClockObject.Clock.NewTimer | pkg/clock/fake_timer.go:15-35 | is the step NewTimer |
| FakeClockObject.Clock.ResetTimer | pkg/clock/fake_timer.go:51-65 | is the step ResetTimer |
| FakeClockObject.Clock.StopTimer | pkg/clock/fake_timer.go:41-49 | is the step StopTimer, and says whether the timer was running |
| FakeClockObject.Clock.BlockUntilTimers | pkg/clock/fake_clock.go:166-181 | parks the caller exactly when there are too few |
| WrapLine.WrapLine | pkg/cli/help.go:236-271 | returns the line as it is when it fits, or no width is left; otherwise lines with the same fields in the same order, each within the width or a single word, by the greedy rule |
| AsciiFields.FieldsAreTheWords | pkg/cli/help.go:250-250 | every text is its fields with white space between and around them |
| WrapLine.WrappedLines | pkg/cli/help.go:236-271 | the words of the lines in order are the words of the input; every line fits or is a single word; no other way to set the words in such lines has fewer |
| WrapLine.FewestLines | pkg/cli/help.go:251-270 | greedy wrapping is optimal |
| WrapLine.GroupsAreGood | pkg/cli/help.go:251-270 | greedy wrapping keeps the words and the width |
| HistoricalRates.MergeProviderResults | pkg/currency/updater.go:233-250 | each day has for each currency the rate of the first provider in the list that has one for that day |
| HistoricalRates.FillHistoricalGaps | pkg/currency/updater.go:313-328 | with the days sorted, a currency missing on a day gets the rate carried over from the day before, whatever the order in which a day's currencies are visited |
| HistoricalRates.SortedDays | pkg/currency/updater.go:314-316 | the days of the map, each once and in order |
| HistoricalRates.UpdatedRates | pkg/currency/updater.go:233-328 | both together, for every list of days, in any order and with repeats, and every list of providers |
| HistoricalRates.CarriedIsFromTheLatestDay | pkg/currency/updater.go:313-328 | the carried rate is that of the latest day up to this one on which some provider had the currency, and is present exactly when there is such a day |
| HistoricalRates.OfferedIsFromTheFirstProvider | pkg/currency/updater.go:233-250 | the merged rate is that of the first provider in the list that has one |
| HistoricalRates.ListedIsTheFirst | pkg/currency/updater.go:233-250 | of several rates for one currency in a list the first is taken |
| StatementSplitting.SplitRows | pkg/db/data_importer.go:123-165 | for 1 to 65536 columns: all rows in order exactly once, no empty statement, all but the last with exactly 65536 / columns rows; one statement without columns, an error with more columns |
| StatementSplitting.ImporterBuildSql | pkg/db/data_importer.go:109-165 | the same for the importer, with no statement for no rows |
| StatementSplitting.WriterBuildSql | pkg/db/fixture_writer_mysql_plain.go:57-106 | the same for the fixture writer, which succeeds exactly when there is a fixture, all are of the right type, and a row fits |
| StatementSplitting.ArgumentsStayUnderTheLimit | pkg/db/data_importer.go:129-141 | every statement has at most 65536 arguments, and a full one could not take another row |
| StatementSplitting.StatementCount | pkg/db/data_importer.go:129-141 | there are as few statements as the limit allows |

## Left out

- EncodedWordHeaders.EncodedHeader: says nothing about 76 characters for the first line, because the first word is never folded off the field name.
- HeaderLines.FoldedLines: does not say that every line over 78 bytes holds one word, because the code also skips folding on a line that holds only the field name.
- EncodedWords: needsEncodedWords splits at ASCII white space only; the Unicode white space of strings.Fields occurs only in values that are encoded anyway.
- EncodedWordReader: decodes words in UTF-8, with either encoding; a word of the right shape in another character set or encoding, or with malformed text, has no reading here, and counts as not read back.
- MimeParameters.FormatLongMediaTypeParameters: takes the parameters in the order of their sorted keys; sorting itself is the library's. Keys are lower-cased in ASCII only.
- MimeParameters.AppendSections: lower-cases ASCII letters only; the keys are tokens that mime.ParseMediaType has accepted, or `name` and `filename`, and so ASCII.
- MimeBase64.WriteMIMEBase64: takes the pieces that the library's encoder hands to the writer, in any cut, and not the encoder itself.
- formatMailboxAddress, writeMessageHeaders and the message as a whole: wiring around the parts modelled here.
- KeyLock.SomeCallCanGoOn: says that some call can go on, not that each waiter gets its turn, which is up to Go's mutexes; nor does it cover a caller that locks two keys in opposite orders.
- KeyLock: calling an unlock function twice.
- Container: the search for the container in the context, and the type assertion on the stored value.
- SqlExpressions: values of maps are taken as the cases the code tells apart (nil, scalar, list, pointer, valuer); reflection is not part of this model. The entries of a map come in the order in which the code visits them, which the theorems do not depend on.
- SqlConditionLaw.ConditionsHoldOfTheirRows: takes keys that are column names; a key can be any text in the code. Expressions written as text (Expr, ConcatExpr, Alias) have no reading as conditions here.
- SqlReader: reads the keywords in upper case, as the builder writes them; values are numbers in the order of the database, and LIKE is any relation.
- SqlClauses.SelectReadClauseByClause: asks that the texts of a clause hold no keyword of a clause outside of parentheses and do not end in a blank; SqlRows.WhereIsTidy shows it for conditions.
- SqlClauses.UpdateReadClauseByClause: the same.
- SqlClauses.DeleteReadClauseByClause: the same.
- SqlExpressions: whereStruct, which turns a struct into an Eq map with mapx; rawSqlizer, which no expression implements.
- DynamoBatch.ChunkWriteItem: a server that names a table as unprocessed without any item in it makes the client give up although all was taken; the contract says so with namedEmpty.
- DynamoBatch.ChunkWriteItem: how long the backoff waits; its budget is some number of tries, drawn anew on progress, and cancellation is one of the ways it ends.
- DynamoPaging.ReadAll: a page without an item list at all (as for a COUNT query) ends the reading early; pages of the model always have one. Errors end the read and return no items.
- DynamoPaging: a limit below 0 or a page size below 1, which DynamoDB refuses; 32-bit counters that overflow; readCallback, which stops at the first empty page; a start key given by the caller.
- HealthWatch: errors of the stream's Send, which end the watch like a cancelled context; Check and its callbacks.
- CircuitBreaker: overflow of the 64-bit failure counter, and a negative RetryDelay.
- ConnectionPressure.FirstReportedIdle: net/http is modelled by the order of its states (Follows); that it never reports a new connection as idle first is its documented behaviour.
- ConnectionLimit: liveness of acquire, because the notification of an idle connection may be dropped; MaxConnections of 0 or less, where there is no limiter.
- ConnectionPressureManager: the notification channel, and the error of closing a connection.
- FakeClock: drift of tickers, whose remaining time starts again at the full period; the two separate locks of Reset, which is one step here.
- FakeClock: nonBlockingSleep, Since, and the Go types of times and durations with their overflow.
- FakeClockObject: waiters are kept by waiter with the number asked for, where the source keeps channels by number.
- FakeClockObject: the methods of tickers other than Advance, and BlockUntil for sleepers and tickers, whose loops are those shown.
- WrapLine: white space beyond ASCII in strings.Fields.
- HistoricalRates: rates are real numbers, since only copying matters here; storing the result.
- StatementSplitting: the text of the statements and the column names; two rows with different columns in the importer.
- The insert builder and get.go of pkg/dbx, retry_after.go, coffin, the real clocks and the generic collections: plumbing, or only easy members.
