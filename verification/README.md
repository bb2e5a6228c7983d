# A verified model of the Firebird extension for DuckDB

The extension is a read-only query bridge: it compiles DuckDB filters to Firebird SQL,
splits a table scan over workers, decodes what the server sends, and keeps a connection
pool, telemetry and a catalog. This project models that logic in Dafny and proves what it
is for. The central result (EndToEnd.ScanIsExact, for the code's own binding and split
ScanPlan.BoundScanIsExact) is: the rows emitted by all workers, in any interleaving, are
the rows of the table that satisfy every filter, each exactly once.

It is reached through an independent definition at every border. The text the builder
writes is lexed and parsed by a reference lexer and grammar that know nothing of the
builder and that also consume the bound parameters; the parsed condition is evaluated in
three-valued logic; UTF-8, LIKE, paging, the view lexer and the grouping of catalog rows
each have a declarative definition that the code is proved against. Code that works in
place is modelled as methods over classes with the source's fields and loops; the shared
scan and the connection pool are also modelled as step machines over any interleaving.

| modules | subject |
|---|---|
| Values, NumberText, SqlTokens, SqlGrammar, SqlSemantics | constants, tokens, the reference grammar, three-valued meaning |
| Binder, Acceptance | input parameters and the statements the server accepts |
| Emission, TableFilters, Columns, Conditions, QueryBuilder | the statement builder |
| PreparedQuery, Placeholders, FilterPushdown | what the built statement means |
| LikePatterns, ComplexFilters, ComplexMeaning | the complex-filter hook |
| Utf8, NoneCharset | decoders and CHARACTER SET NONE |
| Partitions, PartitionQuery, Scan, Workers, Metering, EndToEnd, PagedScan, ScanPlan | the parallel and the paged scan |
| ViewAnalysis, ConnectionPool, Telemetry, CatalogLoad, BlobReader, NumericTypes | helpers with state |

Where the code does less than one might expect, the exact condition is proved:

- the glue of the partition predicate is misled by " WHERE " in a quoted name (PreparedQuery.PreparedExactly);
- `ESCAPE '\'` changes patterns that contain a backslash (LikePatterns.BackslashFreeCondition);
- binding truncates times to 100 microseconds (Values.BindExactCondition);
- filters on text BLOBs and on integers declared DOUBLE, and with texts of 64K or dates beyond 32 bits, are pushed with parameters that fail or say something else (Binder.CarriedExactly, Acceptance.IrregularRefused);
- rows whose key has left the range the server reported before the scan are missed (ScanPlan.BoundScanExactIff);
- the fallback catalog path upper-cases names: a quoted lower-case relation is skipped or, beside a relation of the upper-cased name, gets that one's columns (CatalogLoad.FallbackAgreesExactly);
- of relations whose names differ only in case one is registered (CatalogLoad.FirstStays);
- a pushed page is cut before the filters DuckDB reapplies (PagedScan.EveryPageRight);
- a scale outside the declared width makes the declared type DOUBLE while integers are written (NumericTypes.WidthMatches);
- the comment at src/firebird_types.cpp:143-145 says SMALLINT and INTEGER values always fit their DECIMAL type; they need not (NumericTypes.BackingExceedsWidth).

What the scan theorems assume, as predicates in EndToEnd (Partitioned, Readable, Answers):
DuckDB applies the filters reported residual and the expressions left in its list (the
extension itself never does, src/include/firebird_query.hpp:14-16); the server returns, in
any order, the rows that the WHERE clause it parsed selects, from a table that does not
change during the scan; stored values have the type of their column; the column compares
bytes; the server describes a parameter with the type of what it is compared with, and
DuckDB compares a column with constants of the column's type. Partitioned is proved for
the code's binding and for its long double boundaries (ScanPlan.LongDoubleSplit); the
conditions on filters, constants and names in Readable are the exact ones listed above.

`dafny verify dfyconfig.toml` verifies everything.

## Model

| member | source | states |
|---|---|---|
| EndToEnd.ScanIsExact | src/firebird_scanner.cpp:819-1201 | For every table, filters, expressions, number of workers and every schedule that gives each worker enough turns: all workers finish, and the rows they emitted, after DuckDB applies the residual filters and the expressions left to it, are the rows of the table that satisfy every filter (key in the probed range), each exactly as often as it is in the table |
| EndToEnd.EveryFinishedScanIsExact | src/firebird_scanner.cpp:1042-1201 | The same for every interleaving, fair or not, once all workers have finished: no interleaving loses, repeats or invents a row |
| EndToEnd.ExactIffRangeHolds | src/firebird_storage.cpp:165-183 | The key range is probed once and memoised: a finished scan gives every wanted row if and only if no wanted row's key lies outside the probed range |
| EndToEnd.ResultsExact | src/firebird_scanner.cpp:741-783 | Over all partitions' queries, as lexed, parsed and bound by the server, each row that satisfies the pushed conditions and has its key in range comes back exactly once per occurrence, and no other row does |
| EndToEnd.FiltersSplit | src/firebird_scanner.cpp:2029-2262 | On every row: all filters and expressions hold iff the pushed conditions hold and the residual filters and remaining expressions hold |
| EndToEnd.SelectedBy | src/firebird_scanner.cpp:835-891 | The WHERE clause of a partition's query selects a row iff the pushed conditions hold and the row's key is in the partition's range |
| EndToEnd.WhereAccepted | src/firebird_client.cpp:572-697 | With lifted LIKE patterns that have no backslash and constants of the types of their columns, the server accepts every partition's statement, its literals, patterns and parameters, if and only if every column takes the constants bound for it |
| ScanPlan.BindScan | src/firebird_scanner.cpp:573-693 | The refusals of binding, each with its exact cause (an argument below its bound, an offset without limit, paging with partitions > 1); the overflow guard never fires on 64-bit arguments; otherwise paging forces one partition; a key is bound iff partitions or paging need it and the relation has one integer key column of at least two values, and its range is the least and greatest key the server reported; a view without key is simple exactly when its code has no JOIN, no GROUP BY and no aggregate |
| ScanPlan.ProbePrimaryKey | src/firebird_scanner.cpp:382-465 | A key range is found iff the primary key is exactly one column, known to the table, of type SMALLINT, INTEGER or BIGINT, and its least value is below its greatest; it is the reported range |
| ScanPlan.PagedInOnePart | src/firebird_scanner.cpp:608-613 | Corollary of BindScan's contract: a paged scan has exactly one partition whatever the hardware; any scan has at least one and no more than there are keys |
| ScanPlan.WhereThePageIsCut | src/firebird_scanner.cpp:848-875 | Corollary of BindScan's contract: the fetch loop cuts the page exactly when the relation may be a view, has no usable key and is not a plain SELECT; otherwise the server does, ordered by the key or by RDB$DB_KEY |
| ScanPlan.PlanScan | src/firebird_scanner.cpp:819-895 | The hook, the split of the key range and the opening of all partitions together: the lists of statements and parameters are those of the job the theorems speak of, and the planner keeps exactly the expressions not lifted |
| ScanPlan.LongDoubleSplit | src/firebird_scanner.cpp:741-783 | Boundaries computed in long double, whatever its precision 1/unit above the number of partitions, meet the hypothesis of the scan theorems |
| ScanPlan.ExactSplit | src/firebird_scanner.cpp:741-783 | So do boundaries computed exactly |
| ScanPlan.BoundScanIsExact | src/firebird_scanner.cpp:573-1201 | For whatever binding accepts without limit, the planned partitions with their long double boundaries, any answers of the server and any finished schedule: every wanted row whose key is between the least and the greatest the server reported comes back exactly as often as it is in the table, and where no key was bound every wanted row does; no other row comes back |
| ScanPlan.BoundScanExactIff | src/firebird_storage.cpp:165-183 | The reported range is memoised: such a scan is exact for every row if and only if no key was bound or every wanted row's key is still in the reported range |
| PagedScan.RunPaged | src/firebird_scanner.cpp:1042-1183 | The fetch loop on a paged scan emits rows[offset .. min(offset+limit, len)) of the ordered answer, whether the statement carries ROWS or the loop cuts the slice |
| PagedScan.PagedScanIsSlice | src/firebird_scanner.cpp:848-875 | The statement parses to the intended one; the rows it orders are exactly the rows of the table that satisfy the pushed conditions and lie in the key range; the rows emitted are the requested page of them, so each satisfies the pushed conditions and comes at most as often as in the table |
| PagedScan.PagedScanIsExact | src/firebird_scanner.cpp:848-875 | Corollary: when every filter is pushed and every expression lifted, the paged scan gives the page of the wanted rows |
| PagedScan.EveryPageRight | src/firebird_scanner.cpp:848-875 | For which jobs the page DuckDB keeps is the page of the rows it would keep of all, for every table and every ordered answer: if and only if the limit is 0 or no two rows the statement selects are such that the filters applied above the scan drop the first and keep the second while the key, where one orders the page, does not put the second before the first |
| PagedScan.PageExactIff | src/firebird_scanner.cpp:848-875 | The same for one answer, from counts of kept rows before, on and after the page: a sufficient condition for every answer, and necessary where no row is repeated |
| PagedScan.ResidualFilterSpoilsPage | src/firebird_scanner.cpp:848-875 | A limit of 1 and one filter that is not pushed, on two rows: the page is cut before the filter and the wanted row is lost |
| TableFilters.TranslateConstant | src/firebird_query.cpp:352-370 | A comparison is written with `?` and its parameter, or with an inline literal, or is refused; a refusal leaves the parameters untouched (which constants may be bound: Binder.BindableExactly, Acceptance.PushedExactly) |
| TableFilters.TranslateFilter | src/firebird_query.cpp:333-445 | Succeeds exactly on translatable filters; text and appended parameters are those of the filter; on failure the parameter list is as before |
| TableFilters.TranslateChildren | src/firebird_query.cpp:371-404 | AND/OR of children: text and parameters of all children in order, or failure with everything the siblings pushed undone; an empty conjunction fails |
| TableFilters.TranslateInList | src/firebird_query.cpp:405-432 | IN list of any length: one placeholder per bindable value in order, literals inline, (1=0) when empty, rollback when a value cannot be written |
| TableFilters.TranslatableExactly | src/firebird_query.cpp:333-445 | A filter is translated exactly when no filter inside it, at any depth, is an unknown kind, IS DISTINCT FROM, an empty conjunction or disjunction, a missing child, or has a constant that is neither bound nor printed |
| TableFilters.FilterSpaced | src/firebird_query.cpp:333-445 | The text of every translated filter is well spaced, so that it lexes to exactly its intended tokens |
| TableFilters.ParseFilter | src/firebird_query.cpp:333-445 | The text of a translated filter, wherever it stands, parses under an independent grammar to the filter's condition and consumes exactly the filter's own parameters, through nested AND/OR |
| TableFilters.FilterMeaning | src/firebird_query.cpp:333-445 | In three-valued logic the emitted condition has the truth value of the filter on every row, NULLs included |
| Emission.SafeLiteralInline | src/firebird_query.cpp:89-100 | Prints NULL, HUGEINT, UHUGEINT and DECIMAL constants and nothing else |
| Emission.ParseValue | src/firebird_query.cpp:89-100 | A constant reads back as itself, taking its own parameter if it is bound |
| NumberText.UnsignedRoundTrip | src/firebird_query.cpp:89-100 | The decimal text of an unscaled integer and a scale reads back as the same number |
| Values.BindExactCondition | src/firebird_client.cpp:654-686 | Binding truncates times to 100 microseconds: it changes no answer over stored values if and only if the constant is a whole number of ticks or the comparison is <= or > |
| Values.OrderLaws | src/firebird_query.cpp:102-112 | The order behind the comparison operators is the same from both sides and is zero exactly on equal values, numbers counting as equal at any scale |
| Values.ComparisonLaws | src/firebird_query.cpp:102-112 | In three-valued logic the six operators are those of one order, unknown exactly on NULL; IS DISTINCT FROM is never unknown |
| Binder.BindInputParameters | src/firebird_client.cpp:529-697 | Fills one buffer per parameter, each as the switch over the server's type encodes it, or fails exactly when the count differs or some parameter has no encoding |
| Binder.CarriedExactly | src/firebird_client.cpp:572-697 | For every column, option and constant of the column's type: decoded by the server at its scale and by its calendar, the encoded parameter is the constant (times cut to a tick) if and only if it is NULL, or it is representable (text under 64K, a date whose Firebird day has 32 bits) and the column is no text BLOB, no uncast DECFLOAT, of no unknown type, and no integer whose scale makes it DOUBLE |
| Binder.EpochsApart | src/firebird_client.cpp:525-527 | The constant between the two epochs is the number of days the Gregorian calendar has from 1858-11-17 to 1970-01-01 |
| Binder.CalendarSteps | src/firebird_client.cpp:525-527 | The calendar behind it: the last day of every month of every year, leap years by 4, 100 and 400, is followed by the first of the next |
| Binder.BindableExactly | src/firebird_query.cpp:54-73 | The types that may be bound are exactly those of which some column takes every representable constant, and the integer types that lose nothing when cast to the signed integer of their own width |
| Acceptance.AcceptedExactly | src/firebird_client.cpp:572-697 | A statement with well-formed literals and patterns is refused exactly when some column does not take a constant bound for it, through nested AND, OR, IN and NOT IN |
| Acceptance.PushedExactly | src/firebird_query.cpp:352-370 | Every comparison, on a column that is not gated, whose constant the client can encode is pushed; and where the column takes the constant, only those and the ones printed as literals are |
| Acceptance.IrregularRefused | src/firebird_client.cpp:687-697 | Two filters that are pushed and fail: one on a text BLOB, whose parameter the client refuses to write, and one on an integer column of scale -12, for which it writes another number |
| Acceptance.IrregularInputs | src/firebird_client.cpp:603-622 | For the first there is no encoding, for the second a scaled zero is written in place of 0.5 |
| Columns.RefView | src/firebird_query.cpp:461-468 | For every column that is not NONE-gated the pushed column expression has the value DuckDB sees |
| Columns.FetchColumn | src/firebird_types.cpp:109-129 | Of text and text BLOBs of character set NONE the bytes are transcoded, checked or handed out raw by mode, of every other column left alone; the fetch fails exactly on invalid UTF-8 under STRICT |
| Columns.FetchedValid | src/firebird_types.cpp:109-129 | What DuckDB gets of a CHAR, VARCHAR or text BLOB of character set NONE is valid UTF-8 unless raw bytes were asked for; under STRICT the bytes themselves, the fetch failing exactly where they are not |
| Columns.DecfloatShown | src/firebird_types.cpp:184-196 | Of a DECFLOAT column DuckDB gets the decimal text of every stored number, not NULL, whatever character set the server gives the CAST |
| Columns.ProjectionYieldsView | src/firebird_types.cpp:242-271 | Fetching what the projected expression returns gives the value DuckDB sees, whatever character set the server gives the CAST of a DECFLOAT; the only failure is invalid UTF-8 in a NONE text column under STRICT |
| Columns.FetchChangesGated | src/firebird_query.cpp:455-468 | Of the columns that are no DECFLOAT, the fetch changes some value of exactly those the pushdown gates, raw mode aside |
| SqlSemantics.BareAgreesExactly | src/firebird_query.cpp:568-586 | A literal compared with a DECFLOAT column by value and with the projected CAST by text: the two agree on a stored number if and only if it is the literal's number in the literal's scale, or another number |
| SqlSemantics.EveryLiteralNeedsCast | src/firebird_query.cpp:568-586 | For every literal of up to 33 digits there is a storable number on which the bare comparison is true and the comparison with the CAST false |
| NumberText.NumTextRoundTrip | src/firebird_query.cpp:89-100 | The text of a number, sign included, reads back as its unscaled value and scale, so different numbers or scales have different text |
| QueryBuilder.FilterComparesProjection | src/firebird_query.cpp:561-586 | The expression the filter loop builds for a pushed filter is the one the projection builds for the same column |
| ComplexFilters.LiftComparesProjection | src/firebird_scanner.cpp:2066-2084 | The expression the hook builds for a lifted predicate is the one the projection builds for the same column |
| FilterPushdown.PushdownPreservesMeaning | src/firebird_query.cpp:528-609 | For every filter set and every row: the row passes all filters iff it satisfies the pushed conditions and all filters reported residual |
| FilterPushdown.WhereMeaning | src/firebird_query.cpp:602-622 | The WHERE clause as a whole selects a row iff all pushed filters, the key range and the lifted predicates hold |
| QueryBuilder.TranslateEntry | src/firebird_query.cpp:541-600 | One filter is pushed with the column expression of the projection, or is residual for one of the four reasons with the parameters rolled back |
| QueryBuilder.ReasonsExactly | src/firebird_query.cpp:541-600 | Which filters stay with DuckDB and for which of the four reasons, and that every other is pushed: by whether the filter is on a column of the table, the column is gated, and nothing inside the filter is unsupported |
| QueryBuilder.TranslateFilters | src/firebird_query.cpp:535-601 | The loop's conditions, pushed texts, residual indices, reasons and parameters are those of all filters in order |
| QueryBuilder.ResidualsExact | src/firebird_query.cpp:544-600 | Every filter is pushed or residual, never both: (i, reason) is reported iff filter i is residual for that reason |
| QueryBuilder.ResidualsAscend | src/firebird_query.cpp:544-600 | Residual indices are strictly increasing, and so parallel to their reasons |
| QueryBuilder.Projection | src/firebird_query.cpp:496-522 | One SELECT expression per column id, in order: CAST(NULL AS BIGINT) for the row id, the CAST for DECFLOAT, else the quoted name |
| QueryBuilder.ProjectionExactly | src/firebird_query.cpp:496-522 | Position by position: NULL for the row id, the CAST for a DECFLOAT column, the name of every other column |
| QueryBuilder.AppendExtra | src/firebird_query.cpp:610-622 | The partition predicate is glued with AND or WHERE according to whether the text so far contains " WHERE " |
| QueryBuilder.AppendPage | src/firebird_query.cpp:636-646 | ORDER BY key and ROWS limit, or ROWS offset+1 TO offset+limit |
| QueryBuilder.Build | src/firebird_query.cpp:470-650 | The statement text, the parameters, the pushed texts and the residual lists, all at once, for every query |
| PreparedQuery.PreparedExactly | src/firebird_query.cpp:470-650 | Lexed, parsed and bound, the statement is exactly the intended one (items, table, condition, page), with every placeholder taking the parameter of its own predicate and none left, if and only if the search for " WHERE " is not misled; otherwise the server rejects it |
| PreparedQuery.GlueBroken | src/firebird_query.cpp:615-622 | When a quoted name in the head contains " WHERE " and no filter is pushed, the statement with a partition predicate is rejected whatever is bound |
| PreparedQuery.NameMisleads | src/firebird_query.cpp:615-622 | Every table name with " WHERE " in it and no double quote misleads the search |
| PreparedQuery.GlueMisled | src/firebird_query.cpp:615-622 | So a range scan of a table named `a WHERE b` is rejected whatever is bound |
| Conditions.ParseExtra | src/firebird_scanner.cpp:2086-2258 | A lifted predicate between parentheses parses to its condition and consumes exactly its own parameters |
| Conditions.ParseConds | src/firebird_query.cpp:602-622 | A conjunction of key bounds, filters, lifted predicates and nested groups parses to the conjunction of their conditions, each `?` taking its own parameter |
| Conditions.CondsTrue | src/firebird_query.cpp:602-622 | The conjunction is true on a row iff every condition is |
| Placeholders.PlaceholdersMatch | src/firebird_query.cpp:371-432 | Every statement the server accepts with given parameters has exactly that many placeholders outside quotes, whoever wrote it |
| Placeholders.BuiltPlaceholders | src/firebird_scanner.cpp:835-895 | The statements the builder writes, lifted predicates spliced in, have one placeholder per parameter passed |
| SqlTokens.QuoteIdent | src/firebird_types.cpp:427-437 | The quoting loop yields the name between double quotes with embedded ones doubled |
| SqlTokens.SqlLiteral | src/firebird_scanner.cpp:176-183 | The same for string literals |
| SqlTokens.QuoteRoundTrip | src/firebird_types.cpp:427-437 | Quoting in context: reading a quoted text followed by anything not starting with the same quote stops exactly at its end and yields the original text (sections 5.2 and 5.3 of ISO/IEC 9075-2) |
| SqlTokens.LexShow | src/firebird_scanner.cpp:176-183 | Well-spaced text, whatever its names and literals contain, lexes to exactly the tokens it was printed from |
| LikePatterns.BackslashFreeCondition | src/firebird_scanner.cpp:2105-2108 | Emitting ESCAPE '\' keeps a pattern's meaning for every string if and only if the pattern has no backslash (section 8.5 of ISO/IEC 9075-2) |
| LikePatterns.PlainAgrees | src/firebird_scanner.cpp:1541-1553 | On patterns without the escape character both readings of LIKE match the same strings |
| LikePatterns.CharLenDecodes | src/firebird_scanner.cpp:1541-1553 | The wildcards of both readings step over what the UTF-8 decoder takes for one character |
| ComplexFilters.HandleLike | src/firebird_scanner.cpp:2088-2113 | A LIKE with a literal prefix is lifted, or kept with the NONE_CHARSET reason, or kept |
| ComplexFilters.HandleText | src/firebird_scanner.cpp:2115-2213 | = and IN on NONE text: all literals encode and the predicate is lifted, or nothing is pushed and the reason is recorded (what the literals say: ComplexMeaning.LiftedLiterals) |
| ComplexFilters.HandleNotIn | src/firebird_scanner.cpp:2216-2241 | NOT IN over bindable constants is lifted with one placeholder and parameter per constant |
| ComplexFilters.HandleNotBool | src/firebird_scanner.cpp:2243-2258 | NOT on a boolean column is lifted, except on DECFLOAT |
| ComplexFilters.PushdownComplexFilter | src/firebird_scanner.cpp:2029-2262 | The loop that erases in place: what is left, what is lifted and the gate reasons are exactly those of the planner's filters, in order |
| ComplexMeaning.DecidedExactly | src/firebird_scanner.cpp:2086-2258 | Exactly which expressions are lifted and which are kept with the NONE_CHARSET reason, by their shape, the column, the options and whether the literals encode; everything else is left alone |
| ComplexMeaning.LiftMeaning | src/firebird_scanner.cpp:2086-2258 | A lifted predicate has, on every row, the value of the expression it replaces, NULL included |
| ComplexMeaning.LiftedLiterals | src/firebird_scanner.cpp:1900-1907 | Every literal of a lifted = or IN, read in the character set its introducer names, is the text of the DuckDB constant it came from |
| ComplexMeaning.LiftAccepted | src/firebird_scanner.cpp:1900-1907 | The server, which refuses literals with an unknown character set or bytes malformed in it and malformed patterns, accepts every lifted =, IN, NOT IN and NOT, and every lifted LIKE without a backslash |
| ComplexMeaning.HookPreservesMeaning | src/firebird_scanner.cpp:2086-2262 | On every row the planner's filters all hold iff those left and all lifted predicates hold; every filter is either left or lifted |
| ComplexMeaning.LeftInOrder | src/firebird_scanner.cpp:2086-2262 | The filters left are unlifted ones, in their original order |
| ComplexMeaning.TextEqual | src/firebird_scanner.cpp:1725-1746 | Comparing stored bytes with the encoded literal gives the three-valued result of comparing the decoded text with the literal |
| ComplexMeaning.TextMember | src/firebird_scanner.cpp:2176-2197 | The same for IN lists of any length |
| NoneCharset.TablesInverse | src/firebird_scanner.cpp:1776-1804 | An entry of the encoder's table agrees with the decoder's table at its byte and at no other |
| NoneCharset.ByteInverse | src/firebird_types.cpp:69-77 | The two tables are inverse: a byte stands for the code point it encodes and for no other; only the five unassigned bytes are lost |
| NoneCharset.AppendUtf8 | src/firebird_types.cpp:52-64 | Appends the UTF-8 form (section 3 of RFC 3629) of any code point the transcoders produce |
| NoneCharset.Win1252ToUtf8 | src/firebird_types.cpp:79-92 | Decodes every byte string to the UTF-8 text of its Windows-1252 code points |
| NoneCharset.Latin1ToUtf8 | src/firebird_types.cpp:94-102 | Decodes every byte string to the UTF-8 text of its ISO-8859-1 code points |
| NoneCharset.TryEncodeNoneLiteral | src/firebird_scanner.cpp:1855-1887 | Encodes a literal byte by byte, or fails exactly when it is not valid UTF-8 or has a character without a byte |
| NoneCharset.PushedEqualityExact | src/firebird_scanner.cpp:1855-1887 | For every stored byte string and every literal that encodes: the bytes equal the encoded literal iff the transcoded text equals the literal |
| NoneCharset.EncodableIffStored | src/firebird_scanner.cpp:1855-1887 | A literal encodes iff it is the text of some stored bytes, none of them unassigned |
| NoneCharset.TranscodeValid | src/firebird_types.cpp:79-102 | Transcoded text is valid UTF-8, whatever the stored bytes |
| Utf8.ValidIffEncoded | src/firebird_types.cpp:24-48 | A byte string is valid iff it is the encoding of a sequence of Unicode scalar values (sections 3 and 4 of RFC 3629) |
| Utf8.DecodeSound | src/firebird_scanner.cpp:1813-1850 | A decoded character re-encodes to exactly the bytes consumed: no overlong form, surrogate or out-of-range value is accepted |
| Utf8.DecodeEncode | src/firebird_scanner.cpp:1813-1850 | Every scalar value's encoding decodes to it, whatever follows |
| Utf8.IsValidUtf8 | src/firebird_types.cpp:24-48 | The first decoder accepts exactly the valid strings |
| Utf8.DecodeUtf8Codepoint | src/firebird_scanner.cpp:1813-1850 | The second decoder agrees with the same definition at every position and leaves the position alone on failure |
| Utf8.MakeTelemetrySafeUtf8 | src/firebird_observability.cpp:226-283 | The third decoder copies exactly the valid sequences and escapes every other byte |
| Utf8.TelemetrySafeCorrect | src/firebird_observability.cpp:226-283 | The result always is valid UTF-8, equals the text iff it is ASCII or valid and NUL-free, and escaping is idempotent |
| Utf8.EscapesReadBack | src/firebird_observability.cpp:226-283 | The escapes name the bytes they replace: every byte string without a backslash can be read back from the displayed text |
| Workers.EveryRun | src/firebird_scanner.cpp:91-96 | In every interleaving of any number of workers partitions are handed out in order, each once; chunks are never empty nor over the target; the unpushed-filter guard fires at most once; once all finish, the rows emitted are exactly all partitions' rows |
| Workers.StepConserves | src/firebird_scanner.cpp:1084-1158 | Every step of every worker conserves rows: what workers hold or emitted plus what the queue holds is all rows |
| Workers.WorkerTerminates | src/firebird_scanner.cpp:1084-1158 | A worker that gets more turns than there is work in the scan has finished, whatever the others did in between |
| Workers.FairRunsFinish | src/firebird_scanner.cpp:1084-1158 | A run that gives every worker enough turns ends with every row of every partition emitted exactly once |
| Metering.StepBalanced | src/firebird_scanner.cpp:1160-1181 | Every turn of every worker conserves bytes: what the lifetime counter got, what workers have counted or have in their cursors and what the queue holds are all bytes; and a worker has counted since its last call exactly the chunk it is filling, so that the counter is the bytes of the chunks handed out |
| Metering.EveryByteCounted | src/firebird_scanner.cpp:1160-1181 | In every interleaving of any number of workers this balance holds, and once all have finished the lifetime counter has grown by the row width for every row of every partition and by all BLOB bytes, each counted once |
| Scan.GlobalState.NextPartition | src/firebird_scanner.cpp:91-96 | Hands out the next partition, or none and changes nothing |
| Scan.GlobalState.ReportUnpushed | src/firebird_scanner.cpp:998-1001 | Reports only if there are residual filters and nobody reported before |
| Scan.LocalState.OpenNextPartitionCursor | src/firebird_scanner.cpp:819-1040 | Takes the next partition and opens its cursor without changing the rows still to come; false exactly when the queue is empty |
| Scan.LocalState.AcceptRow | src/firebird_scanner.cpp:1124-1151 | A fetched row is skipped, cut off or emitted so that chunk plus rows outstanding, rows fetched plus rows still to be fetched, and the byte count are conserved |
| Scan.LocalState.Turn | src/firebird_scanner.cpp:1084-1152 | One turn of the fetch loop conserves rows emitted and outstanding, rows fetched and still to be fetched, and bytes, decreases the work left and, on an unpaged scan, is a step of the worker machine in every state that shows this worker among any others |
| Scan.LocalState.Scan | src/firebird_scanner.cpp:1042-1183 | One call: the chunk is the next rows outstanding, at most the target; a short chunk means there are no more; the rows fetched are those no longer to be fetched, on an unpaged scan the rows of the chunk; the pool's lifetime counter grows by row width times rows fetched plus BLOB bytes of the chunk; the call is a run of the worker machine |
| Scan.LocalState.ScanAll | src/firebird_scanner.cpp:1042-1183 | All chunks together are exactly the rows outstanding in order and every chunk but the last is full; the lifetime counter grows by the row width times the rows that were to be fetched, all rows on an unpaged scan, plus the BLOB bytes emitted, across cursor exhaustion, slice caps and partition handoffs |
| Scan.SingleWorker | src/firebird_scanner.cpp:1042-1183 | From start to end, for every chunk size: all rows of all partitions or, under the local paging fallback, exactly the rows ROWS offset+1 TO offset+limit denotes; the lifetime counter grows by width times rows fetched, all of them or min(rows, offset+limit+1), plus the BLOB bytes of the rows emitted |
| Scan.SliceIsRows | src/firebird_query.cpp:636-646 | rows[offset .. min(offset+limit, len)) is the sequence ROWS offset+1 TO offset+limit denotes, for every offset and limit |
| Partitions.InitGlobal | src/firebird_scanner.cpp:741-783 | The queue holds one range per partition with the text `pk >= lo AND pk <= hi`, or one empty predicate when there is no key; as many threads as partitions |
| Partitions.CountExactly | src/firebird_scanner.cpp:731-756 | The number of partitions is the caller's, capped at the number of keys; without one, 1 below 4,000,000 keys and else the greatest number up to the hardware's (4 if unknown) that leaves 2,000,000 keys to each |
| Partitions.Cover | src/firebird_scanner.cpp:763-772 | For any monotone rounding every key of [min, max] lies in exactly one range, any other key in none |
| Partitions.Contiguous | src/firebird_scanner.cpp:763-769 | Ranges follow each other without a gap from min to max |
| Partitions.Ordered | src/firebird_scanner.cpp:763-769 | Ranges are ordered and disjoint |
| Partitions.NonEmptyCondition | src/firebird_scanner.cpp:763-769 | A range is non-empty iff rounding moves between its ends |
| Partitions.NeverEmpty | src/firebird_scanner.cpp:752-756 | For every rounding that truncates a product off by less than one part in n, and whatever count was asked for, no partition of a non-empty key range is empty |
| Partitions.AutomaticSize | src/firebird_scanner.cpp:729-739 | For every such rounding and with the automatic count every range holds at least 2,000,000 keys, unless the whole table is one partition |
| Partitions.TruncatesMonotone | src/firebird_scanner.cpp:757-769 | Every such rounding is monotone, so the ranges cover the keys |
| Partitions.LongDoubleMonotone | src/firebird_scanner.cpp:757-772 | Width and boundary each rounded by any floating-point arithmetic that keeps order and represents the integers up to the number of keys: the boundaries are monotone whenever partitions times precision is at most 1 |
| Partitions.LongDoubleTruncates | src/firebird_scanner.cpp:757-772 | The same arithmetic is off by at most one key, never upwards, whenever keys times partitions times precision is at most 1/4 |
| Partitions.LongDoubleSizes | src/firebird_scanner.cpp:729-772 | So in long double no partition is empty, and with the automatic count none of several holds fewer than 2,000,000 keys |
| PartitionQuery.Combine | src/firebird_scanner.cpp:835-841 | The range and the lifted predicates in one text, their parameters in textual order |
| PartitionQuery.OpenQuery | src/firebird_scanner.cpp:819-895 | Statement and parameters of a partition are those of the intended query, table-filter parameters first; the paging decision and local slice follow the four cases |
| PartitionQuery.PagingDenotesSlice | src/firebird_scanner.cpp:843-875 | Pushed or enforced locally, a requested page is the same slice of the ordered rows |
| ViewAnalysis.Blank | src/firebird_view_analysis.cpp:79-137 | The four-state loop computes the blanked, upper-cased text |
| ViewAnalysis.LengthPreserved | src/firebird_view_analysis.cpp:79-137 | Blanking preserves length |
| ViewAnalysis.LexedPieces | src/firebird_view_analysis.cpp:79-137 | The loop agrees with a declarative lexer of code, literals with doubled quotes, line and block comments, the last possibly unterminated |
| ViewAnalysis.EverySource | src/firebird_view_analysis.cpp:79-137 | Every source text is such a list of pieces |
| ViewAnalysis.NonInterference | src/firebird_view_analysis.cpp:66-185 | Changing what literals and comments say, even their length, without ending them never changes any flag |
| ViewAnalysis.Flatten | src/firebird_view_analysis.cpp:139-160 | The second loop collapses white-space runs to one blank |
| ViewAnalysis.CollapseIdempotent | src/firebird_view_analysis.cpp:139-160 | The result is a normal form and collapsing again changes nothing |
| ViewAnalysis.AnalyzeViewSource | src/firebird_view_analysis.cpp:46-186 | The flags are those of the searched text; inspected exactly when there is a source, and nothing is flagged without one |
| ViewAnalysis.FlagsMeaning | src/firebird_view_analysis.cpp:163-185 | JOIN and WHERE are flagged iff they are words of the code, GROUP BY iff GROUP and BY are adjacent words of it, an aggregate iff one of COUNT, SUM, AVG, MIN, MAX and LIST is followed by a parenthesis, at once or after a blank |
| ConnectionPool.EveryReachable | src/firebird_client.cpp:315-395 | In every interleaving of acquires, releases and lost leases: created = active + idle + discarded + in flight; no connection is in two places; a positive cap bounds the idle queue; release times are sorted |
| ConnectionPool.Quiescent | src/firebird_storage.cpp:604-638 | With nothing in flight, active exceeds the leased connections by exactly the leases lost to a throw |
| ConnectionPool.PrefixIsAll | src/firebird_client.cpp:333-347 | On a queue sorted by release time, dropping the expired prefix removes exactly the expired entries |
| ConnectionPool.ReuseIsSafe | src/firebird_client.cpp:333-356 | A reused connection is the most recently released one, was idle no longer than the timeout and is held by nobody else, and exactly the expired ones are counted discarded; while some idle connection is within the timeout there is one to reuse |
| ConnectionPool.ReusesCounted | src/firebird_client.cpp:350-356 | The counter of reuses is the number of warm leases of the whole run, in every interleaving |
| ConnectionPool.ReleaseExact | src/firebird_client.cpp:371-395 | A lease given back is parked, as the newest and at the current time, exactly when the pool is enabled and below its cap, and is discarded and counted otherwise |
| ConnectionPool.ReleaseThenAcquire | src/firebird_client.cpp:315-395 | A parked connection is the one the next acquire leases, if that comes within the timeout |
| ConnectionPool.FirebirdConnectionPool.AcquireWithInfo | src/firebird_client.cpp:315-369 | Leases the newest live idle connection, else a fresh one, and says truly whether it existed before; a refused connection changes no counter but those of expired entries; the invariant is kept |
| ConnectionPool.FirebirdConnectionPool.Release | src/firebird_client.cpp:371-395 | Parks the connection at the current time or discards it past the cap or when disabled; a null release does nothing |
| ConnectionPool.FirebirdConnectionPool.CountExpired | src/firebird_client.cpp:338-342 | The expiry loop counts exactly the expired prefix |
| Telemetry.EveryRun | src/firebird_observability.cpp:30-81 | In every run the newest log entry equals the last record, the log never exceeds its size, and it is a suffix of the records made since logging was last off |
| Telemetry.LogIsLastRecords | src/firebird_observability.cpp:45-55 | With an unchanged size the log is exactly the last `size` records, or all while there are no more |
| Telemetry.Conserved | src/firebird_observability.cpp:64-81 | Summed over all records ever made, rows and bytes are everything passed in since the first record, whatever the log held |
| Telemetry.RecordsKeepTheirQuery | src/firebird_observability.cpp:64-88 | Whatever is added later, every record keeps the statement and filters it was made with |
| Telemetry.SlotShown | src/firebird_observability.cpp:64-110 | The last-query slot shows the error message set last, and no query before the first record |
| Telemetry.StoredExact | src/firebird_observability.cpp:30-44 | A kept record is valid, has the metrics and error given and as many filters, and its texts are valid UTF-8 and unchanged where they were valid and NUL-free |
| Telemetry.FirebirdObservabilityState.RecordQuery | src/firebird_observability.cpp:30-55 | Stores the display-safe record, clears or appends and trims the log |
| Telemetry.FirebirdObservabilityState.AddRows | src/firebird_observability.cpp:64-73 | Adds to the last record and mirrors it onto the newest log entry |
| Telemetry.FirebirdObservabilityState.AddBytes | src/firebird_observability.cpp:75-81 | The same for bytes |
| Telemetry.FirebirdObservabilityState.SnapshotLog | src/firebird_observability.cpp:57-62 | The log, newest first |
| Telemetry.CountReasons | src/firebird_observability.cpp:173-182 | Distinct reasons in first-seen order with their exact number of occurrences |
| Telemetry.FirstSeenOrder | src/firebird_observability.cpp:173-182 | No reason is listed twice, and of two reasons the one listed first is met first |
| Telemetry.HandleUnpushedFilters | src/firebird_observability.cpp:150-213 | silent or unset reports nothing, an unknown mode is refused, otherwise total, order and counts are exact |
| CatalogLoad.LoadAllTableSchemas | src/firebird_scanner.cpp:322-369 | The grouping loop computes one schema per group of consecutive rows with the same relation: name, type and descriptor k are those of row k, and the first row says whether it is a view |
| CatalogLoad.FlatIsRows | src/firebird_scanner.cpp:353-367 | Flattening the groups gives back the fetched rows; no group is empty |
| CatalogLoad.GroupsAreFilters | src/firebird_scanner.cpp:353-367 | With rows ordered by relation the groups have distinct names and each is exactly the rows of its relation |
| CatalogLoad.TableSchemasExact | src/firebird_scanner.cpp:340-367 | For every catalog ordered by relation: each table has exactly the columns of its relation's rows, each name with its own type and descriptor, in order |
| CatalogLoad.EveryRelationLoaded | src/firebird_scanner.cpp:340-367 | Every relation read has a table, and only one |
| CatalogLoad.LoadTableSchema | src/firebird_scanner.cpp:266-317 | The per-table load: name, type and descriptor of every column of the upper-cased relation, each at its own position; an error exactly when there are none |
| CatalogLoad.FallbackColumns | src/firebird_scanner.cpp:266-317 | The schema the per-table path makes has the name and view flag asked for and exactly the columns of the upper-cased relation |
| CatalogLoad.BatchRefinesFallback | src/firebird_scanner.cpp:322-369 | Every table of the one-query load is, if its name is in upper case, exactly what the unfiltered per-table query gives |
| CatalogLoad.FallbackExact | src/firebird_scanner.cpp:277-313 | For every name and every catalog: the per-table load, which has no filter on system relations, finds nothing iff no relation of the user or the system has the upper-cased name, else it gives that relation's columns under the name asked for |
| CatalogLoad.FallbackAgreesExactly | src/firebird_scanner.cpp:277-313 | So the two loads agree on a user relation if and only if some relation has its upper-cased name and the same columns; where no other relation has that name, if and only if the name is in upper case |
| CatalogLoad.LowerCaseGetsOthersColumns | src/firebird_scanner.cpp:277-313 | Beside a relation T of the user or of the system, a relation created as "t" gets T's columns from the per-table load |
| CatalogLoad.ListedGroup | src/firebird_scanner.cpp:340-347 | A table of the one-query load, whose query filters on user relations, has all columns of its relation |
| CatalogLoad.RegisterExact | src/firebird_storage.cpp:419-546 | Under every upper-cased name stays what was registered before, else the first entry of that name, and nothing else is registered |
| CatalogLoad.FirstStays | src/firebird_storage.cpp:419-546 | Of tables whose names differ only in case the first stays and the others are lost; all are registered if and only if the upper-cased names differ |
| CatalogLoad.BatchRegisters | src/firebird_storage.cpp:548-565 | This is what the one-query path registers, whose tables have distinct names |
| CatalogLoad.FallbackRegisters | src/firebird_storage.cpp:585-625 | And what the per-table path registers |
| CatalogLoad.LowerCaseIsSkipped | src/firebird_scanner.cpp:277-278 | A relation with a quoted lower-case name is in the one-query load and missing from the per-table load |
| CatalogLoad.SchemaEntry.EnsureTablesLoaded | src/firebird_storage.cpp:374-644 | Loads once: batch path, else per-table path skipping failures, else an error that leaves nothing loaded |
| CatalogLoad.BothPathsAgree | src/firebird_storage.cpp:555-625 | When all names are in upper case and the relations listed that have readable columns are, in order and with their view flags, those of the all-tables query, both paths register the same tables |
| CatalogLoad.LoadForeignKeys | src/firebird_storage.cpp:342-371 | The constraint loop lists, per relation, the groups of (relation, constraint) |
| CatalogLoad.ForeignKeysExact | src/firebird_storage.cpp:342-371 | Each foreign key has its two column lists parallel and made of exactly its own rows, in order |
| CatalogLoad.LoadUniqueConstraints | src/firebird_storage.cpp:301-331 | The same for PRIMARY KEY and UNIQUE; the loop relies on the first row's relation and constraint names not both being empty, which no row of the system tables has |
| CatalogLoad.UniqueKeysExact | src/firebird_storage.cpp:301-331 | Each key's columns and kind are those of exactly its own rows |
| CatalogLoad.EveryConstraintListed | src/firebird_storage.cpp:301-371 | Every constraint row's group is listed under its relation |
| BlobReader.BlobColumn.ReadBlob | src/firebird_client.cpp:965-1007 | For every list of segments, empty ones and ones over 8192 bytes included, the loop ends, returns exactly their concatenation and counts its bytes; an error returns nothing and counts nothing |
| BlobReader.SegmentStream.GetSegment | src/firebird_client.cpp:986-992 | One call gives at most a buffer of the current segment and loses nothing of the rest |
| NumericTypes.WidthMatches | src/firebird_types.cpp:146-187 | The integer width written at fetch is that of the declared type if and only if the scale is at most the number of digits that always fit the backing integer, 38 if widened (INT128: at most 38); otherwise the column is declared DOUBLE |
| NumericTypes.DeclaredType | src/firebird_types.cpp:146-187 | For every backing, scale and option: DECIMAL exactly for a scale that fits, its width the greatest number of digits all of whose numbers are in the backing's range, or 38 for a widened BIGINT; an integer type for scale 0, DOUBLE for the rest |
| NumericTypes.SameNumber | src/firebird_types.cpp:276-317 | For every stored integer and every scale that fits, the cell denotes the same number at the same scale |
| NumericTypes.WidenedLossless | src/firebird_types.cpp:292-308 | With widening the hugeint pair equals the int64 and stays below 10^38 |
| NumericTypes.BackingExceedsWidth | src/firebird_types.cpp:141-145 | For every scale that fits: every value of the backing integer is within the digits of the declared DECIMAL if and only if the column is a widened BIGINT; SMALLINT and INTEGER are not always within theirs, whatever the comment says |
| NumericTypes.FirebirdAppendValue | src/firebird_types.cpp:242-363 | Writes NULL or a cell with exactly the fetched integer into its slot and touches no other slot |

## Left out

- The v2.0 filter family (bound expressions, casts over the column): the same algorithm under renamed accessors; the v1.5 filter classes are modelled.
- libfbclient, transactions, error vectors and connection strings: the server is a parsed statement over a table, a row cursor and a segment stream.
- DuckDB's planner, vectors, catalog framework, settings and the FirebirdScanSupportsPushdownType hook: abstract filters, sequences and cells.
- Exceptions inside a scan: Fetch and OpenCursor errors abort the query and are not modelled; exceptions appear where the source handles them (pool creation, BLOB read, catalog load).
- STRICT mode's fetch error on invalid UTF-8 is in Columns.FetchColumn; the scan theorems are about scans in which it does not happen.
- CHAR padding and Firebird collations: the code itself assumes byte comparison on VARYING columns (src/firebird_scanner.cpp:1738-1746).
- SqlSemantics.EveryLiteralNeedsCast: texts that are not decimal numbers, on which the server raises an error. Exponent, NaN and infinity texts of DECFLOAT, floating-point rounding and time-zone types: DECFLOAT is a decimal mantissa and scale, floats are reals compared by order.
- 64-bit overflow of `hi - lo + 1` on key ranges of 2^63 keys or more: key arithmetic is unbounded.
- Partitions.LongDoubleSizes: beyond keys times partitions times precision 1/4 (with a 64-bit significand and 16 partitions about 10^17 keys) only cover, order and contiguity are proved; NonEmptyCondition says when a partition is empty.
- Scan.LocalState.Scan: the BLOB bytes of a row are a function of the row; the per-query telemetry counters are in module Telemetry and not linked to the scan.
- EndToEnd.ScanIsExact: rows are stored rows; that their decoded columns are what DuckDB sees is Columns.ProjectionYieldsView.
- PagedScan.EveryPageRight: ranges over all tables, also ones in which rows share a key; for tables with distinct keys its condition is sufficient.
- ScanPlan.BindScan: parsing of the other named parameters, and the queries for key columns, key range, object type and view source, whose answers are parameters; a failing key query is one without answer. The column types are those after ReconcileViewColumnTypes.
- Binder.BindInputParameters: conversions DuckDB makes of constants of another type than the column's (other than numbers and BLOBs), which no pushed filter needs; the blanks a CHAR parameter is padded with; rounding of floats; infinite dates and timestamps.
- Workers.EveryRun: a step is one turn of the fetch loop; interleavings inside a turn other than at the partition queue and the guard are not modelled.
- ConnectionPool.EveryReachable: atomics are one counter step each; destruction of connections and the redaction of error messages are not modelled.
- ViewAnalysis.FlagsMeaning: the aggregate flag stays a substring search; quoted identifiers are code to the source's lexer and so to the model.
- CatalogLoad.BothPathsAgree: the mapping of type codes and the constraint annotations of an entry are part of a row's abstract type and descriptor.
- CatalogLoad.LoadAllTableSchemas: the table being filled is the last element of the result list.
- NumericTypes.FirebirdAppendValue: only the integer column types.
- Text of warnings and messages, timings, redaction, and the diagnostic table functions: straight-line reporting.
- firebird_explain_pushdown: it mirrors a physical planner that is not part of this model.
