# A verified model of mysqlBlackHole

mysqlBlackHole is a simulated MySQL server: it answers `SELECT`s from seeded rows, refuses
writes, and a separate program reports what clients tried. This project models its query engine,
its sessions, its seeder and its report in Dafny, and proves properties of them for all inputs.

`dafny verify dfyconfig.toml` checks everything.

| file | what it models |
|---|---|
| `Common.dfy`, `StableOrder.dfy` | order-preserving filtering; what a stable sort is, that the meaning leaves one result, the in-place algorithm |
| `Values.dfy` | SQL values, truth, the mixed-type comparison (`expr_eval.go`) |
| `LikeRegexp.dfy`, `LikePatterns.dfy`, `LikeAnchoring.dfy`, `LikeNewlines.dfy` | the LIKE compiler, the regular expression fragment it emits, what a pattern text means, and which patterns survive the missing anchors, on one line and on several |
| `ExprEval.dfy`, `KleeneReference.dfy` | the expression evaluator, and a reference semantics: three-valued logic over the program's own comparison, truth test and pattern search |
| `SelectHandler.dfy`, `SelectTheorems.dfy`, `SelectResults.dfy` | filter, order, limit and project, the theorems about each, and which rows a whole statement returns (`select_handler.go`) |
| `TableData.dfy`, `Store.dfy`, `Session.dfy`, `SessionRuns.dfy`, `QueryTexts.dfy` | table data as JSON, the store and its keys, the dispatch and its handlers, runs of a session, and what a client gets for its text (`handler.go`, `query_handlers.go`, `describe_handler.go`) |
| `Seeder.dfy` | the seeder, and what a session sees after it (`cmd/seed-redis/main.go`) |
| `ReportAggregates.dfy`, `MarkdownTable.dfy`, `MarkdownReport.dfy` | session sort, command grouping, and the escaping table printer (`cmd/report_generator/main.go`) |

Library calls (number parsing, `%v` printing, lower-casing, rune decoding, case folding, user
regular expressions, float arithmetic, the classification of spaces, what JSON and the wire protocol
can carry) are fields of the datatype `Host`. Every theorem quantifies over all of them; where one
needs a fact about them, such as that a newline case-folds only with itself, it says so in a
`requires`. Strings in cells and in the store are Go strings, one character per byte; a LIKE subject is
the text `host.runes` decodes it to. A query text is a sequence of runes, since white space and upper
case are decided rune by rune. The parser's answer is arbitrary. A store is `reliable` or not: only an
unreliable one may fail for reasons of its own, and every store fails on a key of another type.

## Where the code and its documentation part

`README.md` of the repository promises real `WHERE` and `ORDER BY`, and an `Access denied` for every
write. The model follows the code, and each departure has a theorem that says exactly when it shows:

- `NULL AND TRUE` is true, `TRUE AND NULL`, `NULL AND NULL` and `NOT NULL` are false
  (`WhereOperatorsDepart`), and `NULL IS NOT TRUE` is false (`IsTruthDepartsExactly`).
- `5 NOT BETWEEN 10 AND NULL` is NULL where three-valued logic knows it to be true: `BETWEEN` departs
  exactly when one bound is NULL and the other already rules the value out (`BetweenDepartsExactly`).
- So `NOT (TRUE AND NULL)` is true (`NegatedAndIsWrong`). Whatever AND, OR and NOT a condition is built
  from, if nothing departs inside the operands of its atoms, `WHERE` keeps exactly the rows on which
  three-valued logic finds it true if and only if on no row it is wrongly true or missed. Both are read
  off the evaluation of the atoms (`FormulaIsExact`, `WhereIsExact`), and go from operand to operator as
  `AndGoesWrong`, `OrGoesWrong` and `NotGoesWrong` say.
  Three-valued logic here is over the program's own comparison, pattern search and truth test, in which
  a non-empty text is true.
- LIKE is compiled without anchors; on subjects without newlines it is whole-string LIKE exactly for
  patterns that have a `%` before the first and after the last literal, or that contain a literal
  newline (`AnchoringIsExact`). A dot covers no newline, so `a%b` also misses a text of two lines: on
  all subjects a pattern agrees exactly when it begins and ends with `%`, has no `_`, and has no `%` with
  more than lone newlines on both its sides (`NewlinesAreExact`).
- A column whose lower-case form has another length in bytes cannot be named, not even by its own name
  (`NameableExactly`).
- The comparison is not always transitive: it fails exactly on values where some text lies between the
  texts of two numbers that the order of texts turns around, or where NaN stands beside two different
  numbers (`TransitiveExactly`). The comparator of an ORDER BY on one key is a strict weak order exactly
  when its values avoid both (`OneKeyOrdersExactly`).
- Configured integers are served as floats, since JSON has one kind of number (`CellSurvivesExactly`).
- Two databases can share a table key exactly when one name followed by a colon starts the other
  (`TableKeysCollideExactly`).
- Names in a query are lower-cased, so a database with capitals is reached only by selecting it
  (`ReachableTables`).
- A `LIMIT` offset from 2^63 upwards is ignored (`LimitIsSlice`).
- `SELECT a AS b` looks up `b` and not `a` (`AliasShowsItsColumn`).
- A refused write is answered `Access denied` always for databases; for CREATE TABLE exactly when a
  database is selected, even if the statement names one; and for the others exactly when a database is
  resolved and lists the named table (`WhenAccessIsDenied`). Writes outside the listed prefixes succeed
  without effect (`AlwaysFailsExactly`).
- The seeder's pattern `supported_dbs:` has no `*`, so memberships of an earlier configuration survive
  (`GrantsAreExact`).

## Model

| member | source | states |
|---|---|---|
| Values.CompareAntisymmetric | expr_eval.go:437-464 | swapping the operands flips the sign of the comparison, for all values, NaN and infinities included |
| Values.TruthOfValues | expr_eval.go:37-79 | NULL is unknown; false are numbers equal to zero, the false boolean and empty texts; everything else is true, the text "0" and NaN included |
| Values.NotTriTurns | expr_eval.go:81-90 | negation is its own inverse and leaves unchanged exactly what is unknown |
| Values.WhatIsANumber | expr_eval.go:396-417 | integers, floats and texts that parse are numbers; booleans, byte strings and other types are not |
| Values.TextsCompare | expr_eval.go:461-463 | a text is less exactly if it ends first or has the smaller character at the first difference |
| Values.NumbersCompare | expr_eval.go:448-459 | numbers of any kind compare as numbers, infinities at the ends, NaN equal to all |
| Values.OthersCompareAsTexts | expr_eval.go:461-463 | a boolean or other value that is no number compares by lower-cased printed texts, whatever it is compared with |
| Values.TransitiveExactly | expr_eval.go:437-464 | on any set of values the comparison is transitive if and only if no text straddles two numbers and NaN splits none |
| Values.ComparePreorder | expr_eval.go:437-464 | on such sets it is a total preorder with NULL strictly least |
| Values.HomogeneousIsOrderable | expr_eval.go:437-464 | columns of NULLs beside numbers, or of NULLs beside non-numbers, are such sets |
| Values.CompareCycles | expr_eval.go:448-463 | both obstacles occur: "1a" straddles "2" and "10", and NaN splits 0 and 1 |
| LikeRegexp.LikeToRegexp | expr_eval.go:466-485 | the builder loop emits the flag and then one fragment per pattern element, escapes and the trailing backslash included |
| LikeRegexp.EmittedTextReadsBack | expr_eval.go:469-483 | the regular expression reader finds in the emitted text exactly the elements of the pattern: quoting never leaks an operator |
| LikeRegexp.ConsumesIsLikeMatches | expr_eval.go:305-305 | backtracking over the compiled items succeeds exactly when the text can be cut into one fitting piece per pattern element |
| LikeRegexp.SearchMeansSomeStretchMatches | expr_eval.go:288-310 | every pattern compiles, and the search succeeds exactly when some stretch of the subject matches, up to case folding |
| LikePatterns.PatternMeans | expr_eval.go:466-485 | the meaning of a pattern text, character by character: `%`, `_`, the backslash, any other character, and the end |
| LikePatterns.TextEmitted | expr_eval.go:466-485 | the regular expression text, character by character: the flag `(?i)`, `.*`, `.`, and characters quoted exactly if they are operators |
| LikePatterns.LikeAnswers | expr_eval.go:288-310 | evaluated LIKE is NULL on NULL and otherwise tells whether some stretch of the text matches the pattern; NOT LIKE the opposite |
| LikeAnchoring.MatchesReversed | expr_eval.go:466-485 | a subject matches a pattern read forwards as it does read backwards |
| LikeAnchoring.SearchNeverMisses | expr_eval.go:288-310 | the unanchored search accepts every newline-free subject whole-string LIKE accepts |
| LikeAnchoring.SelfAnchoredIsWhole | expr_eval.go:466-485 | for patterns open at both ends it accepts no others |
| LikeAnchoring.UnanchoredWitness | expr_eval.go:466-485 | for every other pattern there is a newline-free subject it accepts and LIKE rejects |
| LikeAnchoring.AnchoringIsExact | expr_eval.go:288-310 | search and whole-string LIKE agree on all newline-free subjects if and only if the pattern anchors itself |
| LikeNewlines.StretchMatches | expr_eval.go:466-485 | for a pattern with at most one stretch of literals beside lone newlines, what LIKE accepts on several lines has a stretch the search finds, between the nearest newlines |
| LikeNewlines.MissedWitness | expr_eval.go:466-485 | for a `_`, or a `%` with more than lone newlines on both sides, there is a text that LIKE accepts and the search misses |
| LikeNewlines.NewlinesAreExact | expr_eval.go:288-310 | for every pattern, search and LIKE agree on all subjects if and only if the pattern is open at both ends, has no `_` and has at most one stretch of literals beside lone newlines |
| ExprEval.NameableExactly | expr_eval.go:19-27 | a column can be named, in particular by its own name, if and only if lower-casing keeps its length in bytes |
| ExprEval.Lookup | expr_eval.go:19-27 | the scan returns the cell of the first column with the lower-case form and the byte length of the lower-cased name, and reports whether there is one |
| ExprEval.ScanIn | expr_eval.go:254-286 | the flag-keeping loop computes membership: some non-NULL item equal, else NULL if an item is NULL |
| ExprEval.InIsOrOfEquals | expr_eval.go:254-286 | `v IN (x1..xn)` is the evaluator's own `v = x1 OR ... OR v = xn`, and NOT IN its three-valued negation |
| ExprEval.BetweenIsExpansion | expr_eval.go:231-252 | BETWEEN and NOT BETWEEN equal the evaluator's own expansion into two comparisons exactly when no operand is NULL |
| KleeneReference.BetweenDepartsExactly | expr_eval.go:231-252 | BETWEEN is the three-valued AND of its comparisons, negated for NOT, exactly unless one bound is NULL and the other rules the value out; then it is NULL where the answer is known |
| KleeneReference.IsTruthDepartsExactly | expr_eval.go:117-129 | IS NOT TRUE and IS NOT FALSE depart exactly on NULL, where they answer false |
| ExprEval.ColumnIsRead | expr_eval.go:19-27 | an evaluated column name reads the cell of the first column so named in any case, and NULL without one |
| ExprEval.PlainForms | expr_eval.go:94-143 | IS NULL always answers and tells NULL from every value; parentheses, literals and unknown forms |
| ExprEval.MinusNegates | expr_eval.go:219-225 | evaluated unary minus is NULL exactly on what is no number, gives the number that adds up to zero, exchanges infinities, and done twice gives the number back |
| ExprEval.NegateReversesOrder | expr_eval.go:221-225 | evaluated unary minus reverses the order of numbers |
| ExprEval.ArithmeticIsNull | expr_eval.go:368-394 | arithmetic is NULL exactly where an operand is no number or the divisor of `/` or `%` is zero, and otherwise float arithmetic on the operands in their order |
| ExprEval.ArithmeticUndone | expr_eval.go:368-394 | subtracting and adding again, and dividing and multiplying again, give the left operand back |
| ExprEval.RegexpMatches | expr_eval.go:312-333 | REGEXP is NULL exactly on NULL or a pattern that does not compile, true where the case-insensitive pattern matches, and NOT REGEXP its three-valued negation |
| KleeneReference.ScanIsKleeneFold | expr_eval.go:263-285 | the two flags of the IN loop carry what the Kleene OR of the equalities knows |
| KleeneReference.EvaluatorCompletesReference | expr_eval.go:94-229 | wherever the reference gives a value other than NULL the evaluator gives that value, if IS NULL, IS TRUE and `<=>` see no AND and no NOT, and no BETWEEN and no IS NOT TRUE departs on the row; without AND and NOT it always agrees |
| KleeneReference.WhereOperatorsDepart | expr_eval.go:145-229 | for AND, OR and NOT, exactly on which operands the evaluator departs from three-valued logic |
| KleeneReference.GuardIsNeeded | expr_eval.go:107-116 | `(NULL AND TRUE) IS NULL` is an expression on which evaluator and reference disagree |
| KleeneReference.QuietAgrees | expr_eval.go:94-229 | where no operator at all departs the evaluator returns the reference value, for every expression |
| KleeneReference.FormulaIsExact | expr_eval.go:145-229 | every condition, whatever AND, OR and NOT it is built from, is true, false or unknown in the reference as it is known here from its atoms, if nothing departs inside their operands |
| KleeneReference.AndGoesWrong | expr_eval.go:147-163 | an AND is wrongly true exactly beside a NULL on its left that is not missed, or through a wrong side, and missed exactly if not true here with both sides known to be |
| KleeneReference.OrGoesWrong | expr_eval.go:164-184 | an OR is wrongly true exactly if every true side is wrong and none is missed, and missed exactly if not true here with a side missed |
| KleeneReference.NotGoesWrong | expr_eval.go:210-219 | a NOT is wrongly true exactly if its operand is false here and not known to be, and missed exactly in the reverse case |
| KleeneReference.NegatedAndIsWrong | expr_eval.go:145-219 | `NOT (TRUE AND NULL)` is true on every row and unknown in the reference |
| KleeneReference.NoLeakIsExact | expr_eval.go:145-184 | it is true exactly when the reference says so where nothing departs and no AND has NULL left and truth right |
| KleeneReference.ConjunctionIsExact | expr_eval.go:147-163 | for conjunctions a true condition is wrong exactly when such a leak occurs, and one that is not true is wrong exactly when missed |
| StableOrder.SortIsStable | select_handler.go:189-211 | insertion sort gives an ordered permutation in which ties keep input order |
| StableOrder.OnlyTheSortArranges | select_handler.go:189-211 | no other sequence is an ordered permutation with ties in input order |
| StableOrder.FilterCommutesWithSort | select_handler.go:165-213 | filtering a stably sorted sequence is stably sorting the filtered one |
| StableOrder.InsertionSort | cmd/report_generator/main.go:464-468 | the nested in-place swap loops terminate and leave the array stably sorted |
| SelectHandler.ColumnNames | select_handler.go:136-142 | the loop returns the column names in order |
| SelectHandler.FilterRows | select_handler.go:165-182 | the loop keeps the rows on which the condition evaluates to true, in order; all without a condition |
| SelectHandler.OrderRows | select_handler.go:184-213 | the slice is left stably sorted under the multi-key comparator, untouched without ORDER BY |
| SelectHandler.ColumnIndex | select_handler.go:324-332 | the index of the first column with the lower-case form and the byte length of the lower-cased name, or -1 |
| SelectHandler.ResolveFields | select_handler.go:277-300 | the select list resolves to output columns: `*` expanded, aliases looked up as columns, other expressions evaluated |
| SelectHandler.ProjectRows | select_handler.go:270-322 | every output cell of every row and every output column name |
| SelectHandler.NormalizeValue | select_handler.go:338-348 | no bool reaches the wire, truth survives, other values are unchanged |
| SelectHandler.RunSelect | select_handler.go:105-114 | the pipeline filters, orders, limits and projects, in this order, under the output column names |
| SelectResults.EveryShownRowSatisfies | select_handler.go:105-114 | every row shown, LIMIT or not, is the projection of a stored row on which the condition is true |
| SelectResults.ShownAsOftenAsStored | select_handler.go:105-114 | without LIMIT every result row is shown exactly as often as stored rows satisfy the condition and project to it |
| SelectResults.StoredOrderIsKept | select_handler.go:105-114 | without ORDER BY and LIMIT the satisfying rows are shown in stored order, and without WHERE all rows |
| SelectResults.LimitSlicesTheResult | select_handler.go:105-114 | LIMIT shows the slice it asks for of what the statement shows without it |
| SelectResults.OrderBySorts | select_handler.go:184-225 | without LIMIT, ORDER BY any expressions and positions shows exactly the satisfying rows, none after one it precedes, and rows not told apart in stored order |
| SelectResults.OrderByExpressionRuns | select_handler.go:184-213 | under ORDER BY one expression its values run up, or down for DESC, along the rows shown, LIMIT or not |
| SelectResults.PositionWithoutColumn | select_handler.go:194-201 | ORDER BY a position that names no plain column changes nothing |
| SelectTheorems.WhereDiffersOnlyOnUnknown | select_handler.go:165-182 | of the rows on which no BETWEEN and no IS NOT TRUE departs, WHERE keeps every one on which the reference finds the condition true and drops every one on which it finds it false |
| SelectTheorems.WhereIsExact | select_handler.go:165-182 | for every condition of ANDs, ORs and NOTs, over atoms with nothing departing in their operands, WHERE keeps exactly the reference's rows, in input order, if and only if the condition is neither wrongly true nor missed on any row |
| SelectTheorems.RowLessIsLexicographic | select_handler.go:189-211 | the comparator is the lexicographic order of the keys that resolve, DESC reversed |
| SelectTheorems.RowOrderIsStrictWeak | select_handler.go:189-211 | over orderable keys it is a strict weak order on the rows |
| SelectTheorems.OneKeyOrdersExactly | select_handler.go:189-211 | with one key it is a strict weak order if and only if the values of the key are orderable |
| SelectTheorems.LaterKeysOrderTies | select_handler.go:189-211 | with an orderable first key it is a strict weak order if and only if the later keys are one on every class of rows that key ties |
| SelectTheorems.OrderByIsTheStableArrangement | select_handler.go:184-213 | wherever the comparator is a strict weak order, ORDER BY gives the one permutation in key order with ties in input order |
| SelectTheorems.WhereCommutesWithOrderBy | select_handler.go:105-106 | filtering then ordering is ordering then filtering, for every WHERE and every ORDER BY whose comparator is a strict weak order |
| SelectTheorems.LimitIsSlice | select_handler.go:227-268 | LIMIT returns the slice asked for, for every count, exactly when the offset is below 2^63 or the answer is empty anyway |
| SelectTheorems.LimitDefaults | select_handler.go:232-248 | without an offset LIMIT starts at the first row, and operands that are no integer literals are ignored |
| SelectTheorems.SignedLimits | select_handler.go:232-248 | signed operands ask for the same; a negative offset is none and a negative count has no end |
| SelectTheorems.PagesPartitionTheResult | select_handler.go:105-109 | paging with any size from 1 to 2^63-1 returns the statement's whole result once and in order |
| SelectTheorems.StarShowsEveryColumn | select_handler.go:280-283 | `*` shows every column in order under its own name, wherever it stands in the list |
| SelectTheorems.FieldIsShown | select_handler.go:277-348 | which value and which name a field contributes wherever it stands in the list, true and false as 1 and 0 |
| SelectTheorems.AliasShowsItsColumn | select_handler.go:284-288 | an aliased column shows its own cells on all rows exactly when the alias resolves to the same column |
| SelectTheorems.OrderByPositionOrdersWhatIsShown | select_handler.go:189-225 | after WHERE, ORDER BY N, LIMIT and projection the values of output column N run up, or down for DESC |
| Store.KeysAreApart | model/sqlemulate/models.go:32-42 | user and table list keys are injective in the database and disjoint from each other and from other families |
| TableData.TableRoundTrip | select_handler.go:117-133 | what the seeder encodes a query decodes, cell by cell |
| TableData.CellSurvivesExactly | cmd/seed-redis/main.go:115-123 | a configured cell that is no date, list or mapping comes back unchanged exactly when it is NULL, a bool, a finite float or valid UTF-8; integers become floats |
| TableData.ForeignCells | cmd/seed-redis/main.go:115-123 | dates, lists, mappings and byte strings come back as what JSON made of them, if it could |
| TableData.TableSurvivesExactly | cmd/seed-redis/main.go:115-123 | a table comes back unchanged exactly when its names and all its cells do |
| TableData.StorageKeepsMeaning | select_handler.go:117-133 | storage keeps NULL, truth and number of such a cell, and the comparison of two numbers or of two values that print alike |
| Store.TableKeysCollideExactly | model/sqlemulate/models.go:40-42 | different databases share some table key if and only if one name followed by a colon starts the other |
| Store.GlobOfLiterals | cmd/seed-redis/main.go:128-137 | a pattern of literals matches itself only, and with a final `*` every extension of itself |
| Session.BlackHoleHandler.UseDB | handler.go:47-62 | a member's request selects the database and anyone else's is denied; a store error, which needs an unreliable store or a key of another type, changes nothing |
| Session.BlackHoleHandler.HandleUse | query_handlers.go:107-120 | the second word without its semicolon is the database; without one nothing happens |
| Session.BlackHoleHandler.HandleQuery | handler.go:67-124 | each query is answered as its route says, the store is not written, and only USE changes the selection |
| Session.BlackHoleHandler.HandleShowDatabases | query_handlers.go:28-47 | lists exactly the databases the user is a member of, each once; a store error exactly on lists of another type or from an unreliable store |
| Session.BlackHoleHandler.HandleShowTables | query_handlers.go:52-90 | lists exactly the tables of the database, or says why not |
| Session.BlackHoleHandler.TableExistsInDB | query_handlers.go:386-397 | whether the database lists the table up to case |
| Session.BlackHoleHandler.RequireTableInDB | query_handlers.go:403-416 | an unknown-table error exactly for a table the database does not list |
| Session.BlackHoleHandler.DenyForDB | query_handlers.go:372-380 | the database the refusal names, or that none is selected |
| Session.BlackHoleHandler.DenyDatabaseFirst | query_handlers.go:177-205 | DROP TABLE and TRUNCATE give the common refusal |
| Session.BlackHoleHandler.DenyTableFirst | query_handlers.go:267-295 | DELETE, INSERT, UPDATE, ALTER and RENAME give the same refusal though they check in another order |
| Session.BlackHoleHandler.HandleCreateTable | query_handlers.go:206-225 | refused for the qualified or selected database, and for lack of a selected one |
| Session.BlackHoleHandler.HandleSelect | select_handler.go:67-133 | the names and rows of the pipeline over the decoded table, or an empty result, or the one error due |
| Session.BlackHoleHandler.HandleDescribe | describe_handler.go:19-66 | one row per stored column, only `id` a key, or an empty result, or the one error due |
| SessionRuns.WritesReachTheirHandler | handler.go:72-123 | no earlier case shadows a write prefix, and only the listed prefixes reach a refusing handler |
| SessionRuns.ListedWritesAreRefused | query_handlers.go:136-515 | every listed write is answered with an error on every path and changes neither store nor selection |
| SessionRuns.WhenAccessIsDenied | query_handlers.go:136-515 | for each of the eleven handlers, exactly when the error is `Access denied` and which database it names |
| SessionRuns.ReliableStoresAnswer | handler.go:67-124 | over a reliable store of the right types no query is answered with a store error |
| SessionRuns.AlwaysFailsExactly | handler.go:72-123 | the queries that can only fail are the listed writes and the denied introspection, and no others |
| SessionRuns.SelectedDatabaseIsEarned | handler.go:47-124 | over every run the selected database is that of the latest successful request, by a member at that moment, or never changed |
| SessionRuns.SessionsNeverWrite | handler.go:67-124 | over every run a session leaves the store as it found it |
| SessionRuns.RunsRefuseWrites | handler.go:98-120 | every listed write anywhere in a run is refused and moves the session nowhere |
| SessionRuns.SpacingIsIrrelevant | handler.go:68-68 | respacing a query changes neither its route nor the database it asks for |
| QueryTexts.CaseIsIrrelevant | handler.go:68-68 | queries whose words differ in case only take the same route |
| QueryTexts.TextDecidesTheRoute | handler.go:67-124 | each route is taken by exactly the texts that ask for it, in any case, said of each route by itself and in no order |
| QueryTexts.WritesInAnyCaseAreRefused | handler.go:98-120 | a query beginning as any of the seventeen write statements, in any case, is answered with an error and moves the session nowhere |
| QueryTexts.WritesAnswerForTheirTable | query_handlers.go:177-487 | a write is checked against the table and database its statement names: the three errors and when each is due |
| QueryTexts.DatabaseWritesAreDenied | query_handlers.go:136-515 | a write about a database is denied for the database it names |
| QueryTexts.CreateTableIsDenied | query_handlers.go:206-226 | CREATE TABLE is denied for the named or selected database, if one is selected |
| QueryTexts.UnparsedWritesAreDenied | query_handlers.go:136-515 | what the parser makes nothing of is denied for the selected database |
| QueryTexts.UseNamesItsSecondWord | query_handlers.go:107-120 | USE asks for its second word, without a semicolon at its end and in its own case |
| QueryTexts.UseSelects | handler.go:47-62 | a member's USE selects the database, anyone else's is denied and changes nothing |
| QueryTexts.SessionAnswers | query_handlers.go:95-129 | SELECT DATABASE() answers the selected database or NULL, SELECT VERSION() the fixed version, introspection the denial |
| QueryTexts.OthersAreIgnored | handler.go:121-123 | queries that ask for nothing the server knows succeed without effect |
| QueryTexts.ListedInAnyCase | query_handlers.go:386-397 | a table is listed under exactly the spellings whose runes fold like those of one of the database's tables |
| QueryTexts.TablesAreGuarded | select_handler.go:83-103 | SELECT and DESCRIBE answer from a table only if the resolved database lists it, and are empty without database, table or data |
| QueryTexts.SelectsAreServed | select_handler.go:97-114 | a SELECT of a listed table answers the pipeline's rows over its decoded data, under their names |
| QueryTexts.DescribesAreServed | describe_handler.go:49-65 | a DESCRIBE of a listed table tells name, type and key of each stored column |
| Seeder.DeleteKeysByPattern | cmd/seed-redis/main.go:128-137 | on success, which a reliable store guarantees, exactly the keys matching the pattern are gone |
| Seeder.SeedTableData | cmd/seed-redis/main.go:109-126 | whatever the iteration order, one encoded entry per table with columns is stored; it succeeds only if all can be encoded, and then always on a reliable store |
| Seeder.SeedSupportedDBs | cmd/seed-redis/main.go:66-107 | it succeeds only with a database, sets where it adds members and tables that can be encoded, and then always on a reliable store; the store is the seeded one |
| Seeder.SeedMySQLUsers | cmd/seed-redis/main.go:139-154 | on success, which a reliable store guarantees, the password hash holds the configured users only, a later entry winning |
| Seeder.LastPasswordWins | cmd/seed-redis/main.go:148-153 | a user's last entry gives the password, and no other users appear |
| Seeder.PasswordsAfterSeeding | cmd/seed-redis/main.go:139-154 | in the seeded store exactly the configured users have passwords, those of their last entries |
| Seeder.ClearedKeys | cmd/seed-redis/main.go:67-75 | clearing erases the database list, the table data and the key `supported_dbs:` and nothing else |
| Seeder.SeededDbsAt | cmd/seed-redis/main.go:66-107 | the seeded store in closed form, key by key |
| Seeder.SeedingIsIdempotent | cmd/seed-redis/main.go:66-154 | seeding twice is seeding once, from any store |
| Seeder.Seed | cmd/seed-redis/main.go:54-61 | the whole seeding succeeds only if it can, and on a reliable store whenever it can; wherever it stops, the next one leaves the store as if it had not been |
| Seeder.RestartedSeeding | cmd/seed-redis/main.go:66-154 | a seeding gives the same from any store in which configured members were already added and erased keys changed |
| Seeder.SeedingCanBeRepeated | cmd/seed-redis/main.go:66-107 | on a seeded store seeding can succeed again exactly if the configuration has a database and can be encoded: no key of a wrong type is in its way |
| Seeder.SeededStoreIsTyped | cmd/seed-redis/main.go:66-154 | after seeding the store has the right types for every session exactly when the lists of all databases had them before |
| Seeder.MembershipAfterSeeding | cmd/seed-redis/main.go:70-93 | seeding grants the configured memberships and revokes none |
| Seeder.GrantsAreExact | cmd/seed-redis/main.go:70-93 | the memberships are the configured ones exactly when the store held no others |
| Seeder.ShowDatabasesAfterSeeding | query_handlers.go:28-47 | SHOW DATABASES then lists exactly the user's configured databases, the ones USE succeeds on |
| Seeder.TablesAfterSeeding | cmd/seed-redis/main.go:95-99 | a database then lists the configured tables and those it listed before, and no others |
| Seeder.ShowTablesAfterSeeding | query_handlers.go:52-90 | SHOW TABLES then shows a configured user exactly the configured tables, or says there are none, and denies others |
| Seeder.NoStaleTableData | cmd/seed-redis/main.go:73-75 | the seeded store holds no table data but the configured tables' |
| Seeder.SeededRowsAreServed | select_handler.go:83-133 | once seeding can succeed and if the configured names are apart, a query that names a configured table, qualified or in the selected database, is answered from its rows as JSON keeps them |
| Seeder.SeededColumnsAreDescribed | describe_handler.go:49-65 | a DESCRIBE of a configured table then shows its configured columns |
| Seeder.ReachableTables | select_handler.go:88-99 | which databases and tables a lower-cased name can reach: lower-case tables, in a lower-case or in the selected database |
| ReportAggregates.ParseSessionAgg | cmd/report_generator/main.go:443-468 | the filter loop and the sort give the active buckets stably sorted by commands |
| ReportAggregates.SessionsAreTheActiveBucketsByCommands | cmd/report_generator/main.go:443-468 | exactly the active buckets, busiest first, ties in input order, and no other list is |
| ReportAggregates.SessionsTellOfBuckets | cmd/report_generator/main.go:443-468 | one session for each bucket with a login and a command, with the bucket's own key, numbers, first address and users, busiest first, ties in input order |
| ReportAggregates.ParseCommandHits | cmd/report_generator/main.go:543-579 | the one-pass grouping with its index map gives the declarative groups |
| ReportAggregates.GroupsPartitionKeptHits | cmd/report_generator/main.go:543-579 | distinct fingerprints; each group has exactly its hits in input order; together every kept hit once |
| ReportAggregates.GroupsTellOfHits | cmd/report_generator/main.go:543-579 | a group's commands carry time, address, user, database and statement of exactly its fingerprint's hits with a statement, and its address is their first |
| ReportAggregates.EveryHitIsGrouped | cmd/report_generator/main.go:543-567 | a fingerprint has a group exactly if some hit has it and a statement |
| ReportAggregates.FirstSeenInOrder | cmd/report_generator/main.go:562-567 | a group listed earlier has a hit before any hit of a group listed later |
| ReportAggregates.EveryUserIsNamed | cmd/report_generator/main.go:572-576 | every user of a group occurs in its user text |
| ReportAggregates.UsersAreListedOnce | cmd/report_generator/main.go:572-576 | the user text joins users of the hits, each new to the text before it |
| ReportAggregates.GroupsKeepTimeOrder | cmd/report_generator/main.go:517-519 | on a page sorted latest first, commands in each group and the groups' latest commands are too |
| MarkdownTable.TruncationShows | cmd/report_generator/main.go:318-324 | the first 200 runes survive, and exactly when a shortened statement can be told from a whole one |
| MarkdownTable.EscapeFirst | cmd/report_generator/main.go:788-793 | the three replacements act character by character |
| MarkdownTable.UnescapeEscaped | cmd/report_generator/main.go:788-793 | removing the backslash before each pipe undoes the escaping, up to line ends |
| MarkdownTable.DelimiterIsAsWide | cmd/report_generator/main.go:808-809 | the delimiter row is as wide as its header |
| MarkdownTable.RowRoundTrips | cmd/report_generator/main.go:810-814 | splitting a row at unescaped pipes recovers every cell, for arbitrary text |
| MarkdownTable.TableRoundTrips | cmd/report_generator/main.go:808-815 | a table is parsed back, header, delimiter row of the header's cell count (section 4.10 of the GitHub Flavored Markdown Spec) and rows of as many cells, exactly when it has a column and its rows have the header's width; no newline or carriage return in a cell breaks a line |
| MarkdownReport.DecimalDetermines | cmd/report_generator/main.go:812-814 | a printed number determines the number |
| MarkdownReport.DecimalIsRead | cmd/report_generator/main.go:812-814 | a printed number, read in base 10, is the number |
| MarkdownReport.RenderUsers | cmd/report_generator/main.go:808-815 | the loop prints the table of user rows, which parses back to its header and rows |
| MarkdownReport.RenderIPs | cmd/report_generator/main.go:826-830 | the loop prints the table of source addresses, which parses back to its header and rows |
| MarkdownReport.RenderSessions | cmd/report_generator/main.go:841-849 | the loop prints the table of sessions, which parses back to its header and rows |
| MarkdownReport.RenderQueries | cmd/report_generator/main.go:860-865 | the loop prints the table of shortened queries, which parses back to its header and rows |
| MarkdownReport.RenderCommands | cmd/report_generator/main.go:888-898 | the loop prints the table of a group's commands, which parses back to its header and rows |
| MarkdownReport.SessionsTableReadsBack | cmd/report_generator/main.go:841-849 | the session table reads back as its sessions, numbers exactly |
| MarkdownReport.CommandsTableReadsBack | cmd/report_generator/main.go:888-898 | the command table reads back as times, databases and shortened statements |
| MarkdownReport.UsersTableTells | cmd/report_generator/main.go:808-815 | under each heading of the user table stands the name, the attempts, the successes and the failures |
| MarkdownReport.IPsTableTells | cmd/report_generator/main.go:826-830 | under each heading of the address table stands the address and its events |
| MarkdownReport.SessionsTableTells | cmd/report_generator/main.go:841-849 | under each heading of the session table stands what it says |
| MarkdownReport.QueriesTableTells | cmd/report_generator/main.go:860-865 | under each heading of the query table stands the shortened query and its count |
| MarkdownReport.CommandsTableTells | cmd/report_generator/main.go:888-898 | under each heading of a command table stands the time, the database and the shortened statement |

## Left out

- Values.CompareAntisymmetric: finite floats are exact reals, so rounding of large integers to floats is not modelled; negative zero is zero.
- ExprEval.Lookup: a row too short for the column found makes the program panic; `Lookup` requires that cell, and the functions behind the theorems read a missing cell as NULL.
- LikeRegexp.SearchMeansSomeStretchMatches: the regular expression library refuses very long patterns, for which the program answers NULL; here every pattern compiles.
- KleeneReference.FormulaIsExact: where an operator departs inside an operand of a comparison, IN, LIKE or another atom, the exact answer is the reference evaluation itself and no simpler condition is stated.
- TableData.CellSurvivesExactly: what JSON makes of dates, lists, mappings and byte strings is an arbitrary function.
- ExprEval.ArithmeticUndone: float arithmetic is taken to be exact on finite numbers, as its `requires` says; rounding and overflow are not modelled.
- SelectHandler.OrderRows: the library's stable sort is modelled by the insertion sort it runs on up to 20 rows; on more rows the two agree whenever the comparator is a strict weak order, and nothing is claimed otherwise.
- KleeneReference.EvaluatorCompletesReference: arithmetic, unary minus and REGEXP are the same functions in the reference as in the evaluator; of float arithmetic only NULL-strictness and zero divisors are modelled.
- Session.BlackHoleHandler.DenyTableFirst: the handlers of one shape share a method, and what each takes from the parsed statement is the function `Target`.
- Session.BlackHoleHandler.HandleSelect: which result sets the wire protocol library accepts is an arbitrary function of the rows.
- TableData.StorageKeepsMeaning: integers beyond 2^53, which JSON numbers round, are exact here; the JSON text itself is not modelled, only what survives it.
- Seeder.Seed: after a failed seeding only what the next seeding makes of the store is claimed.
- MarkdownReport.RenderCommands: the time format is any function whose output has no pipe and no line end; the program writes the header and delimiter lines as literals, the model prints them from the column names.
- The TiDB parser, its lock, and the unwrapping of joins to a single table: statements come parsed, and their relation to the query text is arbitrary.
- Redis, Elasticsearch, HTTP, Discord, the MySQL wire protocol, logging, authentication and fingerprints: input and output.
- JSON decoding and time parsing of search results: hits and buckets come decoded, an unparsable time as the zero time.
- The headings and notes of the report around its tables.
