# appudo_sql_parser: the scope-aware walker, its driver and the lookahead filter

This project models `src/parser/parser.c` of appudo_sql_parser in Dafny. The
library is a PostgreSQL grammar wrapper. It parses an SQL query, walks the raw
parse tree and calls a pluggable provider (`Data`, eight callbacks) while it
walks. The provider can rename tables and qualified column heads, is told
about every construct the walker does not handle, and finally receives the
rewritten query text.

The modules follow the program's structure:

- `Provider` (provider.dfy): the `QueryType` enumeration (`Select`,
  `Delete`, `Insert`, `Update`) and the provider.
  - `Env` is its abstract state: live alias tables (a map from handle to a set
    of names), the `hasRel`/`hasRelFor` lookup maps, and append-only logs of
    `notHandled` reports, `setQuery` texts and `removeTable` calls.
  - Each callback is a function on `Env`.
  - Class `Data` is a provider object whose methods are proved to perform
    those functions.
- `Nodes` (nodes.dfy): the raw parse tree as a closed datatype.
  - Most node kinds that check_node's switch names get one constructor each.
    SelectStmt, InsertStmt, DeleteStmt and UpdateStmt share one, `Statement`,
    which carries the statement's kind. IntList and OidList have none.
  - `Nil` stands for NULL, and `Other` for every kind the switch does not name.
  - `Render` stands in for `nodeToString`.
- `Walking` (walk.dfy): the walker's meaning as pure functions. `Walk` and
  `WalkList` take a node, a scope chain (innermost first) and a provider state
  and return:
  - the rewritten node;
  - the innermost scope's alias table;
  - the new provider state.
- `Checker` (checker.dfy): the walker as the source runs it.
  - `QueryInfo` records linked by their `parent` fields, with the alias table
    assigned lazily.
  - `check_first`'s do-while loop up the parent chain, and `check_list`'s loop.
  - `check_node`'s switch, split into a few methods.
  - Every method is proved to compute exactly what `Walking.Walk` says.
- `WalkFacts` and `WalkTrace` (walk_facts.dfy, walk_trace.dfy): what the walk
  guarantees, proved about `Walking`:
  - scoping of aliases;
  - renaming rules;
  - the report log and the removeTable log;
  - a tree that keeps its shape.
- `Driver` (driver.dfy): `raw_parser`'s outcome mapping and `verify`.
- `Lookahead` (lookahead.dfy): the `base_yylex` filter, as a state machine over
  the core scanner's token stream. Class `Filter` holds the filter's state, and
  its `BaseYylex` method is proved to perform the pure step `FilterStep`.
- `Settings` and `Text` (settings.dfy, text.dfy): `parse_version`,
  `parser_set_param` and `GetDatabaseEncoding`, with the decimal helpers they
  need.

The model follows parser.c as written in four places a reader might not
expect:

- `verify` reports "error" whenever raw_parser returns NIL, not only on a
  parse error. So a query that parses to an empty statement list takes the
  error path too (`Driver.ParseErrorReportsError`).
- Traversal stops at nodes the switch does not name. The arguments of a
  function call are never visited either. Common table expressions, type casts
  and target entries are skipped silently (`WalkTrace.Reports`).
- `T_SortBy` has no `break`. After walking the sort key, control falls into
  the `T_Alias` case, which registers whatever the alias-name slot of the
  SortBy's memory holds. The model keeps this: `SortBy` carries an unspecified
  `overlaidName`, and that name is registered in the current scope.
- A SELECT's target list is walked before its FROM clause, and an UPDATE's
  target list and WHERE clause before its FROM clause. So in
  `SELECT o.id FROM t o` the alias `o` does not exist yet when `o.id` is
  walked, and hasRel renames the head. A reference after the FROM clause,
  in WHERE, is protected by the alias (`WalkTrace.TargetListPrecedesFrom`,
  `WalkFacts.AliasShadowsColumn`).

## Model

| member | source | states |
|---|---|---|
| Provider.Env.AddTable | src/include/parser/parser.h:48 | addTable returns a handle never used before, for a new empty table; no other table changes, and the lookups and logs are as they were |
| Provider.Env.RemoveTable | src/include/parser/parser.h:49 | removeTable logs the call; the named table disappears and an absent handle removes nothing; no other table changes, and the lookups and the other logs are as they were |
| Provider.Env.AddAlias | src/include/parser/parser.h:53 | addAlias succeeds exactly on a live table and adds the name to it; on a dead handle nothing changes |
| Provider.Env.HasRel | src/include/parser/parser.h:50 | hasRel answers exactly for the names the provider maps, with that mapping |
| Provider.Env.HasRelFor | src/include/parser/parser.h:51 | hasRelFor answers exactly for the (name, query type) pairs the provider maps |
| Provider.Env.SetQuery | src/include/parser/parser.h:54 | setQuery appends the text to the query log; the tables, the lookups and the other logs are as they were |
| Provider.Env.NotHandled | src/include/parser/parser.h:55 | notHandled appends the text to the report log; the tables, the lookups and the other logs are as they were |
| Provider.Data.constructor | src/include/parser/parser.h:45-56 | a provider with the given lookups, no tables and empty logs |
| Provider.Data.AddTable | src/include/parser/parser.h:48 | the object's state changes exactly as Env.AddTable says |
| Provider.Data.RemoveTable | src/include/parser/parser.h:49 | the object's state changes exactly as Env.RemoveTable says |
| Provider.Data.HasAlias | src/include/parser/parser.h:52 | the answer is whether the handle is live and its table holds the name; a NULL table holds nothing |
| Provider.Data.AddAlias | src/include/parser/parser.h:53 | state and result as Env.AddAlias says |
| Provider.Data.HasRel | src/include/parser/parser.h:50 | the answer is Env.HasRel's |
| Provider.Data.HasRelFor | src/include/parser/parser.h:51 | the answer is Env.HasRelFor's |
| Provider.Data.SetQuery | src/include/parser/parser.h:54 | the state changes exactly as Env.SetQuery says |
| Provider.Data.NotHandled | src/include/parser/parser.h:55 | the state changes exactly as Env.NotHandled says |
| Walking.AliasBound | src/parser/parser.c:56-67 | the do-while search up the chain; that it holds exactly when some scope's table has the name is WalkFacts.AliasBoundSomewhere |
| Walking.Substituted | src/parser/parser.c:56-74 | the head's text is kept or replaced by hasRel's answer for it, nothing else; when each happens is WalkFacts.ColumnRefResolution |
| Walking.ResolveFirst | src/parser/parser.c:39-76 | check_first changes at most the first field, and only a String or BitString one; the fields after it are kept |
| Walking.Walk | src/parser/parser.c:97-336 | check_node's switch on values; what it guarantees is WalkFacts.WalkEvolves, WalkTrace.WalkLogs and WalkTrace.WalkKeepsShape, and Checker.CheckNode is proved to compute it |
| Walking.WalkSortBy | src/parser/parser.c:128-140 | the SortBy case with its fall-through into Alias; proved about by WalkFacts.WalkEvolves and Checker.CheckSortBy |
| Walking.WalkTwo | src/parser/parser.c:141-147 | A_Expr, A_Indirection and FromExpr walk two children in order; proved about by WalkFacts.TwoEvolves and WalkTrace.WalkLogs |
| Walking.WalkJoinExpr | src/parser/parser.c:168-179 | JoinExpr walks its five children in order; proved about by WalkFacts.JoinExprEvolves |
| Walking.WalkRangeSubselect | src/parser/parser.c:288-301 | the sub-query under a new SELECT scope, the alias in the enclosing one, then removeTable; proved about by WalkFacts.RangeSubselectEvolves and WalkFacts.SubselectHidesInnerAliases |
| Walking.WalkStatement | src/parser/parser.c:225-321 | the clauses under a new scope of the statement's kind, then an unconditional removeTable; proved about by WalkFacts.StatementEvolves, WalkFacts.StatementDropsOwnTable and WalkTrace.TargetListPrecedesFrom |
| Walking.RegisterAlias | src/parser/parser.c:133-140 | after an Alias the scope has a table; a table it already had is kept |
| Walking.WalkList | src/parser/parser.c:338-346 | check_list yields one rewritten item per item |
| WalkFacts.RegisterAliasEvolves | src/parser/parser.c:133-140 | an Alias creates the scope's table only when absent, fresh and holding just the name; otherwise it adds the name to the existing table; no other table changes |
| WalkFacts.WalkEvolves | src/parser/parser.c:97-336 | walking any node keeps the current scope's table, creates one only when the node declares a name in this scope, adds exactly the declared names, and leaves every other live table as it was: inner scopes' tables are gone afterwards |
| WalkFacts.TwoEvolves | src/parser/parser.c:141-147 | the same for A_Expr, and for A_Indirection and FromExpr, whose two children are walked in order |
| WalkFacts.JoinExprEvolves | src/parser/parser.c:168-179 | the same for JoinExpr's five children, walked in order |
| WalkFacts.WalkListEvolves | src/parser/parser.c:338-346 | the same for a list, with the union of the items' declarations |
| WalkFacts.StatementEvolves | src/parser/parser.c:225-251 | a statement declares nothing in the caller's scope, and the table it creates for its own scope is removed |
| WalkFacts.RangeSubselectEvolves | src/parser/parser.c:288-301 | a sub-select declares only its own alias in the enclosing scope, and the sub-query's table is removed |
| WalkFacts.StatementRestoresScope | src/parser/parser.c:225-321 | Select, Insert, Delete and Update leave the caller's table, and every alias table, exactly as before |
| WalkFacts.StatementDropsOwnTable | src/parser/parser.c:225-321 | a statement's last call is removeTable on its own scope's table. That table is NULL exactly when its clauses declare no alias; otherwise it holds exactly those aliases |
| WalkFacts.SubselectHidesInnerAliases | src/parser/parser.c:288-301 | after a sub-select, the sub-query's table no longer exists, and the enclosing scope gained only the sub-select's alias names |
| WalkFacts.AliasBoundSomewhere | src/parser/parser.c:56-67 | check_first's alias search succeeds exactly when some scope from the innermost to the root holds the name |
| WalkFacts.ColumnRefResolution | src/parser/parser.c:208-216 | a ColumnRef with at most one field, or a head that is neither String nor BitString, is unchanged. Otherwise only the head can change, and it keeps its kind: its text stays when a scope on the chain has it as an alias, becomes hasRel's name otherwise, and stays when hasRel has none. The provider state is untouched |
| WalkFacts.RangeVarRenaming | src/parser/parser.c:154-167 | relname changes only when hasRelFor(name, current scope's type) answers, and then becomes that answer; the alias is registered in the current scope, not a new one |
| WalkFacts.WalkListAt | src/parser/parser.c:338-346 | the i-th item is walked under the scope and state left by the items before it |
| WalkFacts.AliasShadowsColumn | src/parser/parser.c:39-76 | a qualified column reference whose head an earlier item of the same list declared as an alias is left as it is |
| WalkTrace.WalkLogs | src/parser/parser.c:97-336 | the walk appends exactly Reports(n) to the notHandled log and one removeTable per statement and sub-select, and changes neither the lookups nor the query log |
| WalkTrace.WalkListLogs | src/parser/parser.c:338-346 | the same for a list, item by item in order |
| WalkTrace.NodeReports | src/parser/parser.c:78-95 | a FuncCall issues no report exactly when it is row_number, and otherwise one; an unnamed node kind issues one; leaves, A_Const, ParamRef, TargetEntry, TypeCast and CommonTableExpr change nothing |
| WalkTrace.StatementKindSelectsLookup | src/parser/parser.c:154-167 | a range variable among a statement's clauses is looked up under that statement's query type |
| WalkTrace.TargetItemRenamed | src/parser/parser.c:189-216 | a target-list column whose head no scope declares gets hasRel's name for it |
| WalkTrace.SilentPrefix | src/parser/parser.c:225-236 | statement clauses that declare nothing leave the new scope without a table, the enclosing tables as they were, and hasRel unchanged |
| WalkTrace.TargetListPrecedesFrom | src/parser/parser.c:225-251 | in a SELECT, a target-list column headed by a name that only the FROM clause declares is renamed by hasRel, because clause 2 is walked before clause 3 |
| WalkTrace.WalkKeepsShape | src/parser/parser.c:97-336 | the rewritten tree equals the input except for range variable names and the string heads of qualified column references |
| WalkTrace.WalkListKeepsShape | src/parser/parser.c:338-346 | the same for a list |
| Checker.QueryInfo.constructor | src/include/parser/parser.h:61-66 | a scope record of the given type and parent, with no alias table yet |
| Checker.VisibleOnChain | src/parser/parser.c:56-67 | the question asked of the record chain is the one asked of the scope chain |
| Checker.CheckFirst | src/parser/parser.c:39-76 | check_first's loop over `parent` returns the fields with the head resolved as ResolveFirst says |
| Nodes.IsRowNumber | src/parser/parser.c:78-95 | check_FuncCall's test; that a call is silent exactly when it holds is WalkTrace.NodeReports |
| Checker.CheckFuncCall | src/parser/parser.c:78-95 | the call is reported, rendered, unless its name's first component is row_number |
| Checker.AddAliasTo | src/parser/parser.c:133-140 | the record's table and the provider change as RegisterAlias says |
| Checker.CheckNode | src/parser/parser.c:97-122 | check_node rewrites the node, sets the record's table and changes the provider exactly as Walk says |
| Checker.CheckExpressionCases | src/parser/parser.c:123-167 | the same for A_Const to RangeVar |
| Checker.CheckClauseCases | src/parser/parser.c:168-224 | the same for JoinExpr to FromExpr |
| Checker.CheckStatementCases | src/parser/parser.c:225-334 | the same for the statements, FuncCall, RangeSubselect, TypeCast, CommonTableExpr and the default case |
| Checker.CheckSortBy | src/parser/parser.c:128-140 | SortBy walks its key, then registers the overlaid alias name |
| Checker.CheckRangeVar | src/parser/parser.c:154-167 | as Walk says for RangeVar: hasRelFor under the record's type, then the alias in the same record |
| Checker.CheckColumnRef | src/parser/parser.c:208-216 | as Walk says for ColumnRef: check_first only for more than one field |
| Checker.CheckAExpr | src/parser/parser.c:141-147 | as Walk says for A_Expr |
| Checker.CheckJoinExpr | src/parser/parser.c:168-179 | as Walk says for JoinExpr |
| Checker.CheckAIndirection | src/parser/parser.c:180-188 | as Walk says for A_Indirection |
| Checker.CheckFromExpr | src/parser/parser.c:217-224 | as Walk says for FromExpr |
| Checker.CheckRangeSubselect | src/parser/parser.c:288-301 | as Walk says for RangeSubselect: a new Select record for the sub-query, the alias in the enclosing record |
| Checker.CheckStatement | src/parser/parser.c:225-321 | as Walk says for a statement: a new record of the statement's type with the current one as parent; the caller's table is unchanged |
| Checker.CheckList | src/parser/parser.c:338-346 | check_list's loop does what WalkList says |
| Driver.RawParser | src/parser/parser.c:391-437 | the error flag is set exactly on a caught fault or a non-zero result, and then the result is NIL; otherwise the grammar's list is returned |
| Driver.VerifyRun | src/parser/parser.c:348-367 | verify on values; its properties are Driver.VerifyReports, Driver.VerifyQueryText, Driver.VerifyTables and Driver.ParseErrorReportsError |
| Driver.Verify | src/parser/parser.c:348-367 | verify changes the provider exactly as VerifyRun says |
| Driver.ReportsAreRenderings | src/parser/parser.c:328-334 | every report the walk issues is a node rendering, never the literal "error" |
| Driver.VerifyReports | src/parser/parser.c:348-363 | verify calls setQuery exactly once. It reports "error" exactly when raw_parser returns NIL: that is then its only report and the text is "<>". Otherwise its reports are the walk's. Without a memory context nothing happens |
| Driver.ParseErrorReportsError | src/parser/parser.c:430-434 | a parse error, and also an empty successful parse, take the NIL path |
| Driver.VerifyQueryText | src/parser/parser.c:358-362 | the query text renders a tree of the parsed tree's shape; the walk logs one removeTable per statement and sub-select |
| Driver.VerifyTables | src/parser/parser.c:354-361 | the root record's table is never removed. verify leaves exactly one new table, holding the top-level declarations, when there are any; otherwise the tables are unchanged |
| Lookahead.LookaheadLength | src/parser/parser.c:484-496 | only NOT, NULLS_P and WITH need lookahead |
| Lookahead.Relabel | src/parser/parser.c:531-568 | NOT becomes NOT_LA before BETWEEN, IN, LIKE, ILIKE or SIMILAR; NULLS_P becomes NULLS_LA before FIRST or LAST; WITH becomes WITH_LA before TIME or ORDINALITY; in every other case the token is unchanged |
| Lookahead.FilterStep | src/parser/parser.c:457-571 | the value and location returned are the current token's. A token is held back exactly when the current one needs lookahead, and then the scanner is asked once more. The held token is the scanner's next one, and the end of the current token is recorded |
| Lookahead.HeldTokenComesNext | src/parser/parser.c:466-474 | a held token is the next one returned, without asking the scanner |
| Lookahead.Run | src/parser/parser.c:457-571 | k calls of base_yylex in a row return k lexemes; what they are is Lookahead.RunEmitsScannerTokens |
| Lookahead.RunEmitsScannerTokens | src/parser/parser.c:457-571 | over any number of calls, the filter returns the scanner's tokens one for one, in order, with their values and locations; only NOT, NULLS and WITH can be relabelled |
| Lookahead.Filter.constructor | src/parser/parser.c:407-408 | the filter starts with no token held back |
| Lookahead.Filter.CoreLex | src/parser/parser.c:476 | core_yylex returns the scanner's next token |
| Lookahead.Filter.BaseYylex | src/parser/parser.c:457-571 | base_yylex changes the filter state and returns exactly what FilterStep says |
| Settings.ScanFrom | src/parser/parser.c:581 | the `%d.%d.%d` scan reads at most the numbers asked for; what it reads is Settings.ParseTwoNumbers and Settings.ParseThreeNumbers |
| Settings.ParseVersion | src/parser/parser.c:573-590 | the result is -1 exactly when fewer than two numbers are read, in particular when the text does not start with a digit |
| Settings.ParseOneNumber | src/parser/parser.c:583-584 | a single number is rejected with -1 |
| Settings.ParseTwoNumbers | src/parser/parser.c:586-589 | "major.minor" gives (100 * major + minor) * 100 |
| Settings.ParseThreeNumbers | src/parser/parser.c:581-589 | "major.minor.rev" gives (100 * major + minor) * 100 + rev |
| Settings.EncodingId | src/parser/parser.c:615-619 | SQL_ASCII is 0 and UTF8 is 6 |
| Settings.ParserSettings.constructor | src/parser/parser.c:33-34 | the version number starts at 0 and the encoding at SQL_ASCII |
| Settings.ParserSettings.SetParam | src/parser/parser.c:592-613 | server_version is parsed as a version; the encoding is UTF8 exactly for "UTF8"; standard_conforming_strings is on exactly for "on"; the other settings are kept, and an unknown name changes nothing |
| Settings.ParserSettings.GetDatabaseEncoding | src/parser/parser.c:615-619 | the result is 0 or 6, and 6 exactly for UTF8 |

## Left out

- The grammar and the core scanner (base_yyparse, core_yylex, scanner_init, parser_init) are not part of this model. What base_yyparse makes of the text is the `Driver.Grammar` parameter. The scanner is the token stream `core` of `Lookahead.Filter`. That stream is taken never to yield the three relabelled tokens, which only the filter produces.
- The PG_TRY/PG_CATCH non-local jump and FlushErrorState: only the resulting outcome mapping is modelled.
- scanner_finish, which raw_parser calls on the normal path and in the catch block alike, is not modelled: the model has no scanner lifetime.
- Memory management (MemoryContextInit, palloc, pfree, pstrdup, free_parser): whether a memory context exists is the `ready` parameter of `Driver.Verify`, and free_parser is not modelled.
- nodeToString is not part of this model: `Nodes.Render` is a stand-in whose text only feeds the notHandled and setQuery logs.
- Update in place: the walker's methods return the rewritten tree instead of overwriting `relname` and `val.str` inside shared nodes, so aliasing between parse-tree nodes is not represented.
- The `location` argument that check_node and check_list pass around is dropped; nothing reads it.
- IntList and OidList: check_node treats them like List, but the model's `List` holds nodes only.
- Statement nodes: the fields that Select, Insert, Delete and Update visit are kept in one sequence and visited in the source's order by the shared list walk, not by one call per field. The fields they skip are kept unvisited.
- The SortBy/Alias fall-through reads an Alias field out of a SortBy's memory; the name it reads is abstracted as an unspecified string.
- The provider's own implementation is not part of this model. Its lookups are arbitrary maps. hasAlias on a NULL or dead handle answers false, and addAlias's result is ignored, as in the walker.
- The root record's query type is never initialised by verify; it is an arbitrary parameter of `Driver.Verify`.
- The scan-buffer hold-character juggling in base_yylex: only the recorded end position `lookaheadEnd` is kept, not the buffer it points into. The semantic-value union translation is not modelled either.
- Settings.ParseVersion: reads unsigned digit-string components only; sscanf's whitespace skipping, signs and int overflow are not modelled.
- pg_mblen is a foreign encoding call and is not modelled.
