# Verification of wp-knowledge

This project models the logic of `wp-knowledge`, the layer that sits between a log engine and its SQL
databases, and proves what that logic promises. It covers six parts of the program:

- **SQL text.** Three scanners (`find_keyword`, `matching_paren`, `strip_provider_prefix`) and two
  placeholder rewriters work byte by byte. `SqlScan` gives one automaton for what counts as code, `SqlPieces`
  one reading of a statement as opaque text, code bytes, casts and parameters; every loop is a method proved
  against them. Routing commutes with prefix stripping, and the two dialects bind the same fields. `Bytes` writes
  the classes of bytes out, and `RouteExamples` what routing makes of the statements its documentation starts from.
- **Provider runtime.** `Runtime` and `ResultCache` are step systems: a step is one atomic access or one
  critical section, and any number of installers, readers, routers and queries interleave freely. A run is a
  sequence of states, and the theorems speak of every run; where a promise needs installs not to overlap, the
  theorem says so about the run. `Installs` tells from the last instant of a run what the installs under way may
  still do; `RegistryHistory` and `ResultSettings` tell the registry and the cache's settings from the actions of
  a run.
- **Local cache.** `FieldCache.FieldQueryCache` is the cache with its seven tables, updated in place;
  `LocalCache` is the same cache as a value, compared with a plain map over all histories; `LocalHistory` says
  what a hit is from the operations alone. `Facade` composes
  it with the runtime and the shared result cache, and `HitsExact` says exactly which runs keep its hits exact.
- **VEL.** The parser, the evaluator with saturating 64-bit arithmetic, and the template substitution.
- **Refresh and load.** Tickers that swap table generations, and the CSV load in batches.
- **CIDR.** The IPv4 functions given to SQL, on 32-bit words and on the texts they come from.

## Conventions

- SQL is a Dafny `string`; a character stands for a byte. The code copies single bytes as characters
  (src/postgres.rs:720, src/sql_route.rs:336), so the claims about copied text are meant for ASCII.
- Hashes of SQL, names, parameters and scopes are taken as injective: keys are the hashed contents themselves.
  The mixing of a scope with a provider name (src/facade.rs:696) is a scope number per source.
- Atomics are sequentially consistent.
- A time or an address is written to the hasher as one unit by its own `Hash` (src/runtime.rs:1367-1382); what
  it writes is taken to determine the value.
- A provider answers the same statement, mode and bound values alike as long as its generation lasts; any
  execution may also fail.
- The inner loops that the three route scanners repeat are shared methods (`SqlRoute.SkipQuoted` and the
  others), as are those of the two dialects (`RewriteLoops`). The six arities of save and fetch are one method
  over one to six parameters.

## Where the code differs from its promises

Each of these is stated as an exact condition, with a lemma (or a method) at an input that shows the failure.

- Nothing keeps two installs of the default provider from overlapping. When the sections between their two epoch
  bumps do, the epoch is even again too early and a read may return a generation that was not current during the
  call: exactly when some instant of the run is torn, that is, has an even epoch and a stored generation that is
  not the slot's (`Runtime.ReadsExactIff`, `Runtime.OverlapTears`). Unless a further install begins this cannot
  happen any more exactly when at most one install is under way (`Installs.ReadsStayExactIff`).
- Such a tear can outlast both installs (`Installs.TearOutlasts`), and the local cache then serves rows of another
  generation than the one a call read: hits stay exact exactly when no instant is torn (`HitsExact.HitsExactIff`,
  `HitsExact.OverlapLeavesWrongHits`).
- An install that sets the slot after a later one has done so puts the older generation back
  (`Runtime.LateInstallGoesBack`). Unless a further install begins, the slot never falls exactly when at most one
  install has yet to set it, and to a newer generation than it holds (`Installs.SlotNeverFallsIff`).
- `strip_provider_prefix` and `first_table_name` do not commute for the name `from`, whose removal may take the
  keyword along (`RouteCommutes.CommutesIff`, `RouteCommutes.KeywordNameBreaksCommuting`). This concerns the two
  functions called with unrelated arguments; `compute_route` strips only the name its first table begins with,
  and for that one the first table is always the stripped one (`RouteCommutes.RoutedNameCommutes`).
- A reset of the index tables between two parameters of one save leaves a key that mixes old and new indices,
  and a later fetch can return a row that was never saved for its values (`LocalCache.SaveSoundIff`,
  `LocalCache.SplitSaveCausesWrongHit`). Only callers that never prepare a generation can meet it
  (src/cache_util.rs:9-27, used at src/mem/memdb.rs:66-74): the reset forgets the generations too, so the cached
  calls of the facade purge the scope before they look (`LocalHistory.HitIsLastSaved`, `Facade.LocalHitsAreExact`).
- A big integer that travels through `fields_to_params` and back is bound as text by PostgreSQL and MySQL
  (`ResultKeys.FieldsRoundTripIff`, `ResultKeys.BigIntegerBecomesText`).
- A stray `$` in code that runs into a parameter joins the placeholder to a dollar-quote tag, so that the rewritten
  statement reads differently (`RewriteProofs.PostgresRescan`, `RewriteProofs.DollarBeforeParam`).
- A stray `$` before one of the numbers given out cannot be told from a placeholder in the rewritten text
  (`RewriteProofs.PostgresRoundTripIff`, `RewriteProofs.NumberInStatement`).
- The documentation of VEL allows a `#` comment after any expression (src/vel.rs:22); the code takes a call to
  end at the last `)` of the line, so a `)` in the comment is read as the call's
  (`VelComments.CommentIgnoredIff`, `VelComments.ParenInComment`).
- The next phase slot is `(cur + 1) mod N` at every moment only if the bucket divides the period; otherwise the
  partial last slot is skipped (`VelEval.NextIsModularIff`, `VelEval.PartialSlotIsSkipped`).
- A load that ends with fewer rows than the configured minimum reports an error after all its rows were
  committed (`Loader.LoadOneTable`, `Loader.TooFewRowsStay`).
- `cidr4_contains` and the range test disagree on texts that do not parse, when the range ends at the largest
  address or the address is zero (`Cidr.TextsAgreeIff`, `Cidr.UnreadableAddress`, `Cidr.UnreadableNetwork`).

## Model

| member | source | states |
|---|---|---|
| SqlRoute.FindKeyword | src/sql_route.rs:85-156 | the result is the first code position (outside quotes, brackets and comments) where the keyword stands as a whole word, ignoring case; none if there is no such position |
| SqlRoute.MatchingParen | src/sql_route.rs:159-228 | the result is the first code position, scanned from the opening position, at which the nesting depth returns to zero; none if it never does or the depth would go below zero |
| SqlRoute.FirstTableName | src/sql_route.rs:233-251 | the loop and its recursion into strictly shorter subqueries return the table reference after the first `from`, trimmed, or none |
| SqlRoute.StripProviderPrefix | src/sql_route.rs:258-340 | exactly the code spans `name.` at an identifier boundary and before an identifier or quoted name are deleted; every other byte is kept in order |
| SqlRoute.SkipQuoted | src/sql_route.rs:91-105 | skipping a quoted region ends where the automaton is back in code, and no position inside is code |
| SqlRoute.SkipBlockComment | src/sql_route.rs:127-138 | the same for a block comment, unterminated ones included |
| SqlScan.Window | src/sql_route.rs:243 | a scan of a slice that begins in code sees the same modes as the scan of the whole statement |
| RouteCommutes.ModeKept | src/sql_route.rs:258-340 | removing prefixes changes no byte's mode: code stays code, quoted stays quoted |
| RouteCommutes.FirstKeywordKept | src/sql_route.rs:234 | the first `from` of the stripped statement is the first `from` of the statement, moved by what was removed, whenever that one is not itself part of a prefix |
| RouteCommutes.CloseKept | src/sql_route.rs:242 | the matching parenthesis is found at the corresponding position after stripping, or in neither |
| RouteCommutes.RoutingCommutes | src/sql_route.rs:233-340 | for every statement and every name other than `from`, the first table of the stripped statement is the stripped first table, through any depth of subqueries |
| RouteCommutes.KeywordNameBreaksCommuting | src/sql_route.rs:233-340 | the two functions alone: for the name `from`, in any letter case, there is a statement for which they do not commute |
| RouteCommutes.CommutesIff | src/sql_route.rs:233-340 | the two functions alone commute on all statements exactly when the name is not `from`, ignoring case |
| RouteCommutes.RoutedNameCommutes | src/sql_route.rs:71-78 | for the name that the first table begins with, the only one that routing strips, the first table of the stripped statement is the stripped first table, whatever the name |
| RouteCommutes.ComputeRoute | src/sql_route.rs:71-78 | a route exists exactly when the first table's first segment is a non-empty registered name; the routed statement is the statement without the name's prefixes, and its first table is the stripped one, for every such name |
| Bytes.PrefixBytes | src/sql_route.rs:323-335 | a prefix, byte for byte: `name.` at a code position, behind neither a byte of `[A-Za-z0-9_]` nor a dot, before a byte of `[A-Za-z0-9_]`, a double quote, a backtick or `[` |
| Bytes.Words | src/sql_route.rs:80-82 | the bytes of identifiers are the letters, the digits and the underscore |
| Bytes.Cases | src/sql_route.rs:142 | keywords are compared with both forms of a letter alike and every other byte as it is |
| Bytes.Spaces | src/sql_route.rs:238 | the white bytes, of `is_ascii_whitespace` and of `trim` |
| Bytes.EndBytes | src/sql_route.rs:246-248 | a table ends at a white byte, `;`, `,` or `)` |
| Bytes.Quotes | src/sql_route.rs:271 | the quotes are `'`, `"` and the backtick |
| RouteExamples.FirstTableIs | src/sql_route.rs:233-251 | the first table of `select * from name.table…` is `name.table`, for every name and every spelling of the table, whatever white byte, `;`, `,` or `)` follows |
| RouteExamples.StrippedIs | src/sql_route.rs:253-257 | stripping leaves `select * from table…` exactly when the table starts with a byte of `[A-Za-z0-9_]`, a double quote, a backtick or `[`, and the statement as it is otherwise |
| RouteExamples.Spellings | src/sql_route.rs:523-533 | the plain table and its three quoted spellings |
| RouteExamples.TableEnds | src/sql_route.rs:246-248 | a table before a space, a comma, a semicolon, a parenthesis and the end of the statement |
| SqlPieces.PiecesCover | src/postgres.rs:598-724 | the reading of a statement as pieces covers it byte for byte |
| SqlPieces.ByNameIsLast | src/postgres.rs:574-589 | a parameter is given the last field that carries its name, with or without the colon, and none when there is no such field |
| RewriteLoops.ParseDollarQuoteTag | src/postgres.rs:729-748 | the length of a dollar-quote tag at the start of the text, none if it is not one |
| RewriteLoops.CopyBlockComment | src/postgres.rs:659-672 | the loop copies the region verbatim and the pieces read there are opaque |
| PostgresRewrite.RewriteSql | src/postgres.rs:582-727 | succeeds exactly when every code-position parameter is given some field under its name, with or without colon; the text is the reading with each parameter replaced by its number, and the field of each distinct name, in first-occurrence order, is the last one given under it; a failure names a missing parameter |
| MysqlRewrite.RewriteSql | src/mysql.rs:425-561 | succeeds on exactly the same inputs; the text has `?` at every occurrence, and the field of each occurrence is the last one given under its name |
| RewriteProofs.DialectsAgree | src/mysql.rs:544-551 | both texts and the source have the same literal text between the marks, and at every occurrence the number's field is the positional field |
| RewriteProofs.NumbersInOrder | src/postgres.rs:708-715 | numbers follow the order of first occurrence |
| RewriteProofs.Rescan | src/postgres.rs:598-748 | a rewritten statement reads as the same pieces with the marks in place of parameters, exactly unless the marks carry a `$` and a stray `$` runs into a parameter |
| RewriteProofs.PostgresRescan | src/postgres.rs:673-683 | the numbered text has the same quoted regions and comments and no parameters, exactly when no stray `$` joins a placeholder into a tag |
| RewriteProofs.MysqlRescan | src/mysql.rs:440-558 | the positional text always does |
| RewriteProofs.RewriteAgain | src/postgres.rs:582-727 | rewriting the output again with no parameters is the identity |
| RewriteProofs.PostgresRoundTripIff | src/postgres.rs:708-717 | putting the names back into the numbered text restores the source byte for byte, exactly when no stray `$` forms a tag with a placeholder and none stands before a number that was given out |
| RewriteProofs.DollarBeforeParam | src/postgres.rs:673-683 | `$:a` is rewritten to a text in which the placeholder is no longer read |
| RewriteProofs.NumberInStatement | src/postgres.rs:708-717 | `:a$1` is not restored |
| LocalCache.GetAgreesWithUp | src/cache.rs:60-174 | over any sequence of interned values with its resets, a lookup returns exactly the index last issued for the value |
| LocalCache.KeyOfIsSameValue | src/cache.rs:60-80 | two parameters are interned as one exactly when they have the same type and value, or are equal texts of the textual types |
| LocalCache.KeyedIffIndexed | src/cache.rs:78 | exactly null, ignored, object and array values have no index |
| LocalCache.SaveSoundIff | src/cache.rs:92-105 | a save keeps every cached entry true to the plain map exactly when no reset fires at a parameter after the first |
| LocalCache.OneParameterNeverSplit | src/cache.rs:228-238 | one-parameter saves always meet that condition |
| LocalCache.RunSound | src/cache.rs:178-293 | over every history that meets the condition, the whole cache agrees with the plain map keyed by values |
| LocalHistory.HitIsLastSaved | src/cache.rs:240-248 | over every run the cache never exceeds its capacity, and a hit on a scope whose generation the cache knows is the row of the last save for the same values in that scope, none of whose generation changes came since; for other scopes the same when no stored save is split |
| LocalHistory.LedgerIsLastSave | src/cache.rs:178-284 | the record that the cache is compared with holds for a scope and its values exactly the row of that last save |
| LocalHistory.RecentIsHit | src/cache.rs:178-284 | a saved row is found by whoever asks for the same values, while fewer saves than the capacity have followed, the scope's generation has not changed and no reset is due |
| LocalCache.HitIsOnRecord | src/cache.rs:240-248 | any hit is for a scope that something was saved for since its last generation change |
| LocalCache.SaveThenFetch | src/cache.rs:264-284 | a row saved for some values is found at once by whoever asks for the same values, unless a reset fired midway |
| LocalCache.SplitSaveCausesWrongHit | src/cache.rs:264-274 | a concrete run after which a fetch returns a row for values it was never saved for |
| FieldCache.FieldQueryCache.WithCapacity | src/cache.rs:44-58 | a new cache is empty and holds at least one entry |
| FieldCache.FieldQueryCache.GetIdxOf | src/cache.rs:60-80 | the lookup in the table of the value's type returns the value's interned index |
| FieldCache.FieldQueryCache.TryUpIdxOf | src/cache.rs:92-174 | the in-place interning, with its reset at the cap, is the operation on the value-level cache |
| FieldCache.FieldQueryCache.SaveScopedRow | src/cache.rs:264-274 | saving in place is the value-level save, for one to six parameters |
| FieldCache.FieldQueryCache.FetchScopedRow | src/cache.rs:276-284 | fetching returns what the value-level fetch returns and changes nothing |
| FieldCache.FieldQueryCache.PrepareGenerationScoped | src/cache.rs:178-192 | a new generation drops exactly the entries of its scope |
| FieldCache.FieldQueryCache.IndicesAreExactlyTheCounter | src/cache.rs:60-174 | in every valid state the indices of the seven tables are distinct and together are exactly 1 to the counter |
| Runtime.ReadsLinearize | src/runtime.rs:487-501 | in every run that is never torn, every generation read returns the generation of the default provider at some instant inside the call, on the fast path and on the locked one |
| Runtime.ApartIsUntorn | src/runtime.rs:405-425 | a run in which the sections between the two epoch bumps of default installs do not overlap is never torn |
| Runtime.ReadsExactIff | src/runtime.rs:405-425 | with installs overlapping as they like, reads that follow a run are exact precisely when no instant of it has an even epoch and a stored generation that differs from the slot's |
| Runtime.OverlapTears | src/runtime.rs:413-425 | two overlapping swaps lead to such an instant |
| Runtime.ReadsNeverGoBack | src/runtime.rs:487-501 | in a run that is never torn and in which at most one install at a time has yet to set the slot, a read that begins after another has ended never returns an older generation |
| Runtime.OneAtATimeSuffices | src/runtime.rs:344-425 | both hold when default installs do not overlap at all |
| Runtime.SlotGrows | src/runtime.rs:413-425 | while at most one install has yet to set the slot, its generation never falls |
| Runtime.LateInstallGoesBack | src/runtime.rs:355-425 | otherwise an install whose swap waits for a later install sets an older generation, though no two swaps overlap |
| Installs.SlotNeverFallsIff | src/runtime.rs:355-425 | after any run, and unless a further default install begins, the slot never falls again exactly when at most one install has yet to set it and that one's generation is newer than the slot's |
| Installs.ReadsStayExactIff | src/runtime.rs:405-425 | after any run whose swaps did not overlap, and unless a further default install begins, no instant is torn and every read is exact, exactly when at most one default install is under way |
| Installs.TearOutlasts | src/runtime.rs:413-425 | two overlapping swaps that are both over, with the newer generation in the slot and the older one stored |
| Installs.TearStays | src/runtime.rs:405-501 | once no default install is under way, a tear stays until the next one begins |
| Installs.ReadWhileSwapping | src/runtime.rs:487-501 | a read that meets an install and is then alone returns what the slot holds |
| Installs.FailedBuildIsOver | src/runtime.rs:372-392 | an install whose build fails leaves registry, slot and epochs as they were, and is over |
| Runtime.RoutesAreFresh | src/sql_route.rs:43-69 | a routing call begun after a registry change is over returns a route computed from the registry at some instant after that change, even when a delayed writer put the memo back to an older epoch; the memo never exceeds its cap |
| Runtime.InstallIsOver | src/runtime.rs:405-412 | a completed install is such a change |
| Runtime.PruneIsOver | src/runtime.rs:595-603 | so is a prune that removes a name |
| RegistryHistory.NamesAreLastInserts | src/runtime.rs:405-411 | at every instant of every run a name holds a generation exactly when the last insert under it was of that generation and no prune since has left the name out |
| RegistryHistory.PruneKeepsExactly | src/runtime.rs:595-603 | after a prune exactly the names it keeps are registered, with their generations |
| RegistryHistory.SlotIsLastSet | src/runtime.rs:405-425 | the default provider is the one whose install set the slot last, and there is none before |
| Installs.RouteAlone | src/sql_route.rs:43-69 | a routing call alone that misses the memo returns the route of the registry as it is, and remembers it under its epoch |
| Installs.RouteRemembered | src/sql_route.rs:43-69 | with the registry unchanged the next call for the statement is answered from the memo |
| Installs.RememberKeeps | src/sql_route.rs:56-67 | below its cap the memo keeps what it holds when a statement is added under the same epoch |
| Runtime.NameHoldsThroughout | src/runtime.rs:355 | a name that points to one generation at two instants pointed to it all the time in between |
| Runtime.SlotHoldsThroughout | src/runtime.rs:413-425 | the same for the default provider's slot, however installs overlap |
| Runtime.SwapKept | src/runtime.rs:413-425 | while swaps do not overlap, every step keeps the relation between slot, stored generation and the parity of the epoch |
| Runtime.GenerationsKept | src/runtime.rs:355 | every step keeps generations unique and within the counter |
| ResultKeys.EqualStreamsBindEqual | src/runtime.rs:1341-1418 | field lists with the same hash stream bind the same named values |
| ResultKeys.EqualKeysBindEqual | src/runtime.rs:1273-1339 | keys from either builder that are equal bind equal values |
| ResultKeys.BoundAlike | src/postgres.rs:534-567 | two fields are bound alike exactly when they have the same type and value, or are equal texts |
| ResultKeys.KindsTagged | src/runtime.rs:1341-1418 | the textual kinds are hashed under distinct tags |
| ResultKeys.ParamsRoundTrip | src/runtime.rs:1420-1468 | parameters to fields and back is the identity |
| ResultKeys.FieldsRoundTripIff | src/runtime.rs:1420-1468 | with PostgreSQL and MySQL, fields to parameters and back binds the same values exactly when no field is a big integer |
| ResultKeys.FieldsRoundTripSqlite | src/mem/memdb.rs:85 | with SQLite, which binds big integers as text, it always does |
| ResultKeys.SqliteAlike | src/mem/memdb.rs:75-95 | SQLite binds alike what the others do, and besides truth values as 0 and 1 and big integers as their texts |
| ResultKeys.BigIntegerBecomesText | src/runtime.rs:1420-1468 | a big integer that comes back as text |
| ResultCache.HitsAreSound | src/runtime.rs:645-850 | every hit was produced by executing the same SQL, mode and bound values on a handle of the same datasource and generation, and its age, taken inside the call, is within the time to live, under reloads, eviction, resizing, disabling and in-flight queries with old handles |
| ResultCache.CacheIsTransparent | src/runtime.rs:645-850 | whatever is cached, whenever, a query that comes back brings what the provider of its own handle's generation answers to its statement, mode and bound values |
| ResultCache.CacheStaysBounded | src/runtime.rs:442-475 | the shared cache never exceeds its capacity |
| ResultCache.SecondQuery | src/runtime.rs:645-850 | asked again within the time to live the cache answers, with the age in between; later the entry goes and the query executes |
| ResultHistory.SavedIsFound | src/runtime.rs:645-850 | a saved response is found under its key until as many other saves have followed as the cache has room for, unless the cache was emptied or the entry dropped or replaced |
| ResultSettings.ConfigureAlone | src/runtime.rs:442-475 | a configuration that nothing disturbs leaves all its settings in use, and the cache empty if it is to be |
| ResultSettings.FailAlone | src/runtime.rs:829-841 | a query whose execution fails is over and leaves the cache and the log |
| ResultSettings.SettingsAreConfigured | src/runtime.rs:442-475 | the flag, the time to live and the capacity in use are at every instant those asked for by the configuration that wrote them last, or the defaults |
| ResultSettings.EmptiesIff | src/runtime.rs:448-475 | a configuration empties the cache before it is over exactly when it asks for another capacity or switches the cache off |
| ResultSettings.NoHitWhileOff | src/runtime.rs:645-656 | a query begun while the cache is off does not hit as long as it stays off |
| ResultSettings.HitsObeyTtl | src/runtime.rs:442-475 | a hit's age is within the time to live in use at an instant of the query |
| Facade.LocalHitsAreExact | src/facade.rs:637-743 | over every run of installs and prunes that is never torn, every run of the shared result cache and every sequence of cached calls, resets inside a save included, a local hit is the row that the provider of the generation the call read would itself have answered, although generation and executing handle were read at different moments |
| Facade.CallsReturnAnswers | src/facade.rs:637-704 | whatever a call returns is the row of the provider whose generation it read, or of the one it found for executing, or the empty row when it neither hit nor executed |
| Facade.ReadHasInstant | src/facade.rs:637-644 | in a run that is never torn, the generation a call has read, by an answered read of the runtime or by name, was held at some instant inside that read |
| Facade.ExecutedIsAnswer | src/runtime.rs:772-850 | what executing through the shared result cache brings is what the provider found by the call answers |
| HitsExact.HitsExactIff | src/facade.rs:637-743 | local hits are exact in all cached calls that follow a run, at each of its instants, precisely when no instant of it is torn |
| HitsExact.HitsStayExactIff | src/facade.rs:637-743 | after a run whose swaps did not overlap, and unless a further default install begins, local hits stay exact exactly when at most one default install is under way |
| HitsExact.OverlapLeavesWrongHits | src/facade.rs:637-659 | two installs that overlapped and are over can leave wrong hits behind |
| VelTemplate.ResolveVars | src/vel.rs:226-268 | the loop computes the token-level substitution with the later binding winning; substituted values are never read again |
| VelTemplate.LastBindingWins | src/vel.rs:226-235 | a name stands for what it was bound to last |
| VelTemplate.TokensCover | src/vel.rs:236-265 | the reading of a template as tokens covers it |
| VelTemplate.TokensMaximal | src/vel.rs:247-254 | every reference read is a maximal `$identifier` and none is missed |
| VelTemplate.TokensUnique | src/vel.rs:223-225 | there is only one such reading |
| VelTemplate.OwnNamesChangeNothing | src/vel.rs:255-265 | substitution is the identity when every variable that occurs is bound to its own `$name` |
| VelParse.Parse | src/vel.rs:64-95 | the loop reads the lines one after the other with the names taken so far, stopping at the first error with its line number |
| VelRoundTrip.ParseInvertsPrint | src/vel.rs:64-175 | parsing the printed form of printable definitions with distinct names returns them |
| VelRoundTrip.ParseReturnsExactlyThePrintable | src/vel.rs:64-175 | the lists that some code parses to are exactly the printable ones with distinct names |
| VelProofs.ExprReads | src/vel.rs:97-165 | a printed expression reads back, whatever permitted tail without a `)` follows |
| VelComments.CommentIgnoredIff | src/vel.rs:113-129 | for every expression the parser accepts, however written, a comment after it is ignored exactly when the expression is a literal or the comment holds no `)` |
| VelComments.ParenInComment | src/vel.rs:22-31 | the documented call with two arguments, followed by any comment with a `)`, is not read as it is without |
| VelTexts.Numbers | src/vel.rs:131-134 | a number may carry a plus sign, and is refused beyond 64 bits |
| VelTexts.OtherTexts | src/vel.rs:131-134 | a number with any other byte is refused |
| VelTexts.PrefixQuoted | src/vel.rs:167-175 | a third argument is the text between two double quotes, and nothing else is accepted |
| VelTexts.CommentLine | src/vel.rs:68-71 | a line whose first visible byte is `#` defines nothing |
| VelTexts.WhiteLine | src/vel.rs:68-71 | a white line defines nothing |
| VelEval.SlotBelowCount | src/vel.rs:213 | every slot index is below the number of slots, saturated or not |
| VelEval.SlotHoldsClock | src/vel.rs:208-213 | the slot is the one whose bounds, whole buckets from the start of the period, hold the moved clock |
| VelEval.NanosCount | src/vel.rs:201-202 | a second is a thousand million nanoseconds, up to the largest word |
| VelEval.QuarterMinute | src/vel.rs:194-214 | `phase_now(240, 15)` and `phase_next(240, 15)` at every moment of the first four minutes |
| VelEval.AfterOneMinute | src/vel.rs:188-219 | the two at a minute past: `p4` and `p5` |
| VelEval.SlotIsPeriodic | src/vel.rs:208-213 | whole periods later the slot is the same, without saturation |
| VelEval.NextIsOneBucketLater | src/vel.rs:208-209 | the next slot is the slot one bucket later, and the clock's last slot once the clock saturates |
| VelEval.NextStepsOrWraps | src/vel.rs:208-213 | the next slot is the following one, or the first when less than a bucket of the period is left |
| VelEval.NextIsModularIff | src/vel.rs:194-214 | the next slot is `(cur + 1) mod N` at every moment exactly when the bucket divides the period |
| VelEval.PartialSlotIsSkipped | src/vel.rs:194-214 | whenever the bucket does not divide the period there is a moment at which it is not |
| VelEval.Eval | src/vel.rs:188-219 | the values in line order, or the first definition whose phase is not valid |
| VelEval.Render | src/vel.rs:271-277 | the shortcut for empty code gives what parsing, evaluating and substituting give |
| VelEval.RenderOfPrinted | src/vel.rs:271-277 | rendering with printed definitions replaces every reference to a defined variable by its value and nothing else; it fails exactly when some phase is not valid |
| VelEval.RenderIsPeriodic | src/vel.rs:188-277 | whole periods of every phase later, any code renders any statement the same |
| Refresh.TableStore.Snapshot | src/refresh.rs:108-114 | the current generation of a table, or none |
| Refresh.TableStore.Insert | src/refresh.rs:117-122 | only the entry of the generation's own name changes |
| Refresh.SpawnWithStore | src/refresh.rs:155-177 | the loop starts the first spec of every name |
| Refresh.KeptIsFirst | src/refresh.rs:159-168 | whatever is started is the first spec of its name |
| Refresh.FirstIsKept | src/refresh.rs:159-168 | the first spec of every name is started, without an interval too |
| Refresh.FirstOfEachDistinct | src/refresh.rs:153-154 | no name is started twice |
| Refresh.SwapIn | src/refresh.rs:239-243 | on the store object, a ticker's swap is the step of the service: a fresh generation under its table's name, every other entry the same object as before |
| Refresh.Seed | src/refresh.rs:117-122 | an insert by the host is the service's step on the store object |
| Refresh.OthersLeaveStore | src/refresh.rs:221-261 | no step but a swap or a host insert touches the store object |
| Refresh.SignalsImplySnapshots | src/refresh.rs:240-246 | whoever received a signal finds a snapshot of the table at least as new as the swap that sent it; the channel never exceeds its capacity |
| Refresh.NeverGoesBackIff | src/refresh.rs:153-154 | no interleaving replaces a reload by one begun earlier, exactly when no two live tickers share a table |
| Refresh.CurrentIsLastReload | src/refresh.rs:221-261 | a table's current generation is the host's or the last swapped-in reload of the first spec of that name, and it began after all other reloads of the table |
| RefreshHistory.TableIsLastReplaced | src/refresh.rs:221-261 | at every instant a table's rows are those the host inserted last, or those of the ticker's last successful reload before its swap, whichever came last; there are none exactly before either |
| RefreshHistory.TaskEndsIff | src/refresh.rs:221-261 | a ticker runs on through failed reloads and dropped signals, until it is aborted or its signal meets a closed channel; one without an interval never runs |
| RefreshHistory.GoodRound | src/refresh.rs:221-261 | a round of one ticker alone: the rows go into the store, one signal into the channel, and the ticker is at its timer again |
| RefreshHistory.FailedRound | src/refresh.rs:232-238 | a round whose reload fails leaves everything but the clock |
| RefreshHistory.ClosedRound | src/refresh.rs:239-259 | once the receiver is closed a round still swaps its rows in, but its signal is dropped and the ticker ends |
| RefreshHistory.Stopped | src/refresh.rs:180-191 | after a shutdown a ticker at its timer can be ended |
| RefreshHistory.ReceivedCount | src/refresh.rs:138 | every receipt takes one signal, and what was received stays |
| RefreshHistory.AbortsAfterShutdown | src/refresh.rs:180-191 | a ticker is aborted only once the service was shut down |
| Refresh.EachSignalInOnePlace | src/refresh.rs:244-259 | over every run, each swap's signal is in exactly one place: received, waiting, about to be sent or dropped |
| Refresh.DroppedForAReason | src/refresh.rs:244-259 | a dropped signal was dropped at a send of its own ticker that met a full or closed channel, or waited in the channel when its receiver went |
| Refresh.FailedReloadsChangeNothing | src/refresh.rs:232-238 | as long as no reload of a table succeeds and the host leaves it alone, its generation stays |
| Refresh.StoppedServiceIsQuiet | src/refresh.rs:180-191 | once all tasks have ended, only the host changes the store, and no further signal is sent; what was sent is still received or waiting, but for what is lost with the receiver |
| Loader.ExtractRowRefs | src/loader.rs:736-755 | the projection of a record, or a counted skip, or an error, exactly when a column is missing |
| Loader.SelectIndicesByHeader | src/loader.rs:720-734 | the first position of every wanted header; an error exactly when one is missing |
| Loader.HeaderColumnsNeverMiss | src/loader.rs:612-616 | with columns chosen by header, a record as wide as the header never misses one, and each value comes from its column |
| Loader.InsertRow | src/loader.rs:644-656 | one turn of the loop keeps whole batches committed and the rest pending |
| Loader.LoadRecords | src/loader.rs:627-671 | the load runs to the first record that is refused: by its columns, by the insert, or by the commit of the batch it fills; on success the committed rows are the projections of the good records in file order and inserted plus bad is the number of records; on failure, of the last commit too, exactly the whole batches before it stay, without transactions every row inserted; no more than a batch is ever pending |
| Loader.LoadOneTable | src/loader.rs:564-694 | the same for a whole table, on top of what its create and clean-up scripts leave, also when the file or a column is missing; with the check of the row count, which comes after the commit |
| Loader.TooFewRowsStay | src/loader.rs:674-681 | one row where two are asked for: an error, and the row stays |
| Loader.GaveUpOnce | src/loader.rs:627-671 | what a failed load leaves is determined by the file and the table, and it never leaves it where a load would have completed |
| Loader.LoadAgain | src/loader.rs:579-593 | with the default clean-up, loading a table again from the same file leaves the same rows, failed loads included |
| Loader.WholeCountIsLargest | src/loader.rs:648-655 | the whole batches are the longest run of rows whose length is a multiple of the batch |
| Loader.LostRowsAreATail | src/loader.rs:640-656 | what a failed load keeps is a prefix of the file's good rows, and fewer than a batch of the inserted rows are lost |
| Loader.FailedLoadKeeps | src/loader.rs:629 | what a failed load keeps is a multiple of the configured batch size with fewer than that many rows lost, and every row for a size of zero |
| Loader.GoodRowsJoin | src/loader.rs:640-656 | loading two files one after the other brings in the rows of the joined file |
| Cidr.MaskIsContiguous | src/sqlite_ext.rs:163-164 | the mask of a prefix leaves a block of low bits |
| Cidr.MaskBits | src/sqlite_ext.rs:163-164 | exactly the top bits of the prefix are set |
| Cidr.NetworkText | src/sqlite_ext.rs:151-166 | a readable address, a slash and a numeral are a network exactly when the numeral is at most 32 |
| Cidr.SlashCount | src/sqlite_ext.rs:153-158 | a network has exactly one slash |
| Cidr.Prefixes | src/sqlite_ext.rs:160-163 | a prefix is a numeral of at most 32, with or without a plus sign |
| Cidr.OtherPrefixes | src/sqlite_ext.rs:160 | a prefix with any other byte is refused |
| Cidr.QuotesGo | src/sqlite_ext.rs:136-152 | the double quotes at both ends go, and no others |
| Cidr.MemberInRange | src/sqlite_ext.rs:141-149 | a member of the network lies between its minimum and maximum |
| Cidr.InRangeIsMember | src/sqlite_ext.rs:80-97 | and what lies between them is a member |
| Cidr.ContainsIsBetweenIff | src/sqlite_ext.rs:48-97 | on words: membership and the range test agree exactly unless an address that does not parse meets a range ending at the largest address, or a network that does not parse meets the address zero |
| Cidr.TextsAgreeIff | src/sqlite_ext.rs:132-167 | the same on any two texts, with their white space, quotes, prefix and splitting at `/` |
| Cidr.UnreadableAddress | src/sqlite_ext.rs:48-97 | the empty text lies in the range of `0.0.0.0/0` and is not contained in it |
| Cidr.UnreadableNetwork | src/sqlite_ext.rs:48-97 | `0.0.0.0` lies in the range of the empty text and is not contained in it |

## Left out

- SqlRoute.StripProviderPrefix: for names with characters outside `[A-Za-z0-9_]` it promises only that the empty name changes nothing; such names can cut through quotes.
- RouteCommutes.ComputeRoute: what it says about the routed text is for the same names.
- Facade.LocalHitsAreExact: assumes that the run is never torn (without that it is false, see above), that providers answer alike as long as their generation lasts, that a scope stands for one statement and the same parameter values for one question, and that calls on one cache follow each other, as the cache is borrowed mutably.
- Cidr.TextsAgreeIff: the reader of dotted addresses belongs to Rust's library and is any function here; bounds that are given to the range test as texts or wider integers are not modelled.
- Loader.LoadRecords: an insert is accepted or rejected depending on the rows already in the table, a commit depending on what is committed and pending; beginning a transaction and preparing a statement do not fail.
- Concurrent parts are step systems over values, not classes: `Runtime`, `ResultCache` and the running service in `Refresh` do not show update in place or aliasing of handles. That a generation once handed out is never changed (`Refresh.HeldGenerationsStay`) therefore holds by construction of the steps; on the store object it is that a swap brings a fresh object and leaves the others.
- The aborting of a task: a stopped task ends at its timer or inside its reload, at a moment of the scheduler's choice.
- Asynchronous variants of the query functions (src/facade.rs:745, src/runtime.rs:853): the same steps with suspension in between.
- Pools, sessions, row decoding and the clients of PostgreSQL, MySQL and SQLite: foreign calls.
- Redis and its cache: calls of a foreign client; its functions (src/fun.rs) are configured entries looked up by name.
- Configuration files, path handling, CSV lexing, SQLite backup and file reading: inputs here.
- Telemetry, counters and logging change no result. Display and hexadecimal formatting, `trim_quotes`, `ip4_text` and the intranet list are single expressions over their argument, on which nothing modelled here depends.
- Non-ASCII white space in VEL code and in addresses: `trim` removes the ASCII white characters only.
