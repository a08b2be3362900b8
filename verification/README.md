# Verified models of the check engine, the API middleware and the AI engine

This project models the parts of IronLayer in which a fast or stateful implementation has to agree
with a simple statement, and proves that it does, over every input or every run. Each module keeps the
form of the code it models: loops are loops, objects that update their fields are classes, and what
only computes is a function. `dafny verify dfyconfig.toml` checks everything.

| module | what it models |
|---|---|
| `Utf8`, `LexSpec`, `LexPosition`, `Keywords`, `KeywordTable`, `SqlLexer`, `LexTheorems`, `LexCase`, `LexKinds` | the byte-level SQL lexer, its tokens as relations on the source, and line and column counting |
| `Text`, `Header` | the `-- key: value` header block: stripping, parsing, looking for a name |
| `AutoFix` | the in-place line edits of `--fix`, against applying all of them at once |
| `CanonicalJson`, `JsonReader` | the canonical form behind the configuration hash, and a reader that undoes it |
| `CheckCache`, `CheckCacheRuns` | the persisted result cache, and many concurrent runs over one cache file |
| `Revocation`, `RevocationBatch`, `RevocationDictionary`, `RevocationProtocol`, `RevocationBatchSteps` | the token revocation check, single and batch, when the two agree, and many replicas over one store and one database |
| `SlidingWindow`, `RateLimit`, `RedisRateLimit`, `TenantBucket` | the rate limiters: in process, in Redis, and the AI engine's |
| `LoginLimiter`, `LoginRaces` | the growing lock-out after failed logins, in memory and in Redis, and with replicas that overtake each other |
| `Calendar`, `UsageRepo`, `BudgetGuard`, `BudgetProtocol` | LLM budgets: month arithmetic, the pruned usage list, the guard, and any number of tasks under its weakly held lock |
| `ResponseCache` | the response cache with expiry, eviction and statistics |
| `Fragility` | the breadth-first searches of the fragility scorer |
| `CostAnomaly` | z-scores, percentiles and fences, over exact reals |
| `Options` | an optional value |

Conventions. Floating-point numbers are exact reals; money is counted in micro-dollars and calendar time
in microseconds, both as integers. A clock is a parameter of each call, non-decreasing where a method
requires it and not negative. SHA-256 is a function without collisions. Unicode tables (`char::is_alphanumeric`, lower-casing)
are function parameters. A `ghost` field of a class is the history its methods are measured against: every
hit, every failure, every record, every put.

## What the proofs found

- `RevocationBatch.OneLookupRaises`: the batch stops at the first database look-up that raises and rejects every
  identifier behind it, which single checks would accept and cache; `BatchAgreesIff` says exactly when the two agree.
- `RevocationDictionary.BatchKeepsExpiredEntry`: even with the same answers they do not always leave the same
  dictionary; an expired entry can survive the batch. `DictionariesAgreeIff` says exactly when they do.
- `RevocationProtocol.StalenessAttained`: the cache's time to live alone does not bound how long a revoked
  token is accepted; the duration of the database lookup adds to it, and the sum is attained.
- `LexTheorems.PositionsExactIff`: positions differ from those of a plain octet count for two reasons and no other: a
  carriage return without line feed inside a quoted identifier loses a line, and a word counts a character outside
  ASCII as one column.
- `AutoFix.RemovalSpills`: fixes that follow a line removal on the same line are applied to the line that moves up;
  `InPlaceIff` says, on the original lines, exactly when that changes the result.
- `CheckCache.ReplayExactIff`: diagnostics of four of the fourteen categories come back from the cache as
  `FileStructure`.
- `CheckCacheRuns.FastHitCanBeStale`: an edit that keeps size and modification second is answered from the cache with
  what the checkers said before; `FastHitCurrentIff` says exactly when a hit is current.
- `LoginLimiter.ForgettingIff`: forgetting an old record changes no check at first, but it does reset the counter, so
  later failures lock later or more briefly, until nine of them have reached the longest lock.
- `LoginRaces.LateWriteUnlocks`: in Redis a failure that is slow to be written undoes the count and any lock set
  meanwhile; `RacesBound` is what is left of the back-off.
- `BudgetProtocol.OvershootAttained`: a period's spend can be the most that is still below the budget plus the
  whole cost of the last call, and never more (`OvershootBound`).
- `CostAnomaly.LabelRightIff` and `ExcessCalledDrop`: an excess over a constant history is labelled a drop.
- `Header.SpaceOverlooked` and `CapitalOverlooked`: `-- name : x` and `-- Name: x` are names for the parser and none
  for the project detection; white space before the colon and letters that lower-casing changes are the only
  causes (`IsNameLineIff`).
- `UsageRepo.PruningInvisibleIff`: 31 days is the least age at which pruning is invisible to monthly budgets.

## Model

| member | source | states |
|---|---|---|
| `Utf8.ValidIffWellFormed` | check_engine/src/sql_lexer.rs:257-265 | the octets of a `&str` (section 3 of RFC 3629) are exactly those in which every octet that is not a continuation starts a whole character |
| `Utf8.NextBoundary` | check_engine/src/sql_lexer.rs:632-694 | the width of a character leads from one boundary to the next, with only continuation octets in between |
| `Utf8.DecodeIsInverse` | check_engine/src/sql_lexer.rs:632-694 | the character decoded at a boundary encodes back to the octets there |
| `LexSpec.LexemeUnique` | check_engine/src/sql_lexer.rs:257-854 | at any offset at most one kind and one end satisfy the token relations, so they leave the lexer no choice |
| `LexSpec.BlockCommentUnique` | check_engine/src/sql_lexer.rs:345-382 | a nested comment has one end: the first point where its depth is back to 0, or the end of input |
| `LexSpec.StringUnique` | check_engine/src/sql_lexer.rs:494-533 | a string literal has one end: the first unpaired quote, or the end of input |
| `Keywords.IsKeyword` | check_engine/src/sql_lexer.rs:247-250 | the binary search finds the word exactly when a table entry spells it letter by letter, a small letter standing for its capital |
| `KeywordTable.TableAscending` | check_engine/src/sql_lexer.rs:82-244 | the 161 keywords are in strictly ascending order |
| `KeywordTable.TokenizeSql` | check_engine/src/sql_lexer.rs:257-854 | `tokenize` with the lexer's own table terminates on every UTF-8 source and yields its tokenization |
| `SqlLexer.ScanBlockComment` | check_engine/src/sql_lexer.rs:345-382 | ends where the nesting depth first returns to 0, else at the end of input, and counts lines and columns as a plain scan |
| `SqlLexer.ScanJinjaBlock` | check_engine/src/sql_lexer.rs:425-475 | ends just past the first closing pair, else at the end of input, with plain positions |
| `SqlLexer.ScanString` | check_engine/src/sql_lexer.rs:494-533 | ends at the first unpaired quote, else at the end of input, with plain positions |
| `SqlLexer.ScanQuotedIdent` | check_engine/src/sql_lexer.rs:538-587 | ends just past the next mark of the same kind, else at the end of input; only line feeds break its lines |
| `SqlLexer.ScanNumber` | check_engine/src/sql_lexer.rs:592-627 | takes a fraction only before a digit, and an exponent mark always |
| `SqlLexer.ScanWord` | check_engine/src/sql_lexer.rs:632-703 | takes whole characters up to the first that cannot continue a word, one column each |
| `SqlLexer.ScanToken` | check_engine/src/sql_lexer.rs:266-850 | every branch yields the one token that the relations allow there, ends on a character boundary, and moves the position as its kind counts |
| `SqlLexer.Tokenize` | check_engine/src/sql_lexer.rs:257-854 | for every ascending table: every token obeys its relation, is a slice between boundaries, and starts where the one before it ends, in offset and in position |
| `LexTheorems.Lossless` | check_engine/src/sql_lexer.rs:257-854 | the token texts concatenate to exactly the source, and no token is empty |
| `LexTheorems.TokenizationUnique` | check_engine/src/sql_lexer.rs:257-854 | a source has one tokenization |
| `LexTheorems.LineExact` | check_engine/src/sql_lexer.rs:261-303 | for every source, the line of a plain scan is the token's line plus the bare carriage returns in the quoted identifiers before it |
| `LexTheorems.PositionsExactIff` | check_engine/src/sql_lexer.rs:257-854 | for every source, all lines and columns are those of a plain octet count exactly when no token with a token after it is a quoted identifier with a bare carriage return or a word with a character outside ASCII |
| `LexTheorems.PositionBound` | check_engine/src/sql_lexer.rs:257-854 | line plus column is at most the offset plus 2, so 32-bit counters do not wrap below 4 GiB |
| `LexCase.CaseDoesNotMatter` | check_engine/src/sql_lexer.rs:247-854 | two sources that differ only in the case of ASCII letters have the same tokens: kinds, offsets, lengths and positions |
| `LexKinds.AloneKind` | check_engine/src/sql_lexer.rs:266-850 | which character alone is which kind of token |
| `LexKinds.PairKind` | check_engine/src/sql_lexer.rs:305-850 | which two characters are one token: operators, line end, and the openers of comments and templates |
| `LexKinds.WordGoesOn` | check_engine/src/sql_lexer.rs:696-703 | which ASCII characters go on with a word |
| `LexKinds.WideGoesOn` | check_engine/src/sql_lexer.rs:632-694 | and of the others, those that the Unicode table has |
| `LexKinds.ExponentGoesOn` | check_engine/src/sql_lexer.rs:606-617 | a number goes on with an exponent mark in either case, and with either sign after it |
| `Header.StripHeader` | check_engine/src/sql_lexer.rs:860-883 | returns the text from its first line that is neither blank nor a comment |
| `Header.BodyStartsALine` | check_engine/src/sql_lexer.rs:860-883 | what is left is a suffix at a line boundary whose first line is not a header line |
| `Header.StripIdempotent` | check_engine/src/sql_lexer.rs:860-883 | stripping twice is stripping once |
| `Header.ParseHeaderMap` | check_engine/src/engine.rs:619-659 | the map holds for every key the first value the header gives it, and no other key |
| `Header.FieldRoundTrip` | check_engine/src/engine.rs:631-647 | a comment of a key, a colon and a value, with any white space around each, is read back as the lower-cased key and the value |
| `Text.TrimIs` | check_engine/src/engine.rs:621-643 | trimming takes off exactly the white space around a text |
| `Text.WhiteSpaces` | check_engine/src/engine.rs:621-643 | white space is the 25 characters of the Unicode property |
| `Header.MapOfRemoved` | check_engine/src/engine.rs:619-659 | the map depends only on the part that stripping removes, and the body has none |
| `Header.HasHeaderNameField` | check_engine/src/discovery.rs:91-114 | true exactly when some header line is a comment whose text begins with the field mark of a name |
| `Header.NameIsInMap` | check_engine/src/discovery.rs:91-114 | a file taken to have a name field has the key in its map |
| `Header.IsNameLineIff` | check_engine/src/discovery.rs:98-108 | the detection reads a line as a name exactly when the text of the comment before its first colon is the word itself |
| `Header.NameFoundIff` | check_engine/src/discovery.rs:91-114 | for every header, detection and parser agree on whether there is a name exactly when no line names the key, or some line spells it without capitals and with the colon right behind it |
| `Header.SpaceOverlooked` | check_engine/src/discovery.rs:103 | a name with a space before its colon is in the map and overlooked by the detection |
| `Header.CapitalOverlooked` | check_engine/src/engine.rs:641 | so is a name with a capital, which the parser lower-cases |
| `AutoFix.FileLines.FixHdr013` | check_engine/src/engine.rs:776-783 | removes exactly the reported line, if there is one |
| `AutoFix.FileLines.FixSql007` | check_engine/src/engine.rs:788-800 | drops white space and then semicolons from the end of the reported line, if a semicolon is there |
| `AutoFix.FileLines.FixSql009` | check_engine/src/engine.rs:805-816 | replaces each tab of the reported line by four spaces |
| `AutoFix.FileLines.FixRef004` | check_engine/src/engine.rs:822-839 | replaces every occurrence of the snippet in the reported line: cut at the snippets, the line is put together again with the suggestion between the parts |
| `AutoFix.FileLines.ApplySingleFix` | check_engine/src/engine.rs:763-771 | dispatches on the rule, and reports a change exactly when one was made |
| `AutoFix.SemicolonsDropped` | check_engine/src/engine.rs:794-796 | what is dropped is all the semicolons at the end and nothing else |
| `AutoFix.TabsExpanded` | check_engine/src/engine.rs:810-812 | four spaces stand for each tab and every other character is there, each at its place, so no tab remains |
| `AutoFix.NothingToReplace` | check_engine/src/engine.rs:833-836 | a line without the snippet is unchanged |
| `AutoFix.ContainsIff` | check_engine/src/engine.rs:833 | the test finds the snippet exactly when it is at some place in the line |
| `AutoFix.ReplacedEverywhere` | check_engine/src/engine.rs:833-836 | the line cut at the snippets from the left, with none left in any part, has the suggestion between the same parts instead |
| `AutoFix.EmptyReplaced` | check_engine/src/engine.rs:833-836 | an empty snippet is before every character and at the end |
| `AutoFix.SortDescending` | check_engine/src/engine.rs:735 | descending lines, and the diagnostics of each line in their given order |
| `AutoFix.DescendingIsSimultaneous` | check_engine/src/engine.rs:734-745 | from the last line to the first, editing in place is replacing or deleting every original line at once, if no diagnostic follows a removal on its line, as on distinct lines |
| `AutoFix.InPlaceIff` | check_engine/src/engine.rs:734-783 | for all lines and descending diagnostics: editing in place is editing at once exactly when no line that stays is changed, after its own diagnostics, by those left over from removals before it |
| `AutoFix.InPlaceIsSimultaneous` | check_engine/src/engine.rs:734-745 | diagnostics that cannot act may follow a removal: those of line 0 or past the end, of other rules, or without the texts they need |
| `AutoFix.FileLines.ApplyFixes` | check_engine/src/engine.rs:720-757 | the whole loop, for diagnostics in any order, edits all lines at once exactly under that condition; without a change the lines are as they were |
| `AutoFix.OrderIrrelevant` | check_engine/src/engine.rs:734-745 | on pairwise distinct lines the order of the diagnostics does not matter |
| `AutoFix.SpillIff` | check_engine/src/engine.rs:734-783 | any number of diagnostics after a removal on one line: exactly when they do not change the next line that stays, as its own diagnostics leave it, if there is one |
| `AutoFix.RemovalSpills` | check_engine/src/engine.rs:776-783 | an input where it does not: the tab on the next line is expanded |
| `AutoFix.WriteLines` | check_engine/src/engine.rs:849-867 | every line ends in a line feed; an empty list is written as one line feed |
| `AutoFix.WriteThenSplit` | check_engine/src/engine.rs:849-867 | splitting what was written gives the lines back exactly when there is one and none contains a line feed or ends in a carriage return |
| `CanonicalJson.WriteCanonical` | check_engine/src/config.rs:694-735 | appends the canonical text, whatever order an object lists its keys in |
| `CanonicalJson.CanonicalText` | check_engine/src/config.rs:687-691 | the canonical text of the value |
| `CanonicalJson.EscapeForms` | check_engine/src/config.rs:705-708 | a character is escaped only if it must be, in the shortest form there is, by number in small letters |
| `CanonicalJson.SortedKeysUnique` | check_engine/src/config.rs:719-731 | a set of keys has one sorted sequence, so key order cannot matter |
| `JsonReader.StringRoundTrip` | check_engine/src/config.rs:705-708 | a quoted and escaped string is read back (section 7 of RFC 8259) |
| `JsonReader.NumberRoundTrip` | check_engine/src/config.rs:702-704 | a number is read back in front of anything that does not continue it (section 6 of RFC 8259) |
| `JsonReader.ValueRoundTrip` | check_engine/src/config.rs:694-735 | every value is read back from its canonical text, nested arrays and objects included |
| `JsonReader.CanonicalInjective` | check_engine/src/config.rs:687-735 | two values have the same text exactly when they are equal |
| `JsonReader.ConfigHashExact` | check_engine/src/config.rs:667-675 | with an ideal hash, configurations have the same hash exactly when they are equal |
| `CheckCache.ReplayExactIff` | check_engine/src/cache.rs:88-121 | a cached diagnostic is replayed exactly when its category is one of ten; otherwise only the category changes |
| `CheckCache.SeverityTexts` | check_engine/src/cache.rs:88-121 | which severity texts are read as error and as warning |
| `CheckCache.CachedFormsDiffer` | check_engine/src/cache.rs:57-85 | storing itself loses nothing: different diagnostics have different cached forms |
| `CheckCache.CheckCache.FastPartition` | check_engine/src/cache.rs:269-285 | splits by the size-and-time test into two order-preserving parts that weave back into the list |
| `CheckCache.CheckCache.Partition` | check_engine/src/cache.rs:321-337 | splits by the content-hash test into two order-preserving parts that weave back into the list |
| `CheckCache.PartsMakeWhole` | check_engine/src/cache.rs:269-337 | the parts of any split are disjoint, complete and in order |
| `CheckCache.CheckCache.Update` | check_engine/src/cache.rs:340-386 | stores the diagnostics in cached form under the path, and does nothing when disabled |
| `CheckCache.ClearedForRun` | check_engine/src/cache.rs:443-446 | after a clear this run answers nothing from the cache, by content or by size and time, not even what it stores again; a flush makes that the next run's entries |
| `CheckCache.FlushThenLoad` | check_engine/src/cache.rs:393-504 | a flush followed by the next load gives exactly the flushed entries for the same engine and configuration, and nothing for any other |
| `CheckCache.LoadIff` | check_engine/src/cache.rs:455-504 | a file counts exactly when it is readable, of version 1, and of this engine and configuration; another readable one invalidates the cache |
| `CheckCache.UpdateThenAsk` | check_engine/src/cache.rs:215-386 | after an update exactly the same hash hits, and exactly the same size and time do, if neither is 0 |
| `CheckCacheRuns.HitIsCurrent` | check_engine/src/cache.rs:158-302 | in every run of concurrent processes with different configurations, engine versions, failed writes and damaged files, a content-hash hit answers what checking the file now would report |
| `CheckCacheRuns.FastHitIsCurrent` | check_engine/src/cache.rs:215-231 | so does a hit on size and time, as long as these tell the contents of a path apart |
| `CheckCacheRuns.FastHitCurrentIff` | check_engine/src/cache.rs:215-231 | without that: a hit on size and time is current if it would be a hit on the content too, and, where the checkers tell texts apart, only then |
| `CheckCacheRuns.FastHitCanBeStale` | check_engine/src/cache.rs:215-231 | for any two texts of one length on which the checkers differ: one run checks and flushes the first, and the next run answers the second by size and time, wrongly |
| `CheckCacheRuns.LoadIsStep` | check_engine/src/cache.rs:158-182 | loading the object is a step of the system, and the object is then its process's cache |
| `CheckCacheRuns.UpdateIsStep` | check_engine/src/cache.rs:340-386 | so is storing what the checkers report |
| `CheckCacheRuns.ClearIsStep` | check_engine/src/cache.rs:443-446 | so is clearing |
| `CheckCacheRuns.FlushIsStep` | check_engine/src/cache.rs:393-440 | so is flushing, with the file the object writes |
| `Revocation.RevocationCache.Get` | api/api/middleware/auth.py:72-81 | answers from the entries that have not expired, and changes none of them |
| `Revocation.RevocationCache.Set` | api/api/middleware/auth.py:83-87 | stores the entry; the cap holds only as far as expired entries make room |
| `Revocation.RevocationCache.Cleanup` | api/api/middleware/auth.py:89-94 | removes exactly the expired entries |
| `Revocation.RevocationCache.GetBatch` | api/api/middleware/auth.py:96-105 | one answer for each identifier asked for, duplicates included |
| `Revocation.Checker.Check` | api/api/middleware/auth.py:157-235 | the verdict, what the replica sees afterwards, and the dictionary, by cache, shared store and database, failing closed where the code does, whichever reads, look-ups and writes raise |
| `Revocation.SequentialIsPointwise` | api/api/middleware/auth.py:157-235 | checked one after the other, identifiers do not interfere: each answer and each effect is what one check in the first state gives, duplicates included |
| `Revocation.Checker.CheckBatch` | api/api/middleware/auth.py:237-340 | the batch as a whole: its domain is the given identifiers, it learns what the shared store has and what the database says before the first look-up that raises, and rejects the rest; with the state and the dictionary it leaves |
| `RevocationBatch.CheckEach` | api/api/middleware/auth.py:157-235 | calling the single check on each identifier does what the sequential specification says, to the dictionary too |
| `RevocationBatch.BatchAgreesIff` | api/api/middleware/auth.py:157-340 | whichever reads and look-ups raise: the batch gives the answers and leaves the state of the single checks exactly when, on every identifier the cache does not know, both get to the same source, or to sources that say the same, or neither gets an answer |
| `RevocationBatch.FailuresLastIff` | api/api/middleware/auth.py:304-340 | where only look-ups raise one by one: exactly when every identifier still to be looked up after the first that raises raises too |
| `RevocationBatch.OneLookupRaises` | api/api/middleware/auth.py:304-340 | otherwise they differ: of three identifiers the look-up of the second raises; single checks accept the third and cache it, the batch rejects it |
| `RevocationBatch.OneReadRaises` | api/api/middleware/auth.py:171-197 | and where reading the shared store raises for one identifier alone: the single check rejects what the batch accepts |
| `RevocationDictionary.BatchCacheIs` | api/api/middleware/auth.py:237-340 | the batch leaves the new stamps on top of the old dictionary less the expired entries asked for, or of its live entries alone if a store met the cap |
| `RevocationDictionary.DictionariesAgreeIff` | api/api/middleware/auth.py:72-105 | batch and single checks leave the same dictionary exactly when they find out the same and, besides, nothing but what was asked for has expired, or the single checks never meet the cap, or the batch meets it too |
| `RevocationDictionary.BatchKeepsExpiredEntry` | api/api/middleware/auth.py:66-105 | for every cap from 2 on, the code's 10,000 included: a full dictionary from which only the batch keeps an expired entry |
| `RevocationProtocol.InvInductive` | api/api/middleware/auth.py:150-235 | every step keeps: the shared store only lists revoked tokens, and every cached or pending verdict was true when the database was read |
| `RevocationProtocol.BoundedStaleness` | api/api/middleware/auth.py:150-235 | in every run, on every replica, under any failures, a revoked token is accepted no later than one time to live plus one lookup after its revocation |
| `RevocationProtocol.RejectedForGood` | api/api/middleware/auth.py:150-235 | after that every verdict on every replica rejects it |
| `RevocationProtocol.NoFalseRejection` | api/api/middleware/auth.py:150-340 | in every run, while the shared store is up and no look-up raises, a token that is rejected was revoked, whatever failed before |
| `RevocationProtocol.StalenessAttained` | api/api/middleware/auth.py:150-235 | the bound is attained |
| `RevocationProtocol.CheckIsSteps` | api/api/middleware/auth.py:157-235 | a single check is one or two steps of the system, with the same verdict and effect |
| `RevocationBatchSteps.BatchIsSteps` | api/api/middleware/auth.py:237-340 | a batch, taken in any order, is a run of steps of the system with the batch's answers as verdicts and the batch's effect, also where one look-up that raises rejects the identifiers behind it; so the bounds on staleness cover it |
| `SlidingWindow.PrunedIsWindow` | api/api/middleware/rate_limit.py:150-155 | popping old timestamps off the front leaves exactly the events in the window of the whole history |
| `SlidingWindow.NoWindowExceeds` | api/api/middleware/rate_limit.py:497-507 | if each event was within the limit in the window that ends with it, no interval of that length exceeds the limit |
| `SlidingWindow.CountsPlaces` | api/api/middleware/rate_limit.py:150-155 | the window counts are the numbers of events later than, or between, two times |
| `SlidingWindow.TruncatedTowardZero` | api/api/middleware/rate_limit.py:477-479 | whole parts are taken towards zero |
| `RateLimit.SlidingWindowCounter.Hit` | api/api/middleware/rate_limit.py:135-155 | returns the number of hits of the full history in the window, this one included, whatever counts and clean-ups came before |
| `RateLimit.SlidingWindowCounter.Count` | api/api/middleware/rate_limit.py:157-170 | returns that number without recording a hit |
| `RateLimit.SlidingWindowCounter.Cleanup` | api/api/middleware/rate_limit.py:188-207 | drops exactly the keys without a hit in the window, and changes no later count |
| `RateLimit.Dispatch` | api/api/middleware/rate_limit.py:483-530 | admits exactly when the hits in the window, this one included, are at most the base limit times the burst multiplier; a base limit of 0 is exempt and not counted |
| `RateLimit.AtMostBurst` | api/api/middleware/rate_limit.py:477-507 | no interval of the window's length holds more admitted requests of a key than the burst limit |
| `RedisRateLimit.RedisBackend.Hit` | api/api/middleware/rate_limit.py:280-292 | the sorted set with its expiry of the whole seconds of the window plus 2 returns the count of the in-process window |
| `RedisRateLimit.RedisBackend.Count` | api/api/middleware/rate_limit.py:294-303 | so does the count |
| `RedisRateLimit.RedisBackend.Expire` | api/api/middleware/rate_limit.py:290-291 | an expiry at any allowed time loses no hit that can still count |
| `RedisRateLimit.LifetimeIs` | api/api/middleware/rate_limit.py:290-291 | the expiry is the whole number of seconds more than one and at most two beyond the window |
| `RedisRateLimit.HitBoth` | api/api/middleware/rate_limit.py:135-292 | fed the same hits, both backends return the same counts |
| `RedisRateLimit.StoredWindow` | api/api/middleware/rate_limit.py:286-291 | removal by score leaves exactly the hits in the window, expired or not |
| `TenantBucket.TenantBucket.Check` | ai_engine/ai_engine/middleware.py:177-193 | allows exactly when fewer than the limit were admitted in the window; otherwise returns the least whole number of seconds beyond the oldest one's exit |
| `TenantBucket.TenantBucket.AtMostMaxRequests` | ai_engine/ai_engine/middleware.py:177-193 | no interval of the window's length holds more than the limit |
| `TenantBucket.WaitAndRetry` | ai_engine/ai_engine/middleware.py:188-193 | whoever waits at least the time returned, with no other traffic, is admitted next exactly when the limit is at least 1 |
| `LoginLimiter.RetryAfterIsEnough` | api/api/middleware/login_rate_limiter.py:221-223 | waiting the returned seconds is enough, and at most one second too long |
| `LoginLimiter.SumClosedForm` | api/api/middleware/login_rate_limiter.py:40-42 | the first k back-offs sum to 450 + 900 (k - 4) seconds from k = 4 on |
| `LoginLimiter.FailureStands` | api/api/middleware/login_rate_limiter.py:227-245 | a failure made while allowed keeps all failures since the last reset spaced by the back-offs |
| `LoginLimiter.MemoryLimiter.Check` | api/api/middleware/login_rate_limiter.py:215-225 | answers by the key's record and changes no record |
| `LoginLimiter.MemoryLimiter.RecordFailure` | api/api/middleware/login_rate_limiter.py:227-245 | counts the failure and, from the fifth on, locks for its back-off |
| `LoginLimiter.MemoryLimiter.RecordSuccess` | api/api/middleware/login_rate_limiter.py:247-251 | forgets the key |
| `LoginLimiter.MemoryLimiter.CleanupStale` | api/api/middleware/login_rate_limiter.py:257-270 | keeps exactly the records that failed no longer ago than the age or are locked, and no check of any key at any later time is answered differently |
| `LoginLimiter.BackoffHolds` | api/api/middleware/login_rate_limiter.py:40-45 | in every run, failure 5 + k since the last reset comes no earlier than the fifth plus the first k back-offs, unless an attempt was made while locked |
| `LoginLimiter.RedisLimiter.Check` | api/api/middleware/login_rate_limiter.py:160-173 | answers as the hash would, whether or not it has expired |
| `LoginLimiter.RedisLimiter.RecordFailure` | api/api/middleware/login_rate_limiter.py:175-204 | with nothing in between reading and writing: as in memory, on what the store still has, with a new expiry of an hour |
| `LoginLimiter.RedisLimiter.Expire` | api/api/middleware/login_rate_limiter.py:45 | the expiry changes no check at any later time |
| `LoginLimiter.RedisBackoffHolds` | api/api/middleware/login_rate_limiter.py:175-204 | the same bound in Redis |
| `LoginLimiter.SpacingAttained` | api/api/middleware/login_rate_limiter.py:40-45 | the bound is attained by retrying as soon as allowed |
| `LoginLimiter.ForgettingIff` | api/api/middleware/login_rate_limiter.py:257-270 | after any number of later failures, a forgotten record is not told from a kept one exactly when there were none later or none forgotten, or all together stay below five, or at least nine came later |
| `LoginRaces.InvInductive` | api/api/middleware/login_rate_limiter.py:175-204 | every step of replicas that read, wait and write keeps: each failure is numbered by what it read, and no more than are under way at once follow from the same one |
| `LoginRaces.RacesKeepSpacing` | api/api/middleware/login_rate_limiter.py:175-204 | in every run, a failure recorded as number 5 + k comes no earlier than the fifth it follows from plus the first k back-offs, if none in between was made while locked |
| `LoginRaces.SameNumberBound` | api/api/middleware/login_rate_limiter.py:175-204 | with at most c failures under way at once, at most c to the power of n are recorded as number n for each reset |
| `LoginRaces.RacesBound` | api/api/middleware/login_rate_limiter.py:175-204 | so more than c + c^2 + ... + c^(4 + k) failures for each reset take at least the first k back-offs |
| `LoginRaces.OneAtATime` | api/api/middleware/login_rate_limiter.py:175-204 | with one at a time that is failure 5 + k |
| `LoginRaces.PowersSum` | api/api/middleware/login_rate_limiter.py:175-204 | those bounds in closed form |
| `LoginRaces.LateWriteUnlocks` | api/api/middleware/login_rate_limiter.py:182-204 | after any number of failures from the fifth on, with two under way, a late write undoes the lock and the count |
| `LoginRaces.RecordFailureIsSteps` | api/api/middleware/login_rate_limiter.py:175-204 | the limiter's own call is the two steps with nothing in between |
| `Calendar.MonthUnique` | ai_engine/ai_engine/engines/budget_guard.py:324 | a day falls in one month |
| `Calendar.StartWithin31Days` | ai_engine/ai_engine/engines/budget_guard.py:312-324 | the start of the day and of the month is less than 31 days back |
| `Calendar.SamePeriod` | ai_engine/ai_engine/engines/budget_guard.py:312-324 | times from the start of a later time's day or month on share it |
| `Calendar.FirstDayIsCivil` | ai_engine/ai_engine/engines/budget_guard.py:324 | the months add up to the civil calendar, by years, leap days and days before the month |
| `Calendar.PeriodIff` | ai_engine/ai_engine/engines/budget_guard.py:312-324 | two times have the same start exactly when they are on one day or in one civil month, and of past times those from the start on are the period's |
| `UsageRepo.InMemoryUsageRepo.GetPeriodCost` | ai_engine/ai_engine/engines/in_memory_usage_repo.py:54-56 | the cost of the kept records since a time |
| `UsageRepo.InMemoryUsageRepo.RecordUsage` | ai_engine/ai_engine/engines/in_memory_usage_repo.py:58-84 | the list is always the whole log less what the last pruning removed |
| `UsageRepo.InMemoryUsageRepo.Prune` | ai_engine/ai_engine/engines/in_memory_usage_repo.py:102-109 | so after pruning alone |
| `UsageRepo.PruningInvisibleIff` | ai_engine/ai_engine/engines/in_memory_usage_repo.py:39-48 | the sums since the start of the day and of the month are those of the unpruned log, for every log and time, exactly when records are kept for at least 31 days |
| `UsageRepo.SpentSinceStart` | ai_engine/ai_engine/engines/budget_guard.py:312-325 | for a log in the past the sum since the start is the sum over the records of the day, or of the civil month |
| `BudgetGuard.Guard.CheckBudget` | ai_engine/ai_engine/engines/budget_guard.py:297-332 | refuses exactly when the records of the same day, or else of the same civil month, cost as much as their limit, and reports that sum: by the whole log if records are kept for 31 days, else by the records kept |
| `BudgetGuard.Guard.RecordUsage` | ai_engine/ai_engine/engines/budget_guard.py:334-372 | appends one record with the call's own tokens, time and outcome, at 3 and 15 micro-dollars a token, or nothing after an exception |
| `BudgetGuard.CostByRates` | ai_engine/ai_engine/engines/budget_guard.py:67-116 | a million tokens cost 3 and 15 dollars, and costs add up |
| `BudgetGuard.Guard.GuardCall` | ai_engine/ai_engine/engines/budget_guard.py:257-291 | refused, by the day's or the civil month's sum: nothing recorded; otherwise one record, at no cost if the call raised |
| `BudgetProtocol.LockStep` | ai_engine/ai_engine/engines/budget_guard.py:41-60 | every step, also the collection of an unreferenced lock, keeps: all tasks that reference a lock reference the one in the map, and who is inside owns it |
| `BudgetProtocol.MutualExclusion` | ai_engine/ai_engine/engines/budget_guard.py:48-60 | in every run at most one task is between acquiring and releasing |
| `BudgetProtocol.NeverStuck` | ai_engine/ai_engine/engines/budget_guard.py:257 | no lock is leaked by a refusal, an exception or a cancellation |
| `BudgetProtocol.SpendStep` | ai_engine/ai_engine/engines/budget_guard.py:257-291 | every step keeps: between a passed check and its record nothing else is recorded, and every record was made below both limits |
| `BudgetProtocol.ChecksSeeWholeLog` | ai_engine/ai_engine/engines/budget_guard.py:308-325 | in every run the checks on the pruned list decide as on the whole log |
| `BudgetProtocol.OvershootAtMostOneCall` | ai_engine/ai_engine/engines/budget_guard.py:257-332 | in every run what is recorded in the day or civil month of any time is nothing, or below its budget plus the cost of one call recorded in it |
| `BudgetProtocol.OvershootBound` | ai_engine/ai_engine/engines/budget_guard.py:257-332 | costs being multiples of 3, that spend is at most the most that a period can have below the budget, plus the cost of one of its calls |
| `BudgetProtocol.OvershootAttained` | ai_engine/ai_engine/engines/budget_guard.py:257-332 | for every budget of a day or a month and every last call there is a run that spends exactly that much |
| `BudgetProtocol.CallIsSteps` | ai_engine/ai_engine/engines/budget_guard.py:257-291 | a call that nobody is in the way of is a run of the protocol's steps, refused or recorded |
| `BudgetProtocol.GuardCallIsSteps` | ai_engine/ai_engine/engines/budget_guard.py:257-291 | the guard's own call is such a run: the same decision, the same log and the same kept records |
| `ResponseCache.EvictOldest` | ai_engine/ai_engine/engines/cache.py:238-266 | first all expired entries; if that makes no room, the oldest tenth, so no survivor is older than an entry evicted before its time |
| `ResponseCache.ResponseCache.Get` | ai_engine/ai_engine/engines/cache.py:130-150 | returns a value exactly when the key's last put has not been invalidated, dropped or expired, and it is that put's |
| `ResponseCache.ResponseCache.Put` | ai_engine/ai_engine/engines/cache.py:152-188 | stores the key within the size bound; only a new key in a full cache costs other entries |
| `ResponseCache.TtlsByType` | ai_engine/ai_engine/engines/cache.py:38-45 | the times to live by request type |
| `ResponseCache.ResponseCache.Invalidate` | ai_engine/ai_engine/engines/cache.py:190-194 | removes the key, and says whether it was stored |
| `ResponseCache.ResponseCache.InvalidateByType` | ai_engine/ai_engine/engines/cache.py:196-203 | removes exactly the entries of the type, and counts them |
| `ResponseCache.ResponseCache.InvalidateAll` | ai_engine/ai_engine/engines/cache.py:205-213 | empties the cache and starts the statistics anew |
| `Fragility.ComputeUpstreamRisk` | ai_engine/ai_engine/engines/fragility_scorer.py:174-201 | the maximum over all upstream paths of the end's probability times 0.8 to the length, cycles included |
| `Fragility.UpstreamRiskUnique` | ai_engine/ai_engine/engines/fragility_scorer.py:174-201 | there is one such maximum, so what the search returns does not depend on the order it visits |
| `Fragility.RiskByEdges` | ai_engine/ai_engine/engines/fragility_scorer.py:186-195 | each edge of a path leaves four fifths of the probability at its end, and of a model that none is given for nothing |
| `Fragility.SearchComplete` | ai_engine/ai_engine/engines/fragility_scorer.py:174-201 | first-in first-out order visits every ancestor at its least distance |
| `Fragility.Reachable` | ai_engine/ai_engine/engines/fragility_scorer.py:217-234 | exactly the nodes at the end of a non-empty path |
| `Fragility.IsOnCriticalPath` | ai_engine/ai_engine/engines/fragility_scorer.py:237-265 | true exactly when the model and all its ancestors are above the threshold |
| `Fragility.BuildReverse` | ai_engine/ai_engine/engines/fragility_scorer.py:204-214 | every edge reversed and no other, with an entry for every node |
| `Fragility.DownstreamIsUpstream` | ai_engine/ai_engine/engines/fragility_scorer.py:204-234 | downstream in the reversed graph are exactly the models it is upstream of |
| `Fragility.ComputeFragility` | ai_engine/ai_engine/engines/fragility_scorer.py:90-149 | the parts of the score by paths, and their blend before rounding, which is 0 without risk |
| `Fragility.CompositeMonotone` | ai_engine/ai_engine/engines/fragility_scorer.py:126-134 | the score grows with each risk and stays from 0 to 10 |
| `Fragility.ScoreRates` | ai_engine/ai_engine/engines/fragility_scorer.py:126-134 | from any score below the cap to any other: ten times its weight for each unit of own risk, of upstream risk up to 1, and of cascade risk for each entry of the graph, up to 10 |
| `Fragility.ScoreCaps` | ai_engine/ai_engine/engines/fragility_scorer.py:126-134 | upstream risk beyond 1 and cascade risk beyond the number of entries add nothing, and no score is above 10 |
| `CostAnomaly.LastPointBound` | ai_engine/ai_engine/engines/cost_anomaly.py:104-114 | Samuelson's inequality: the last of n points is at most the root of n - 1 standard deviations from the mean |
| `CostAnomaly.SeverityNeedsPoints` | ai_engine/ai_engine/engines/cost_anomaly.py:129-146 | for thresholds that are not negative, a major or critical last point needs more points than the square of its threshold |
| `CostAnomaly.ShortHistories` | ai_engine/ai_engine/engines/cost_anomaly.py:67-73 | by default nothing is critical up to 16 points and nothing major up to 9 |
| `CostAnomaly.CriticalAttained` | ai_engine/ai_engine/engines/cost_anomaly.py:141-142 | 17 points can be critical |
| `CostAnomaly.MajorAttained` | ai_engine/ai_engine/engines/cost_anomaly.py:143-144 | 10 points can be major |
| `CostAnomaly.SortedIsSorted` | ai_engine/ai_engine/engines/cost_anomaly.py:117 | the same costs in ascending order |
| `CostAnomaly.PercentileMonotone` | ai_engine/ai_engine/engines/cost_anomaly.py:196-205 | interpolated percentiles grow with p, from the least value to the greatest |
| `CostAnomaly.AtRankBetween` | ai_engine/ai_engine/engines/cost_anomaly.py:196-205 | a percentile lies between the points around its rank, and is the point at a whole rank |
| `CostAnomaly.FencesEnclose` | ai_engine/ai_engine/engines/cost_anomaly.py:118-122 | lower fence, first quartile, third quartile and upper fence are in this order |
| `CostAnomaly.LabelRightIff` | ai_engine/ai_engine/engines/cost_anomaly.py:135-139 | an anomaly is a spike exactly when it is above the mean, except for any excess over a history without variance |
| `CostAnomaly.ExcessCalledDrop` | ai_engine/ai_engine/engines/cost_anomaly.py:135-139 | the exception occurs |
| `CostAnomaly.BatchLabelsRight` | ai_engine/ai_engine/engines/cost_anomaly.py:173-193 | it does not occur in a batch |
| `CostAnomaly.RankWithinReport` | ai_engine/ai_engine/engines/cost_anomaly.py:124-127 | the percentile rank is within the range the report accepts |
| `CostAnomaly.DetectIff` | ai_engine/ai_engine/engines/cost_anomaly.py:104-146 | what is reported, exactly: by distance to the mean in standard deviations and beyond a quartile in interquartile ranges, with the severity, score and rank |
| `CostAnomaly.DetectFlat` | ai_engine/ai_engine/engines/cost_anomaly.py:104-146 | without variance every other cost is a minor drop, and the mean is none |
| `CostAnomaly.TooShort` | ai_engine/ai_engine/engines/cost_anomaly.py:97-101 | nothing is reported under three points |
| `CostAnomaly.Interpolated` | ai_engine/ai_engine/engines/cost_anomaly.py:196-205 | between neighbouring points a percentile grows in proportion to the rank |
| `CostAnomaly.FencesOfFive` | ai_engine/ai_engine/engines/cost_anomaly.py:117-122 | the quartiles and default fences of the costs 1 to 5 |
| `CostAnomaly.MirroredDetect` | ai_engine/ai_engine/engines/cost_anomaly.py:104-146 | costs and their negatives are judged alike, with spikes for drops and ranks from the other end |

## Left out

- `meaningful_tokens`, `is_rule_enabled`, `effective_severity` and the TOML and YAML parsing of configurations: filters and look-ups that would only add easy members.
- File walking, git, stat calls, temporary files and renames: a file is a text or a list of lines, a flush is one step that happens or does not.
- The checkers themselves, parallelism, panics and the time limit of the check engine: a checker is a function of engine version, configuration, path and content, with the project type fixed.
- Whole-run results of `check`: the path on which everything is cached skips the cross-file checks, so warm and cold results are not claimed to be equal.
- Grouping of diagnostics by file and the filter on fixable rules: `AutoFix` starts from the diagnostics of one file; other rules leave the lines as they are.
- JSON decoding of the cache file: a file is readable, unreadable or corrupt as a whole; `last_checked` is not kept.
- `CheckCacheRuns.HitIsCurrent`: cached diagnostics, not replayed ones; `CheckCache.ReplayExactIff` says what a replay changes.
- Numbers with fractions or exponents in configurations: the configuration has none. Surrogate escapes are not read, because the writer emits none.
- `JsonReader`: models no code of the repository; it is the inverse that shows the writer injective.
- `Revocation`: a check, or the batch, happens at one instant; which identifiers' reads, look-ups and writes raise is any set, the same for single checks and the batch they are compared with.
- `RevocationProtocol`: one clock for all replicas; tokens are never un-revoked. A verdict is dated when it is found out; a batch hands its verdicts over together at the end, and `BatchIsSteps` takes it at one instant.
- Redis expiry is by the same clock as the scores, and each pipeline of the rate limiter is one step.
- `LoginRaces.SameNumberBound`: an upper bound; that it is attained for more than one at a time is not claimed. A reset is possible at any time there.
- Falling back from Redis to memory while running, and the upgrade to Redis after start-up: each backend is modelled alone.
- `RateLimit.Dispatch`: the in-process backend; the Redis backend returns the same counts. Path patterns, client keys, response headers and the jitter on the retry time are not modelled; nor is `time_until_reset`.
- Normalising e-mail addresses: a key is a pair of strings.
- `BudgetProtocol`: one tenant and one repository, as the service configures; recording without the guard is allowed by the code and not covered by the bound.
- Floating-point rounding of costs, scores, means and square roots; `round(..., 4)`.
- `ResponseCache.SortedKeys`: entries created at the same time are evicted in an unspecified order; `make_key` is not modelled, and operations are sequential under the lock.
- `Fragility`: sorting is any function that keeps the elements, since no result depends on the order; model names are compared as given.
- `CostAnomaly`: the standard deviation is a parameter with the square it must have; the sorting of batch reports and the texts of suggestions are not modelled.
- `model_registry.py`, `cost_forecaster.py` and `metrics.py`: ring buffers, a smoothing recurrence and counting, which would only add easy members.
- `security.py`, the semantic classifier, the optimizer, the suggestion validator, the PII scrubber, routers, settings and the frontend: rest on libraries that are not part of this model, or are plumbing.
