# rateLimit in Dafny

A model of the core of the rateLimit project, written in Dafny, with its properties proved. rateLimit is a Redis-backed rate limiter and duplicate-submit guard for Spring Boot, with a statistics dashboard. The model covers these parts:

- **Path matching.** The starter's Ant-style `AntPathMatcher` ("`*`" within a segment, "`**`" across segments, "`?`" for one character). Beside it sits the dashboard script's glob preview, which rewrites a pattern into a JavaScript regular expression.
- **Token-bucket limiting.** The Lua script that refills and takes tokens, rule matching by path and HTTP method, the path/IP/user short-circuit, and `isAllowed`'s loop over the enabled rules.
- **Duplicate-submit locking.** The lock key of a submission, which method parameters enter it, the group filter, all-or-nothing acquisition of the group locks with rollback, the combined lock value, and its release. The Redis check-and-set and safe-delete scripts run against a key-value store object.
- **Parameter groups and value processors.** `ParamGroupInfo` and its sorting, `GroupNameGenerator`, the processor registry, the built-in default, hash, mask, normalize and split processors, and the application's two custom processors.
- **Identity and keys.** The HTTP method enum, the path strategy, the user-identifier chain with its client-address chain, and the Redis key builders.
- **Statistics.** Per-rule and per-minute counters kept in Redis hashes, the trend series built from them, the global sums, and the controller endpoints that validate a rule, summarise the IP and user dimensions, and generate test data.
- **Dashboard helpers.** The trend caption, the batch-test tally, the CSV export and the user-agent cell.

How the model represents the system:

- Redis is a map: key to value for locks, key to hash for buckets and statistics. It sits in a class whose methods change it one call at a time.
- A `down` flag stands for a Redis that throws on every call.
- These are function parameters: the clock, `Math.random`, MD5, UUIDs, the configuration service's rule list, the detailed statistics lists, and the remaining time PTTL reports.
- Java's `String.split`, `trim`, long division and `Long.parseLong` are modelled exactly in `Text` for the cases the code uses.
- Objects whose fields the code updates are classes: the lock store, the rate-limit service, the duplicate-submit service, `ParamGroupInfo`, the processor manager, the key generator and the statistics service. Their loops carry the invariants that tie them to the functions that specify them.

## Model

| member | source | states |
|---|---|---|
| AntPathMatcher.Match | rate-limit-spring-boot-starter-1.3/src/main/java/io/github/jicklin/starter/ratelimit/util/AntPathMatcher.java:18-24 | a missing pattern or path never matches; otherwise the result is AntMatch of the two: the leading-'/' test and the token match |
| AntPathMatcher.DoMatch | rate-limit-spring-boot-starter-1.3/src/main/java/io/github/jicklin/starter/ratelimit/util/AntPathMatcher.java:34-40 | the result is false when exactly one of pattern and path starts with '/', and otherwise is the token-level match of the two '/'-split token lists |
| AntPathMatcher.MatchTokens | rate-limit-spring-boot-starter-1.3/src/main/java/io/github/jicklin/starter/ratelimit/util/AntPathMatcher.java:42-58 | the front loop matches the tokens before the first "**" one for one, and the whole method returns TokensMatch of the token lists |
| AntPathMatcher.MatchAfterPrefix | rate-limit-spring-boot-starter-1.3/src/main/java/io/github/jicklin/starter/ratelimit/util/AntPathMatcher.java:60-106 | after the front loop, the result is TokensMatch: with both lists used up, true iff both or neither end with '/'; with only the pattern used up, false; with only the path used up, true iff the rest of the pattern is all "**" or is the single trailing "*" of a path ending in '/' |
| AntPathMatcher.SegmentsFromDoubleStar | rate-limit-spring-boot-starter-1.3/src/main/java/io/github/jicklin/starter/ratelimit/util/AntPathMatcher.java:85-106 | the back loop and the checks after it give exactly the reference match of the pattern window from the first "**" against the unmatched path tokens |
| AntPathMatcher.SegmentBlocks | rate-limit-spring-boot-starter-1.3/src/main/java/io/github/jicklin/starter/ratelimit/util/AntPathMatcher.java:108-154 | the middle loop (leftmost placement of each block of tokens between two "**", "**/**" skipped) gives exactly the reference match of the window |
| AntPathMatcher.OnlyDoubleStars | rate-limit-spring-boot-starter-1.3/src/main/java/io/github/jicklin/starter/ratelimit/util/AntPathMatcher.java:148-152 | true iff every token of the range is "**" |
| AntPathMatcher.NextDoubleStar | rate-limit-spring-boot-starter-1.3/src/main/java/io/github/jicklin/starter/ratelimit/util/AntPathMatcher.java:110-116 | returns the first index at or after the start whose token is "**" |
| AntPathMatcher.FindSegmentBlock | rate-limit-spring-boot-starter-1.3/src/main/java/io/github/jicklin/starter/ratelimit/util/AntPathMatcher.java:123-138 | -1 iff the block between two "**" matches at no offset of the path window; otherwise the smallest offset at which it matches |
| AntPathMatcher.MatchStrings | rate-limit-spring-boot-starter-1.3/src/main/java/io/github/jicklin/starter/ratelimit/util/AntPathMatcher.java:181-305 | the char-level matcher returns exactly GlobMatch: '?' matches one char, '*' any run, other chars themselves |
| AntPathMatcher.MatchWithoutStar | rate-limit-spring-boot-starter-1.3/src/main/java/io/github/jicklin/starter/ratelimit/util/AntPathMatcher.java:202-214 | for a segment pattern without '*', the result equals GlobMatch |
| AntPathMatcher.MatchFromStar | rate-limit-spring-boot-starter-1.3/src/main/java/io/github/jicklin/starter/ratelimit/util/AntPathMatcher.java:239-256 | the back loop over chars and the checks after it give the reference match of the window from the first '*' |
| AntPathMatcher.MatchStarBlocks | rate-limit-spring-boot-starter-1.3/src/main/java/io/github/jicklin/starter/ratelimit/util/AntPathMatcher.java:258-304 | the middle loop over chars (leftmost placement of each block between two '*', consecutive '*' skipped) gives the reference match of the window |
| AntPathMatcher.OnlyStars | rate-limit-spring-boot-starter-1.3/src/main/java/io/github/jicklin/starter/ratelimit/util/AntPathMatcher.java:298-302 | true iff every char of the range is '*' |
| AntPathMatcher.NextStar | rate-limit-spring-boot-starter-1.3/src/main/java/io/github/jicklin/starter/ratelimit/util/AntPathMatcher.java:260-266 | returns the first index at or after the start holding '*' |
| AntPathMatcher.FindCharBlock | rate-limit-spring-boot-starter-1.3/src/main/java/io/github/jicklin/starter/ratelimit/util/AntPathMatcher.java:273-288 | -1 iff the chars between two '*' match at no offset of the string window; otherwise the smallest offset at which they match |
| AntPathMatcher.GlobWithoutStar | rate-limit-spring-boot-starter-1.3/src/main/java/io/github/jicklin/starter/ratelimit/util/AntPathMatcher.java:202-214 | without '*', a segment matches iff the lengths are equal and every pattern char is '?' or the same char |
| AntPathMatcher.GlobStarRun | rate-limit-spring-boot-starter-1.3/src/main/java/io/github/jicklin/starter/ratelimit/util/AntPathMatcher.java:216-304 | a '*' between two matching parts of a segment absorbs any run of chars |
| AntPathMatcher.DoubleStarSpansSegments | rate-limit-spring-boot-starter-1.3/src/main/java/io/github/jicklin/starter/ratelimit/util/AntPathMatcher.java:108-154 | a "**" token between two matching parts absorbs any run of whole segments, including none |
| AntPathMatcher.PathExhaustedLeftover | rate-limit-spring-boot-starter-1.3/src/main/java/io/github/jicklin/starter/ratelimit/util/AntPathMatcher.java:60-76 | once the path tokens are used up by the front, the pattern matches iff its remaining tokens are all "**" |
| AntPathMatcher.PatternExhausted | rate-limit-spring-boot-starter-1.3/src/main/java/io/github/jicklin/starter/ratelimit/util/AntPathMatcher.java:77-79 | a pattern without "**" with fewer tokens than the path never matches |
| AntPathMatcher.TokenizeJoin | rate-limit-spring-boot-starter-1.3/src/main/java/io/github/jicklin/starter/ratelimit/util/AntPathMatcher.java:174-176 | splitting on '/' undoes joining '/'-free tokens whose last one is non-empty |
| AntPathMatcher.StarterTestCases | rate-limit-spring-boot-starter-1.3/src/test/java/com/marry/starter/ratelimit/RateLimitStarterTest.java:21-26 | "/api/**" matches "/api/users/123", "/api/*" does not, "/user/*/profile" matches "/user/123/profile" |
| Dashboard.GlobToRegexSource | static-web/src/main/resources/static/js/ratelimit.js:848-851 | the three global replacements, in order, give the char-by-char translation in which "**" becomes ".[^/]*" (the '*' of ".*" is rewritten again), '*' becomes "[^/]*", '?' becomes "." and every other char stays |
| Dashboard.GlobDoubleStar | static-web/src/main/resources/static/js/ratelimit.js:848-851 | a leading "**" comes out as ".[^/]*" followed by the translation of the rest |
| Dashboard.GlobOneChar | static-web/src/main/resources/static/js/ratelimit.js:848-851 | a leading char that does not start "**" comes out as "[^/]*", ".", or itself, followed by the translation of the rest |
| Dashboard.ParseRegexSource | static-web/src/main/resources/static/js/ratelimit.js:853-856 | for a pattern with no regex syntax besides '*', '?' and '.', the regex source reads back as the compiled atom list, so the regex is well formed |
| Dashboard.AntPathMatch | static-web/src/main/resources/static/js/ratelimit.js:844-845 | a missing or empty pattern or path gives false |
| Dashboard.AntPathMatchOrdinary | static-web/src/main/resources/static/js/ratelimit.js:844-860 | for an ordinary non-empty pattern and path the preview's verdict is the anchored whole-string match of the compiled atoms ('.' any char but a line terminator, "[^/]*" any run without '/') |
| Dashboard.NoSlashRunMatches | static-web/src/main/resources/static/js/ratelimit.js:850 | "[^/]*" matches exactly the strings without '/' |
| Dashboard.AsWrittenDoubleStar | static-web/src/main/resources/static/js/ratelimit.js:848-856 | after a plain prefix, "**" as written matches iff the rest is one non-line-terminator char followed by a run without '/': it never crosses a segment and never matches an empty rest |
| Dashboard.ApiDoubleStarPreview | static-web/src/main/resources/static/js/ratelimit.js:848-856 | the preview rejects "/api/users/123" for "/api/**", which the Java matcher accepts |
| Dashboard.AntPathMatchIntended | static-web/src/main/resources/static/js/ratelimit.js:849 | the corrected preview, where "**" becomes ".*" and is left alone by the single-star rewrite; a missing or empty pattern or path gives false |
| Dashboard.AntPathMatchIntendedOrdinary | static-web/src/main/resources/static/js/ratelimit.js:844-860 | for an ordinary pattern the corrected preview's verdict is the match of the atoms with "**" read as any run |
| Dashboard.AnyRunMatches | static-web/src/main/resources/static/js/ratelimit.js:849 | ".*" matches exactly the strings without line terminators |
| Dashboard.IntendedDoubleStar | static-web/src/main/resources/static/js/ratelimit.js:849 | after a plain prefix, the corrected "**" matches any rest without line terminators, '/' included |
| Dashboard.ApiDoubleStarIntended | static-web/src/main/resources/static/js/ratelimit.js:849 | the corrected preview accepts "/api/users/123" for "/api/**" |
| Dashboard.IntervalInfo | static-web/src/main/resources/static/js/ratelimit.js:1422-1437 | "无数据" iff either input is falsy; otherwise the head "{dataPoints}个数据点，" followed by exactly "每分钟" for a 1-minute interval, "每N分钟" for N below 60, and "每" + hours + "小时" from 60 up, the hours being the whole number when the minutes divide by 60 and the JavaScript fraction otherwise |
| Dashboard.IntervalDesc | static-web/src/main/resources/static/js/ratelimit.js:1426-1433 | exactly "每分钟" for 1 minute, "每N分钟" below 60 and "每" + hours + "小时" from 60 up; the text ends with "小时" iff the interval is at least 60 minutes and with "分钟" iff it is below 60 |
| Dashboard.IntervalInfoWholeHours | static-web/src/main/resources/static/js/ratelimit.js:1432-1433 | a whole number of hours is written as that integer followed by "小时" |
| Dashboard.FailureOf | static-web/src/main/resources/static/js/ratelimit.js:824-828 | a failed request is a failure whose status is 0 when there was no response |
| Dashboard.TallyPartition | static-web/src/main/resources/static/js/ratelimit.js:834-836 | the success, blocked (429) and error filters partition the results: their counts sum to the number of results |
| Dashboard.TransportFailureIsError | static-web/src/main/resources/static/js/ratelimit.js:824-836 | a request with no response counts as an error, not as blocked |
| Dashboard.BatchTest | static-web/src/main/resources/static/js/ratelimit.js:798-836 | ten results, the i-th being the outcome of request i, and the three counts are the filters' counts and sum to 10 |
| Dashboard.CsvFields | static-web/src/main/resources/static/js/ratelimit.js:897-905 | a row has seven cells, the first two the rule id and rule name |
| Dashboard.CsvLines | static-web/src/main/resources/static/js/ratelimit.js:907 | the export has one header line plus one line per item |
| Dashboard.ConvertToCsv | static-web/src/main/resources/static/js/ratelimit.js:893-894 | missing or empty data gives the empty string |
| Dashboard.CsvShape | static-web/src/main/resources/static/js/ratelimit.js:893-908 | with cells free of ',' and newlines, the export splits into data.length + 1 lines: the header's seven names, then each item's seven cells |
| Dashboard.CleanFieldsSplit | static-web/src/main/resources/static/js/ratelimit.js:907 | joining cells free of ',' and newlines with ',' gives a line that splits back into those cells |
| Dashboard.UserAgentCell | static-web/src/main/resources/static/js/ratelimit.js:1183-1185 | absent or empty gives "unknown"; at most 50 chars is kept as is; longer is its first 50 chars followed by "...", so the cell is never longer than 53 |
| RateLimitService.StartsFull | rate-limit-spring-boot-starter-1.3/src/main/java/io/github/jicklin/starter/ratelimit/service/impl/RedisRateLimitService.java:44-46 | a bucket with no stored state refills to the capacity, keeps now as its refill time and admits iff the capacity is positive |
| RateLimitService.RefillAmount | rate-limit-spring-boot-starter-1.3/src/main/java/io/github/jicklin/starter/ratelimit/service/impl/RedisRateLimitService.java:49-57 | with a stored state, the count after the refill is min(capacity, tokens + max(0, now - last_refill) * rate) |
| RateLimitService.LastRefillMovesOnlyOnAdd | rate-limit-spring-boot-starter-1.3/src/main/java/io/github/jicklin/starter/ratelimit/service/impl/RedisRateLimitService.java:53-58 | last_refill becomes now when tokens were added and otherwise stays what was stored (or now for a fresh bucket) |
| RateLimitService.AdmitsIffTokenLeft | rate-limit-spring-boot-starter-1.3/src/main/java/io/github/jicklin/starter/ratelimit/service/impl/RedisRateLimitService.java:60-64 | the request is admitted iff a token is left after the refill, and exactly one token is then taken |
| RateLimitService.StepKeepsRange | rate-limit-spring-boot-starter-1.3/src/main/java/io/github/jicklin/starter/ratelimit/service/impl/RedisRateLimitService.java:56-67 | a bucket whose count lies in 0..capacity still has its count in 0..capacity after the script writes it back |
| RateLimitService.NoSecondRefillAtOneInstant | rate-limit-spring-boot-starter-1.3/src/main/java/io/github/jicklin/starter/ratelimit/service/impl/RedisRateLimitService.java:53-58 | a second run at the same instant finds nothing more to add |
| RateLimitService.LaterIsNoWorse | rate-limit-spring-boot-starter-1.3/src/main/java/io/github/jicklin/starter/ratelimit/service/impl/RedisRateLimitService.java:49-64 | running the script later never refills less and never turns an admission into a rejection |
| RateLimitService.BurstBound | rate-limit-spring-boot-starter-1.3/src/main/java/io/github/jicklin/starter/ratelimit/service/impl/RedisRateLimitService.java:60-67 | n runs of the script at one instant admit at most as many requests as there were tokens after the first refill |
| RateLimitService.PathCall | rate-limit-spring-boot-starter-1.3/src/main/java/io/github/jicklin/starter/ratelimit/service/impl/RedisRateLimitService.java:164-168 | the path bucket uses the path strategy's key and the rule's capacity, refill rate and time window |
| RateLimitService.Calls | rate-limit-spring-boot-starter-1.3/src/main/java/io/github/jicklin/starter/ratelimit/service/impl/RedisRateLimitService.java:142-159 | the buckets consulted start with the path bucket, and there are one to three of them |
| RateLimitService.IpFallsBack | rate-limit-spring-boot-starter-1.3/src/main/java/io/github/jicklin/starter/ratelimit/service/impl/RedisRateLimitService.java:185-189 | an IP bucket without its own capacity or rate uses the rule's bucketCapacity and refillRate |
| RateLimitService.UserFallsBack | rate-limit-spring-boot-starter-1.3/src/main/java/io/github/jicklin/starter/ratelimit/service/impl/RedisRateLimitService.java:208-212 | a user bucket without its own capacity or rate uses the rule's bucketCapacity and refillRate |
| RateLimitService.MissingUserPasses | rate-limit-spring-boot-starter-1.3/src/main/java/io/github/jicklin/starter/ratelimit/service/impl/RedisRateLimitService.java:201-206 | a request without a user id is checked exactly as with user limiting switched off |
| RateLimitService.MissingAddressPasses | rate-limit-spring-boot-starter-1.3/src/main/java/io/github/jicklin/starter/ratelimit/service/impl/RedisRateLimitService.java:180-183 | a request without an IP is checked exactly as with IP limiting switched off |
| RateLimitService.RunChecksAppend | rate-limit-spring-boot-starter-1.3/src/main/java/io/github/jicklin/starter/ratelimit/service/impl/RedisRateLimitService.java:142-159 | running two lists of checks is running the first, then the second only if the first passed |
| RateLimitService.RunChecksFrame | rate-limit-spring-boot-starter-1.3/src/main/java/io/github/jicklin/starter/ratelimit/service/impl/RedisRateLimitService.java:218-247 | a bucket that no check consults is left unchanged |
| RateLimitService.RunChecksDown | rate-limit-spring-boot-starter-1.3/src/main/java/io/github/jicklin/starter/ratelimit/service/impl/RedisRateLimitService.java:242-246 | with the store unreachable, the first check rejects and nothing is written |
| RateLimitService.PathRejectionShortCircuits | rate-limit-spring-boot-starter-1.3/src/main/java/io/github/jicklin/starter/ratelimit/service/impl/RedisRateLimitService.java:144-146 | a path bucket that rejects ends the check before the IP and user buckets are touched |
| RateLimitService.RunChecksAllowed | rate-limit-spring-boot-starter-1.3/src/main/java/io/github/jicklin/starter/ratelimit/service/impl/RedisRateLimitService.java:142-159 | all checks pass iff the first passes and the rest pass on the buckets it left |
| RateLimitService.NoPatternNoMatch | rate-limit-spring-boot-starter-1.3/src/main/java/io/github/jicklin/starter/ratelimit/service/impl/RedisRateLimitService.java:254-257 | a rule without a path pattern matches no request |
| RateLimitService.MethodListed | rate-limit-spring-boot-starter-1.3/src/main/java/io/github/jicklin/starter/ratelimit/service/impl/RedisRateLimitService.java:259-266 | with a non-empty method list, a matching path is accepted iff the request's method, read case-insensitively, is in the list |
| RateLimitService.Matching | rate-limit-spring-boot-starter-1.3/src/main/java/io/github/jicklin/starter/ratelimit/service/impl/RedisRateLimitService.java:92-93 | the matching rules are rules of the list that match the request, in the configured order |
| RateLimitService.DecideShape | rate-limit-spring-boot-starter-1.3/src/main/java/io/github/jicklin/starter/ratelimit/service/impl/RedisRateLimitService.java:92-106 | the records name the first matching rules in order and all but the last passed; the request is admitted iff every matching rule was checked and passed, and a rejection is at the last record |
| RateLimitService.DecideStoreDown | rate-limit-spring-boot-starter-1.3/src/main/java/io/github/jicklin/starter/ratelimit/service/impl/RedisRateLimitService.java:218-247 | with the store unreachable, the request is admitted iff no rule matches, and no bucket changes |
| RateLimitService.RedisRateLimitService.constructor | rate-limit-spring-boot-starter-1.3/src/main/java/io/github/jicklin/starter/ratelimit/service/impl/RedisRateLimitService.java:73-85 | a new service starts with no buckets and no records |
| RateLimitService.RedisRateLimitService.RunScript | rate-limit-spring-boot-starter-1.3/src/main/java/io/github/jicklin/starter/ratelimit/service/impl/RedisRateLimitService.java:37-69 | a reachable store replies {allowed, tokens} of the script's step and stores the written hash under the key; an unreachable one raises and changes nothing |
| RateLimitService.RedisRateLimitService.CheckTokenBucket | rate-limit-spring-boot-starter-1.3/src/main/java/io/github/jicklin/starter/ratelimit/service/impl/RedisRateLimitService.java:218-247 | the verdict and the new buckets are those of the single check: reply element 1 admits; an error or a short reply rejects |
| RateLimitService.RedisRateLimitService.CheckIpRateLimit | rate-limit-spring-boot-starter-1.3/src/main/java/io/github/jicklin/starter/ratelimit/service/impl/RedisRateLimitService.java:174-190 | no IP strategy or no address admits and writes nothing; otherwise the IP bucket check decides |
| RateLimitService.RedisRateLimitService.CheckUserRateLimit | rate-limit-spring-boot-starter-1.3/src/main/java/io/github/jicklin/starter/ratelimit/service/impl/RedisRateLimitService.java:195-213 | no user strategy or no user id admits and writes nothing; otherwise the user bucket check decides |
| RateLimitService.RedisRateLimitService.CheckMultiDimension | rate-limit-spring-boot-starter-1.3/src/main/java/io/github/jicklin/starter/ratelimit/service/impl/RedisRateLimitService.java:142-159 | verdict and buckets are those of running path, then IP if enabled, then user if enabled, stopping at the first rejection |
| RateLimitService.RedisRateLimitService.MatchesRule | rate-limit-spring-boot-starter-1.3/src/main/java/io/github/jicklin/starter/ratelimit/service/impl/RedisRateLimitService.java:252-269 | true iff the pattern matches the URI and, when the method list is non-empty, the request's method is in it |
| RateLimitService.RedisRateLimitService.IsAllowed | rate-limit-spring-boot-starter-1.3/src/main/java/io/github/jicklin/starter/ratelimit/service/impl/RedisRateLimitService.java:87-112 | an unavailable rule list admits and changes nothing; otherwise verdict, buckets and the records sent to the stats service are those of Decide, whose shape DecideShape states |
| RateLimitService.RedisRateLimitService.CheckRule | rate-limit-spring-boot-starter-1.3/src/main/java/io/github/jicklin/starter/ratelimit/service/impl/RedisRateLimitService.java:93-102 | one turn of the loop: when it blocks, the decision over this rule and the rest is a rejection with the buckets and records it leaves; otherwise that decision has the same verdict, buckets and records as the decision over the rest from the new state |
| RateLimitService.RedisRateLimitService.IsAllowedForRule | rate-limit-spring-boot-starter-1.3/src/main/java/io/github/jicklin/starter/ratelimit/service/impl/RedisRateLimitService.java:114-137 | an absent or disabled rule admits and writes nothing; otherwise only the path bucket check decides, and nothing is recorded |
| LockStores.CasReply | rate-limit-spring-boot-starter-1.3/src/main/java/io/github/jicklin/starter/ratelimit/service/impl/RedisDuplicateSubmitService.java:54-69 | the check-and-set script replies 0 exactly when the key was absent, and otherwise the remaining time when that is positive (1 when it is not) |
| LockStores.CasStore | rate-limit-spring-boot-starter-1.3/src/main/java/io/github/jicklin/starter/ratelimit/service/impl/RedisDuplicateSubmitService.java:54-69 | a present key leaves the store unchanged (SETNX fails); an absent key is set to the value when the lock time is positive, and is gone again when PEXPIRE gets a time <= 0 |
| LockStores.DelReply | rate-limit-spring-boot-starter-1.3/src/main/java/io/github/jicklin/starter/ratelimit/service/impl/RedisDuplicateSubmitService.java:85-93 | the safe-delete script replies 1 exactly when the key holds the caller's value and 0 otherwise |
| LockStores.DelStore | rate-limit-spring-boot-starter-1.3/src/main/java/io/github/jicklin/starter/ratelimit/service/impl/RedisDuplicateSubmitService.java:85-93 | the key is removed exactly when it holds the caller's value; otherwise the store is unchanged |
| LockStores.CasThenDel | rate-limit-spring-boot-starter-1.3/src/main/java/io/github/jicklin/starter/ratelimit/service/impl/RedisDuplicateSubmitService.java:54-93 | setting a free key and then safe-deleting it with the same value gives back the original store, and the delete reports 1 exactly when the lock time was positive |
| LockStores.DelOtherValue | rate-limit-spring-boot-starter-1.3/src/main/java/io/github/jicklin/starter/ratelimit/service/impl/RedisDuplicateSubmitService.java:85-93 | a safe delete with a value other than the stored one leaves the store, and the other request's lock, untouched |
| LockStores.LockStore.constructor | rate-limit-spring-boot-starter-1.3/src/main/java/io/github/jicklin/starter/ratelimit/service/impl/RedisDuplicateSubmitService.java:95-100 | the store starts with the given contents and the given up/down state |
| LockStores.LockStore.CheckAndSet | rate-limit-spring-boot-starter-1.3/src/main/java/io/github/jicklin/starter/ratelimit/service/impl/RedisDuplicateSubmitService.java:54-69 | a store that is down throws (None) and changes nothing; otherwise the reply is CasReply and the new contents are CasStore of the old ones |
| LockStores.LockStore.SafeDelete | rate-limit-spring-boot-starter-1.3/src/main/java/io/github/jicklin/starter/ratelimit/service/impl/RedisDuplicateSubmitService.java:85-93 | a store that is down throws (None) and changes nothing; otherwise the reply is DelReply and the new contents are DelStore of the old ones |
| LockProtocol.HeldKeys | rate-limit-spring-boot-starter-1.3/src/main/java/io/github/jicklin/starter/ratelimit/service/impl/RedisDuplicateSubmitService.java:494 | the keys of the map built from the acquired locks are exactly the locks' keys |
| LockProtocol.HeldSnoc | rate-limit-spring-boot-starter-1.3/src/main/java/io/github/jicklin/starter/ratelimit/service/impl/RedisDuplicateSubmitService.java:494 | recording one more lock on a new key extends the held map by exactly that key and value |
| LockProtocol.FreshTail | rate-limit-spring-boot-starter-1.3/src/main/java/io/github/jicklin/starter/ratelimit/service/impl/RedisDuplicateSubmitService.java:471-494 | the locks after the first are still fresh, and with a positive lock time the first lock's key is not among theirs |
| LockProtocol.ReleaseFirst | rate-limit-spring-boot-starter-1.3/src/main/java/io/github/jicklin/starter/ratelimit/service/impl/RedisDuplicateSubmitService.java:527-540 | safe-deleting the first acquired lock removes exactly that lock from the store, and with a positive lock time the delete reports success |
| LockProtocol.RollbackRestores | rate-limit-spring-boot-starter-1.3/src/main/java/io/github/jicklin/starter/ratelimit/service/impl/RedisDuplicateSubmitService.java:527-540 | rolling back the locks an acquisition set (in acquisition order) returns the store to exactly what it was before the acquisition |
| LockProtocol.Taken | rate-limit-spring-boot-starter-1.3/src/main/java/io/github/jicklin/starter/ratelimit/service/impl/RedisDuplicateSubmitService.java:494 | one lock per request, in order, carrying its group name, key and fresh value |
| LockProtocol.FallenBack | rate-limit-spring-boot-starter-1.3/src/main/java/io/github/jicklin/starter/ratelimit/service/impl/RedisDuplicateSubmitService.java:451-455 | one lock per request, in order, carrying its group name, key and the fallback value handed out when the store throws |
| LockProtocol.AcquireDown | rate-limit-spring-boot-starter-1.3/src/main/java/io/github/jicklin/starter/ratelimit/service/impl/RedisDuplicateSubmitService.java:451-455 | when the store throws, every group "succeeds" with the fallback value and the store is unchanged (the fail-open path) |
| LockProtocol.AcquireStep | rate-limit-spring-boot-starter-1.3/src/main/java/io/github/jicklin/starter/ratelimit/service/impl/RedisDuplicateSubmitService.java:483-494 | setting a key the store lacks stores exactly that lock on top of those already acquired, and the locks stay fresh |
| LockProtocol.AcquireAllOrNothing | rate-limit-spring-boot-starter-1.3/src/main/java/io/github/jicklin/starter/ratelimit/service/impl/RedisDuplicateSubmitService.java:461-522 | with the store up, the acquisition either takes every remaining group's lock (fresh, in order, all in the store) or fails and leaves the store exactly as it was before any group was locked |
| LockProtocol.AcquireFindsDuplicate | rate-limit-spring-boot-starter-1.3/src/main/java/io/github/jicklin/starter/ratelimit/service/impl/RedisDuplicateSubmitService.java:483-491 | a failed acquisition met a group whose key was already in the store when that group's turn came |
| LockProtocol.AcquireFromScratch | rate-limit-spring-boot-starter-1.3/src/main/java/io/github/jicklin/starter/ratelimit/service/impl/RedisDuplicateSubmitService.java:461-522 | from an empty set of held locks: failure leaves the store as it was and has a group whose key was taken; success holds one fresh lock per group and the store holds exactly those in addition |
| LockProtocol.Entries | rate-limit-spring-boot-starter-1.3/src/main/java/io/github/jicklin/starter/ratelimit/service/impl/RedisDuplicateSubmitService.java:499-510 | one "name::key::value" entry per lock, in order |
| LockProtocol.ParsedAsWritten | rate-limit-spring-boot-starter-1.3/src/main/java/io/github/jicklin/starter/ratelimit/service/impl/RedisDuplicateSubmitService.java:675-681 | each entry is parsed by split("::", 3), in order |
| LockProtocol.ParsedCorrected | rate-limit-spring-boot-starter-1.3/src/main/java/io/github/jicklin/starter/ratelimit/service/impl/RedisDuplicateSubmitService.java:675-681 | each entry is parsed with the name ending at the first "::" and the value starting after the last, in order |
| LockProtocol.LastSeparator | rate-limit-spring-boot-starter-1.3/src/main/java/io/github/jicklin/starter/ratelimit/service/impl/RedisDuplicateSubmitService.java:504-509 | after a trailing "::", a lock value with no ':' contains no later "::", so that separator is the last one |
| LockProtocol.ParseCorrectedEntry | rate-limit-spring-boot-starter-1.3/src/main/java/io/github/jicklin/starter/ratelimit/service/impl/RedisDuplicateSubmitService.java:499-510 | when name and value contain no ':', the corrected parse of an entry gives back its key and value, whatever the key contains |
| LockProtocol.ParseAsWrittenEntry | rate-limit-spring-boot-starter-1.3/src/main/java/io/github/jicklin/starter/ratelimit/service/impl/RedisDuplicateSubmitService.java:677-681 | split("::", 3) gives back an entry's key and value when neither the name nor the key can put a "::" early |
| LockProtocol.FirstSeparatorOfEntry | rate-limit-spring-boot-starter-1.3/src/main/java/io/github/jicklin/starter/ratelimit/service/impl/RedisDuplicateSubmitService.java:504-509 | the first "::" of an entry ends a name that contains no ':' |
| LockProtocol.LastSeparatorOfEntry | rate-limit-spring-boot-starter-1.3/src/main/java/io/github/jicklin/starter/ratelimit/service/impl/RedisDuplicateSubmitService.java:504-509 | the last "::" of an entry starts a value that contains no ':' |
| LockProtocol.SplitSerialize | rate-limit-spring-boot-starter-1.3/src/main/java/io/github/jicklin/starter/ratelimit/service/impl/RedisDuplicateSubmitService.java:499-510 | splitting the combined value of one or more well-formed locks on the vertical bar gives back the entries (no the vertical bar anywhere in a lock, no ':' in its name or value) |
| LockProtocol.ReleaseAllStep | rate-limit-spring-boot-starter-1.3/src/main/java/io/github/jicklin/starter/ratelimit/service/impl/RedisDuplicateSubmitService.java:675-692 | the first entry of the combined value releases the first lock and nothing else |
| LockProtocol.ReleaseAllHeld | rate-limit-spring-boot-starter-1.3/src/main/java/io/github/jicklin/starter/ratelimit/service/impl/RedisDuplicateSubmitService.java:672-694 | releasing the entries of a set of held locks, each with the corrected parse, deletes every lock and reports true |
| LockProtocol.SerializeHasColon | rate-limit-spring-boot-starter-1.3/src/main/java/io/github/jicklin/starter/ratelimit/service/impl/RedisDuplicateSubmitService.java:662-669 | the combined value of one or more locks contains ':', so the release never takes it for a single traditional lock |
| LockProtocol.ReleaseAfterAcquireCorrected | rate-limit-spring-boot-starter-1.3/src/main/java/io/github/jicklin/starter/ratelimit/service/impl/RedisDuplicateSubmitService.java:461-522 | with the store up and a positive lock time, releasing the combined value of a successful acquisition with the corrected parse reports true and returns the store to what it was before the acquisition |
| DuplicateSubmit.GenerateKey | rate-limit-spring-boot-starter-1.3/src/main/java/io/github/jicklin/starter/ratelimit/service/impl/RedisDuplicateSubmitService.java:142-179 | every key starts with "duplicate_submit:", followed by the prefix and ':' when there is a prefix, and by SimpleClass.method when there is none |
| DuplicateSubmit.KeyIgnores | rate-limit-spring-boot-starter-1.3/src/main/java/io/github/jicklin/starter/ratelimit/service/impl/RedisDuplicateSubmitService.java:163-176 | with parameters excluded and users left out, neither the user nor the parameter hash changes the key: it is "duplicate_submit:" and the method part |
| DuplicateSubmit.KeySeparatesParams | rate-limit-spring-boot-starter-1.3/src/main/java/io/github/jicklin/starter/ratelimit/service/impl/RedisDuplicateSubmitService.java:170-176 | when parameters are part of the key, two parameter hashes give the same key only when the hashes are equal |
| DuplicateSubmit.PrefixedKeyShape | rate-limit-spring-boot-starter-1.3/src/main/java/io/github/jicklin/starter/ratelimit/service/impl/RedisDuplicateSubmitService.java:145-176 | a prefixed key with no user part and no params part is "duplicate_submit:" and the prefix followed by a trailing ':' |
| DuplicateSubmit.ExtractUserIdentifier | rate-limit-spring-boot-starter-1.3/src/main/java/io/github/jicklin/starter/ratelimit/service/impl/RedisDuplicateSubmitService.java:186-202 | the loop returns the first non-empty answer of the extractors, in order, and None when there is none |
| DuplicateSubmit.FirstUserUnique | rate-limit-spring-boot-starter-1.3/src/main/java/io/github/jicklin/starter/ratelimit/service/impl/RedisDuplicateSubmitService.java:186-202 | the first-non-empty specification admits only one result, so the extraction is determined by the answers |
| DuplicateSubmit.ShouldIncludeCases | rate-limit-spring-boot-starter-1.3/src/main/java/io/github/jicklin/starter/ratelimit/service/impl/RedisDuplicateSubmitService.java:327-351 | INCLUDE_ALL and EXCLUDE_ANNOTATED both keep exactly the parameters without @DuplicateSubmitIgnore; EXCLUDE_ALL keeps none; INCLUDE_ANNOTATED keeps exactly those with @DuplicateSubmitParam(include=true) |
| DuplicateSubmit.ParameterName | rate-limit-spring-boot-starter-1.3/src/main/java/io/github/jicklin/starter/ratelimit/service/impl/RedisDuplicateSubmitService.java:356-373 | a non-empty alias wins; failing that, a non-empty signature name wins |
| DuplicateSubmit.ParameterNameFallback | rate-limit-spring-boot-starter-1.3/src/main/java/io/github/jicklin/starter/ratelimit/service/impl/RedisDuplicateSubmitService.java:366-372 | without alias or signature name, the name never starts with "arg" ("argN" becomes "paramN") and is empty only when the reflected name is |
| DuplicateSubmit.KeepWhere | rate-limit-spring-boot-starter-1.3/src/main/java/io/github/jicklin/starter/ratelimit/service/impl/RedisDuplicateSubmitService.java:904-915 | the result holds exactly the groups of the input that the strategy keeps, and is never longer than the input |
| DuplicateSubmit.FilterGroups | rate-limit-spring-boot-starter-1.3/src/main/java/io/github/jicklin/starter/ratelimit/service/impl/RedisDuplicateSubmitService.java:891-920 | ALL_GROUPS or an empty name list keeps every group unchanged; otherwise the result holds exactly the groups kept by name |
| DuplicateSubmit.FilterGroupsByName | rate-limit-spring-boot-starter-1.3/src/main/java/io/github/jicklin/starter/ratelimit/service/impl/RedisDuplicateSubmitService.java:899-915 | a group whose name is listed is always kept under SPECIFIED_GROUPS and always dropped under EXCEPT_GROUPS |
| DuplicateSubmit.GenerateGroupKey | rate-limit-spring-boot-starter-1.3/src/main/java/io/github/jicklin/starter/ratelimit/service/impl/RedisDuplicateSubmitService.java:925-961 | every group key starts with "duplicate_submit:" |
| DuplicateSubmit.GroupKeyOfParams | rate-limit-spring-boot-starter-1.3/src/main/java/io/github/jicklin/starter/ratelimit/service/impl/RedisDuplicateSubmitService.java:952-958 | two groups with the same name and the same params get the same key, whatever order the params were added in |
| DuplicateSubmit.GroupKeyFor | rate-limit-spring-boot-starter-1.3/src/main/java/io/github/jicklin/starter/ratelimit/service/impl/RedisDuplicateSubmitService.java:474-481 | a "default" group that carries traditional_key locks exactly that key; any other group locks its generated group key |
| DuplicateSubmit.Requests | rate-limit-spring-boot-starter-1.3/src/main/java/io/github/jicklin/starter/ratelimit/service/impl/RedisDuplicateSubmitService.java:471-483 | one lock request per sorted group, in order, each carrying the group's actual name, its key and the lock values the call draws |
| DuplicateSubmit.DuplicateSubmitService.constructor | rate-limit-spring-boot-starter-1.3/src/main/java/io/github/jicklin/starter/ratelimit/service/impl/RedisDuplicateSubmitService.java:114-130 | the service starts with the given store, hash and UUID source, having made no calls |
| DuplicateSubmit.DuplicateSubmitService.TryAcquireSingleLock | rate-limit-spring-boot-starter-1.3/src/main/java/io/github/jicklin/starter/ratelimit/service/impl/RedisDuplicateSubmitService.java:427-456 | a store that is down fails open (the fallback value, store unchanged); otherwise the result is None exactly when the key was present, and the store becomes CasStore of the old one |
| DuplicateSubmit.DuplicateSubmitService.ReleaseLockWithKey | rate-limit-spring-boot-starter-1.3/src/main/java/io/github/jicklin/starter/ratelimit/service/impl/RedisDuplicateSubmitService.java:703-729 | a missing key or value gives false and changes nothing; otherwise the result and the new store are those of one safe delete (false when the store is down) |
| DuplicateSubmit.DuplicateSubmitService.RollbackAcquiredLocks | rate-limit-spring-boot-starter-1.3/src/main/java/io/github/jicklin/starter/ratelimit/service/impl/RedisDuplicateSubmitService.java:527-540 | every acquired lock is safe-deleted in order, whatever each reply; a store that is down is left unchanged |
| DuplicateSubmit.DuplicateSubmitService.TryAcquireGroupLocks | rate-limit-spring-boot-starter-1.3/src/main/java/io/github/jicklin/starter/ratelimit/service/impl/RedisDuplicateSubmitService.java:461-522 | the groups are filtered, stripped of empty ones and sorted (a permutation, ordered by the comparator); the new store and the result are those of the all-or-nothing acquisition, the result being the combined value on success |
| DuplicateSubmit.DuplicateSubmitService.PlanLocks | rate-limit-spring-boot-starter-1.3/src/main/java/io/github/jicklin/starter/ratelimit/service/impl/RedisDuplicateSubmitService.java:463-483 | the plan is a sorted permutation of the non-empty filtered groups, with one lock request per group |
| DuplicateSubmit.DuplicateSubmitService.LockAll | rate-limit-spring-boot-starter-1.3/src/main/java/io/github/jicklin/starter/ratelimit/service/impl/RedisDuplicateSubmitService.java:469-515 | the new store is the acquisition's store, and the result is the combined lock value exactly when every group was locked |
| DuplicateSubmit.DuplicateSubmitService.AcquireEach | rate-limit-spring-boot-starter-1.3/src/main/java/io/github/jicklin/starter/ratelimit/service/impl/RedisDuplicateSubmitService.java:471-495 | the loop takes the locks in order and ends where the acquisition function does: the same locks or None, and the same store |
| DuplicateSubmit.DuplicateSubmitService.TryAcquireLock | rate-limit-spring-boot-starter-1.3/src/main/java/io/github/jicklin/starter/ratelimit/service/impl/RedisDuplicateSubmitService.java:403-422 | no groups, or only default groups under ALL_GROUPS, are replaced by one "default" group of weight 0 holding traditional_key = generateKey; otherwise the groups are kept; the lock is then taken as TryAcquireGroupLocks does |
| DuplicateSubmit.DuplicateSubmitService.CombineLockValues | rate-limit-spring-boot-starter-1.3/src/main/java/io/github/jicklin/starter/ratelimit/service/impl/RedisDuplicateSubmitService.java:499-512 | the loop builds exactly the entries joined by the vertical bar |
| DuplicateSubmit.DuplicateSubmitService.ReleaseGroupLocks | rate-limit-spring-boot-starter-1.3/src/main/java/io/github/jicklin/starter/ratelimit/service/impl/RedisDuplicateSubmitService.java:661-695 | corrected (see ## Findings): the result and the new store are those of ReleaseCombined: a value with neither ':' nor the vertical bar is released on the traditional key, otherwise each entry that parses with the corrected first/last "::" rule is released |
| DuplicateSubmit.DuplicateSubmitService.ReleaseEach | rate-limit-spring-boot-starter-1.3/src/main/java/io/github/jicklin/starter/ratelimit/service/impl/RedisDuplicateSubmitService.java:672-694 | corrected (see ## Findings): the loop releases every entry that parses with the corrected first/last "::" rule and reports whether all were released |
| DuplicateSubmit.DuplicateSubmitService.ReleaseLock | rate-limit-spring-boot-starter-1.3/src/main/java/io/github/jicklin/starter/ratelimit/service/impl/RedisDuplicateSubmitService.java:649-656 | corrected (see ## Findings): a missing lock value or request gives false and changes nothing; otherwise the result is the corrected group release |
| DuplicateSubmit.DuplicateSubmitService.TryAcquireLockWithKey | rate-limit-spring-boot-starter-1.3/src/main/java/io/github/jicklin/starter/ratelimit/service/impl/RedisDuplicateSubmitService.java:575-624 | a missing key gives None and changes nothing; an empty key or value, an interval <= 0 or a store that is down fail open with a second UUID and change nothing; otherwise the result is None exactly when the key was present, and the store becomes CasStore of the old one |
| DuplicateSubmit.PrefixedLockNotReleasedAsWritten | rate-limit-spring-boot-starter-1.3/src/main/java/io/github/jicklin/starter/ratelimit/service/impl/RedisDuplicateSubmitService.java:672-694 | with a key prefix, no user and no params, a lock taken on the traditional key is not released by the release as written: it reports false and the lock stays in the store |
| DuplicateSubmit.PrefixedRelease | rate-limit-spring-boot-starter-1.3/src/main/java/io/github/jicklin/starter/ratelimit/service/impl/RedisDuplicateSubmitService.java:672-694 | the release as written of the single entry of a prefixed traditional key reports false and leaves the store unchanged |
| DuplicateSubmit.PrefixedEntryAsWritten | rate-limit-spring-boot-starter-1.3/src/main/java/io/github/jicklin/starter/ratelimit/service/impl/RedisDuplicateSubmitService.java:677-681 | split("::", 3) reads the entry of a prefixed traditional key as the key without its trailing ':' and the value with a ':' in front |
| DuplicateSubmit.ReleaseMisparsed | rate-limit-spring-boot-starter-1.3/src/main/java/io/github/jicklin/starter/ratelimit/service/impl/RedisDuplicateSubmitService.java:672-694 | an entry that parses to a key the store does not hold releases nothing and reports false |
| DuplicateSubmit.AcquireOne | rate-limit-spring-boot-starter-1.3/src/main/java/io/github/jicklin/starter/ratelimit/service/impl/RedisDuplicateSubmitService.java:461-515 | locking one free key with a positive interval takes it with the caller's value and stores exactly that |
| ParamGroups.ToMapKeys | rate-limit-spring-boot-starter-1.3/src/main/java/io/github/jicklin/starter/ratelimit/model/ParamGroupInfo.java:37 | the map an entry list holds has exactly the entries' names as keys |
| ParamGroups.HeadNotInTail | rate-limit-spring-boot-starter-1.3/src/main/java/io/github/jicklin/starter/ratelimit/model/ParamGroupInfo.java:49 | in a TreeMap's ascending entry list the first name occurs nowhere later |
| ParamGroups.PutNames | rate-limit-spring-boot-starter-1.3/src/main/java/io/github/jicklin/starter/ratelimit/model/ParamGroupInfo.java:107-109 | after put, the names are the old names plus the new one |
| ParamGroups.PutMap | rate-limit-spring-boot-starter-1.3/src/main/java/io/github/jicklin/starter/ratelimit/model/ParamGroupInfo.java:107-109 | put maps the name to the value, replacing an earlier value, and leaves every other name's value alone |
| ParamGroups.ConsSorted | rate-limit-spring-boot-starter-1.3/src/main/java/io/github/jicklin/starter/ratelimit/model/ParamGroupInfo.java:49 | an entry whose name precedes the head of an ascending list can go in front and keep it ascending |
| ParamGroups.SortedTail | rate-limit-spring-boot-starter-1.3/src/main/java/io/github/jicklin/starter/ratelimit/model/ParamGroupInfo.java:49 | the rest of an ascending list is ascending |
| ParamGroups.PutHead | rate-limit-spring-boot-starter-1.3/src/main/java/io/github/jicklin/starter/ratelimit/model/ParamGroupInfo.java:107-109 | after put the first entry is the new name or the old first entry |
| ParamGroups.PutSorted | rate-limit-spring-boot-starter-1.3/src/main/java/io/github/jicklin/starter/ratelimit/model/ParamGroupInfo.java:107-109 | put keeps the entry list strictly ascending by name, as a TreeMap does |
| ParamGroups.SortedHeadLeast | rate-limit-spring-boot-starter-1.3/src/main/java/io/github/jicklin/starter/ratelimit/model/ParamGroupInfo.java:49 | every other name of an ascending list is above its first name |
| ParamGroups.ToMapTail | rate-limit-spring-boot-starter-1.3/src/main/java/io/github/jicklin/starter/ratelimit/model/ParamGroupInfo.java:49 | the first entry of an ascending list holds its name's value, and dropping it removes exactly that name |
| ParamGroups.EmptyMap | rate-limit-spring-boot-starter-1.3/src/main/java/io/github/jicklin/starter/ratelimit/model/ParamGroupInfo.java:114-116 | an entry list holds the empty map exactly when it has no entries |
| ParamGroups.SortedUnique | rate-limit-spring-boot-starter-1.3/src/main/java/io/github/jicklin/starter/ratelimit/model/ParamGroupInfo.java:49 | two ascending entry lists holding the same map are the same list, so the TreeMap's order is determined by its contents |
| ParamGroups.RenderEntries | rate-limit-spring-boot-starter-1.3/src/main/java/io/github/jicklin/starter/ratelimit/model/ParamGroupInfo.java:128-130 | one "name=value" text per entry, in order |
| ParamGroups.ParamGroupInfo.constructor | rate-limit-spring-boot-starter-1.3/src/main/java/io/github/jicklin/starter/ratelimit/model/ParamGroupInfo.java:45-50 | the actual name starts equal to the group name, the weight is kept, and there are no params |
| ParamGroups.ParamGroupInfo.WithActualName | rate-limit-spring-boot-starter-1.3/src/main/java/io/github/jicklin/starter/ratelimit/model/ParamGroupInfo.java:59-64 | the base name, actual name and weight are those given, and there are no params |
| ParamGroups.ParamGroupInfo.SetActualGroupName | rate-limit-spring-boot-starter-1.3/src/main/java/io/github/jicklin/starter/ratelimit/model/ParamGroupInfo.java:83-85 | the actual name becomes the one given and the params are kept |
| ParamGroups.ParamGroupInfo.AddParam | rate-limit-spring-boot-starter-1.3/src/main/java/io/github/jicklin/starter/ratelimit/model/ParamGroupInfo.java:107-109 | the name now maps to the value, replacing any earlier value, the other params are kept, and the entries stay in ascending order |
| ParamGroups.ParamGroupInfo.IsEmpty | rate-limit-spring-boot-starter-1.3/src/main/java/io/github/jicklin/starter/ratelimit/model/ParamGroupInfo.java:114-116 | true exactly when the group holds no params |
| ParamGroups.ParamGroupInfo.IsDefaultGroup | rate-limit-spring-boot-starter-1.3/src/main/java/io/github/jicklin/starter/ratelimit/model/ParamGroupInfo.java:121-123 | true exactly when the group name is null or empty |
| ParamGroups.ParamsHashOfParams | rate-limit-spring-boot-starter-1.3/src/main/java/io/github/jicklin/starter/ratelimit/model/ParamGroupInfo.java:128-130 | two groups holding the same params have the same params text, whatever order the params were added in |
| ParamGroups.PutTwiceSorted | rate-limit-spring-boot-starter-1.3/src/main/java/io/github/jicklin/starter/ratelimit/model/ParamGroupInfo.java:107-109 | two puts keep the entry list ascending |
| ParamGroups.PutTwiceMap | rate-limit-spring-boot-starter-1.3/src/main/java/io/github/jicklin/starter/ratelimit/model/ParamGroupInfo.java:107-109 | two puts give the map with both updates applied in order |
| ParamGroups.PutCommutes | rate-limit-spring-boot-starter-1.3/src/main/java/io/github/jicklin/starter/ratelimit/model/ParamGroupInfo.java:107-109 | adding two different names in either order gives the same entry list |
| ParamGroups.NameCompare | rate-limit-spring-boot-starter-1.3/src/main/java/io/github/jicklin/starter/ratelimit/model/ParamGroupInfo.java:141-143 | a null name sorts first, and two groups compare equal exactly when their names are equal |
| ParamGroups.WeightThenNameCompare | rate-limit-spring-boot-starter-1.3/src/main/java/io/github/jicklin/starter/ratelimit/model/ParamGroupInfo.java:135-136 | the heavier group sorts first, and groups of equal weight compare by name |
| ParamGroups.CompareAntisymmetric | rate-limit-spring-boot-starter-1.3/src/main/java/io/github/jicklin/starter/ratelimit/model/ParamGroupInfo.java:135-143 | swapping two groups negates the comparison |
| ParamGroups.NameCompareTransitive | rate-limit-spring-boot-starter-1.3/src/main/java/io/github/jicklin/starter/ratelimit/model/ParamGroupInfo.java:141-143 | the name order is transitive |
| ParamGroups.CompareTransitive | rate-limit-spring-boot-starter-1.3/src/main/java/io/github/jicklin/starter/ratelimit/model/ParamGroupInfo.java:135-143 | both comparators are transitive, so sorting by them is well defined |
| ParamGroups.NonEmpty | rate-limit-spring-boot-starter-1.3/src/main/java/io/github/jicklin/starter/ratelimit/model/ParamGroupInfo.java:155 | holds only groups of the input that have params |
| ParamGroups.Insert | rate-limit-spring-boot-starter-1.3/src/main/java/io/github/jicklin/starter/ratelimit/model/ParamGroupInfo.java:158-162 | inserting adds exactly the one group to the multiset of groups |
| ParamGroups.ConsSortedBy | rate-limit-spring-boot-starter-1.3/src/main/java/io/github/jicklin/starter/ratelimit/model/ParamGroupInfo.java:158-162 | a group that does not sort after the head of a sorted list can go in front and keep it sorted |
| ParamGroups.SortedByTail | rate-limit-spring-boot-starter-1.3/src/main/java/io/github/jicklin/starter/ratelimit/model/ParamGroupInfo.java:158-162 | the rest of a sorted list is sorted |
| ParamGroups.InsertHead | rate-limit-spring-boot-starter-1.3/src/main/java/io/github/jicklin/starter/ratelimit/model/ParamGroupInfo.java:158-162 | after insertion the first group is the new one or the old first one |
| ParamGroups.InsertSorted | rate-limit-spring-boot-starter-1.3/src/main/java/io/github/jicklin/starter/ratelimit/model/ParamGroupInfo.java:158-162 | inserting keeps the list sorted by the comparator |
| ParamGroups.InMultiset | rate-limit-spring-boot-starter-1.3/src/main/java/io/github/jicklin/starter/ratelimit/model/ParamGroupInfo.java:151-165 | two sequences with the same multiset hold the same groups |
| ParamGroups.CreateSortedList | rate-limit-spring-boot-starter-1.3/src/main/java/io/github/jicklin/starter/ratelimit/model/ParamGroupInfo.java:151-165 | the result is sorted by the chosen comparator, is a permutation of the groups that have params, and holds only groups of the input |
| ParamGroups.DropEmpty | rate-limit-spring-boot-starter-1.3/src/main/java/io/github/jicklin/starter/ratelimit/model/ParamGroupInfo.java:155 | the kept groups are exactly the non-empty ones, in their order |
| ParamGroups.SortGroups | rate-limit-spring-boot-starter-1.3/src/main/java/io/github/jicklin/starter/ratelimit/model/ParamGroupInfo.java:158-162 | the result is sorted by the chosen comparator and is a permutation of the input |
| ParamGroups.UpdatesCommute | rate-limit-spring-boot-starter-1.3/src/main/java/io/github/jicklin/starter/ratelimit/model/ParamGroupInfo.java:107-109 | updates of two different keys commute |
| GroupNameGenerator.SafeChars | rate-limit-spring-boot-starter-1.3/src/main/java/io/github/jicklin/starter/ratelimit/util/GroupNameGenerator.java:16-65 | the result keeps only chars of [a-zA-Z0-9_-] and is no longer than the input |
| GroupNameGenerator.SafeCharsAppend | rate-limit-spring-boot-starter-1.3/src/main/java/io/github/jicklin/starter/ratelimit/util/GroupNameGenerator.java:58-65 | the safe chars of a concatenation are the safe chars of each part, concatenated |
| GroupNameGenerator.SafeCharsOfSafe | rate-limit-spring-boot-starter-1.3/src/main/java/io/github/jicklin/starter/ratelimit/util/GroupNameGenerator.java:58-65 | a string made only of safe chars is its own safe chars |
| GroupNameGenerator.GenerateSafeContent | rate-limit-spring-boot-starter-1.3/src/main/java/io/github/jicklin/starter/ratelimit/util/GroupNameGenerator.java:54-73 | the loop, with its break at 20 chars and its "len"+length fallback, computes SafeContent |
| GroupNameGenerator.NatToStringShort | rate-limit-spring-boot-starter-1.3/src/main/java/io/github/jicklin/starter/ratelimit/util/GroupNameGenerator.java:69 | a number below 10^k has at most k decimal digits |
| GroupNameGenerator.SafeContentShape | rate-limit-spring-boot-starter-1.3/src/main/java/io/github/jicklin/starter/ratelimit/util/GroupNameGenerator.java:54-73 | the safe content is made of safe chars, is never empty and has at most 20 chars; it is the first min(20, n) safe chars when there are n > 0 of them, and "len" with the length otherwise |
| GroupNameGenerator.SafeContentOfSafe | rate-limit-spring-boot-starter-1.3/src/main/java/io/github/jicklin/starter/ratelimit/util/GroupNameGenerator.java:54-73 | a non-empty string of at most 20 safe chars is its own safe content |
| GroupNameGenerator.ContentHash | rate-limit-spring-boot-starter-1.3/src/main/java/io/github/jicklin/starter/ratelimit/util/GroupNameGenerator.java:79-82 | the hash is the first min(8, length) chars of the MD5 hex digest |
| GroupNameGenerator.ElementNameIgnoresIndex | rate-limit-spring-boot-starter-1.3/src/main/java/io/github/jicklin/starter/ratelimit/util/GroupNameGenerator.java:129-146 | a non-empty element's name does not depend on its index and equals the actual group name of that content |
| GroupNameGenerator.ElementNameIndexed | rate-limit-spring-boot-starter-1.3/src/main/java/io/github/jicklin/starter/ratelimit/util/GroupNameGenerator.java:129-139 | null and empty elements at different indexes get different names |
| GroupNameGenerator.StableNamesIgnoreUnsafeChars | rate-limit-spring-boot-starter-1.3/src/main/java/io/github/jicklin/starter/ratelimit/util/GroupNameGenerator.java:174-190 | elements that differ only in unsafe chars (such as "a b" and "ab") get the same stable parameter name |
| GroupNameGenerator.SimpleNameOfSafe | rate-limit-spring-boot-starter-1.3/src/main/java/io/github/jicklin/starter/ratelimit/util/GroupNameGenerator.java:92-102 | content of at most 10 safe chars is used as it is after the base and '_', so empty content gives a bare trailing '_' |
| GroupNameGenerator.SimpleNameFallsBack | rate-limit-spring-boot-starter-1.3/src/main/java/io/github/jicklin/starter/ratelimit/util/GroupNameGenerator.java:100-105 | longer content, or content with another char, gets the full actual group name |
| GroupNameGenerator.IsValidGroupName | rate-limit-spring-boot-starter-1.3/src/main/java/io/github/jicklin/starter/ratelimit/util/GroupNameGenerator.java:215-233 | the loop's answer is true exactly when the name is present, non-empty, at most 100 chars and made of safe chars |
| GroupNameGenerator.ActualGroupNameValid | rate-limit-spring-boot-starter-1.3/src/main/java/io/github/jicklin/starter/ratelimit/util/GroupNameGenerator.java:28-48 | a valid base of at most 70 chars and a hex digest give an actual group name that isValidGroupName accepts, whatever the content |
| GroupNameGenerator.GenerateBatchGroupNames | rate-limit-spring-boot-starter-1.3/src/main/java/io/github/jicklin/starter/ratelimit/util/GroupNameGenerator.java:156-164 | a fresh array with one element group name per element, each computed from the element and its index |
| GroupNameGenerator.GenerateStableParamNames | rate-limit-spring-boot-starter-1.3/src/main/java/io/github/jicklin/starter/ratelimit/util/GroupNameGenerator.java:199-207 | a fresh array with one stable parameter name per element |
| GroupNameGenerator.AllSafeAppend | rate-limit-spring-boot-starter-1.3/src/main/java/io/github/jicklin/starter/ratelimit/util/GroupNameGenerator.java:47 | a concatenation of safe strings is safe |
| ProcessorManagers.ParamValueProcessorManager.constructor | rate-limit-spring-boot-starter-1.3/src/main/java/io/github/jicklin/starter/ratelimit/processor/ParamValueProcessorManager.java:29 | the registry starts empty |
| ProcessorManagers.ParamValueProcessorManager.RegisterProcessor | rate-limit-spring-boot-starter-1.3/src/main/java/io/github/jicklin/starter/ratelimit/processor/ParamValueProcessorManager.java:71-89 | a null processor or one with a null or blank name leaves the registry unchanged; otherwise the processor is stored under its name, replacing an earlier one |
| ProcessorManagers.ParamValueProcessorManager.Init | rate-limit-spring-boot-starter-1.3/src/main/java/io/github/jicklin/starter/ratelimit/processor/ParamValueProcessorManager.java:34-66 | the registry becomes the old one with the five built-ins registered in order, then the application's processors in their order (none when the list was not injected) |
| ProcessorManagers.ParamValueProcessorManager.GetProcessor | rate-limit-spring-boot-starter-1.3/src/main/java/io/github/jicklin/starter/ratelimit/processor/ParamValueProcessorManager.java:94-106 | a registered non-blank name gives its processor; a null, blank or unknown name gives the "default" processor, or nothing when that is not registered either |
| ProcessorManagers.ParamValueProcessorManager.ProcessValue | rate-limit-spring-boot-starter-1.3/src/main/java/io/github/jicklin/starter/ratelimit/processor/ParamValueProcessorManager.java:111-127 | the result is what the chosen processor returns, and the original value when it throws or when there is no processor |
| ProcessorManagers.RegisterRefused | rate-limit-spring-boot-starter-1.3/src/main/java/io/github/jicklin/starter/ratelimit/processor/ParamValueProcessorManager.java:72-81 | registering a null processor or one with a null or blank name changes nothing |
| ProcessorManagers.RegisterReplaces | rate-limit-spring-boot-starter-1.3/src/main/java/io/github/jicklin/starter/ratelimit/processor/ParamValueProcessorManager.java:83-87 | a later processor of the same name replaces the earlier one, and every other name keeps its processor |
| ProcessorManagers.LastWins | rate-limit-spring-boot-starter-1.3/src/main/java/io/github/jicklin/starter/ratelimit/processor/ParamValueProcessorManager.java:60-66 | after registering a list, a name holds the last processor of the list registered under it |
| ProcessorManagers.Untouched | rate-limit-spring-boot-starter-1.3/src/main/java/io/github/jicklin/starter/ratelimit/processor/ParamValueProcessorManager.java:60-66 | a name no processor of the list registers under keeps what it held before |
| ProcessorManagers.RegisterAllSnoc | rate-limit-spring-boot-starter-1.3/src/main/java/io/github/jicklin/starter/ratelimit/processor/ParamValueProcessorManager.java:62-64 | registering a list and then one more is registering the longer list |
| ProcessorManagers.BuiltinsInOrder | rate-limit-spring-boot-starter-1.3/src/main/java/io/github/jicklin/starter/ratelimit/processor/ParamValueProcessorManager.java:49-55 | the built-ins are registered as default, hash, mask, normalize, split, in that order |
| ProcessorManagers.BuiltinRegistry | rate-limit-spring-boot-starter-1.3/src/main/java/io/github/jicklin/starter/ratelimit/processor/ParamValueProcessorManager.java:49-55 | an empty registry holds, after the built-ins, exactly those five under their names |
| ProcessorManagers.BuiltinNamesNotBlank | rate-limit-spring-boot-starter-1.3/src/main/java/io/github/jicklin/starter/ratelimit/processor/ParamValueProcessorManager.java:49-55 | no built-in name is blank, so registerProcessor accepts every built-in |
| ProcessorManagers.CustomOverrides | rate-limit-spring-boot-starter-1.3/src/main/java/io/github/jicklin/starter/ratelimit/processor/ParamValueProcessorManager.java:35-66 | an application processor registered under a built-in's name replaces the built-in |
| ProcessorManagers.DefaultKept | rate-limit-spring-boot-starter-1.3/src/main/java/io/github/jicklin/starter/ratelimit/processor/ParamValueProcessorManager.java:35-66 | unless an application processor is named "default", the built-in default processor stays registered |
| ProcessorManagers.UnknownNamePassesThrough | rate-limit-spring-boot-starter-1.3/src/main/java/io/github/jicklin/starter/ratelimit/processor/ParamValueProcessorManager.java:94-106 | with the built-in default registered, a null, blank or unknown processor name selects it and leaves the value unchanged |
| ProcessorManagers.ThrowGivesOriginal | rate-limit-spring-boot-starter-1.3/src/main/java/io/github/jicklin/starter/ratelimit/processor/ParamValueProcessorManager.java:121-127 | a processor that throws (the custom-order processor without a parameter name) leaves the value as it was |
| ProcessorManagers.NamedProcessorUsed | rate-limit-spring-boot-starter-1.3/src/main/java/io/github/jicklin/starter/ratelimit/processor/ParamValueProcessorManager.java:113-120 | a registered name whose processor returns gives that processor's result |
| Values.ToList | rate-limit-spring-boot-starter-1.3/src/main/java/io/github/jicklin/starter/ratelimit/processor/ParamValueProcessorManager.java:133-148 | a collection or an array gives its elements, any other value a one-element list |
| BuiltinProcessors.DefaultProcess | rate-limit-spring-boot-starter-1.3/src/main/java/io/github/jicklin/starter/ratelimit/processor/builtin/DefaultValueProcessor.java:15-18 | the default processor returns its input unchanged |
| BuiltinProcessors.HashProcess | rate-limit-spring-boot-starter-1.3/src/main/java/com/marry/starter/ratelimit/processor/builtin/HashValueProcessor.java:19-26 | null stays null; any other value becomes the MD5 hex digest of its text |
| BuiltinProcessors.MaskSensitive | rate-limit-spring-boot-starter-1.3/src/main/java/io/github/jicklin/starter/ratelimit/processor/builtin/MaskValueProcessor.java:60-71 | the mask keeps the first and last k chars around "***", with k = 0 up to 2 chars, 1 up to 6 and 2 beyond, the kept ends never overlapping |
| BuiltinProcessors.MaskShape | rate-limit-spring-boot-starter-1.3/src/main/java/io/github/jicklin/starter/ratelimit/processor/builtin/MaskValueProcessor.java:60-71 | the masked text is 3, 5 or 7 chars long, holds "***" right after the kept head, and keeps fewer chars of a non-empty input than the input has (the mask itself may be longer than the input, as for "abcd" or "a") |
| BuiltinProcessors.MaskProcess | rate-limit-spring-boot-starter-1.3/src/main/java/io/github/jicklin/starter/ratelimit/processor/builtin/MaskValueProcessor.java:16-29 | null stays null; a value under a sensitive parameter name is masked, any other value is returned as its text |
| BuiltinProcessors.PasswordIsSensitive | rate-limit-spring-boot-starter-1.3/src/main/java/io/github/jicklin/starter/ratelimit/processor/builtin/MaskValueProcessor.java:39-55 | any parameter name containing "password", in any case, is sensitive |
| BuiltinProcessors.DropWs | rate-limit-spring-boot-starter-1.3/src/main/java/io/github/jicklin/starter/ratelimit/processor/builtin/NormalizeValueProcessor.java:32 | dropping a leading whitespace run leaves a suffix that starts with a non-whitespace char, and everything dropped is whitespace |
| BuiltinProcessors.CollapseIsCollapsed | rate-limit-spring-boot-starter-1.3/src/main/java/io/github/jicklin/starter/ratelimit/processor/builtin/NormalizeValueProcessor.java:32 | after the whitespace-run replacement every whitespace char is a single space followed by a non-whitespace char |
| BuiltinProcessors.CollapseFirst | rate-limit-spring-boot-starter-1.3/src/main/java/io/github/jicklin/starter/ratelimit/processor/builtin/NormalizeValueProcessor.java:32 | the collapse keeps a leading non-whitespace char, and turns a leading whitespace run into one space |
| BuiltinProcessors.CollapseChars | rate-limit-spring-boot-starter-1.3/src/main/java/io/github/jicklin/starter/ratelimit/processor/builtin/NormalizeValueProcessor.java:32 | every non-whitespace char of the collapsed text comes from the input |
| BuiltinProcessors.CollapseLast | rate-limit-spring-boot-starter-1.3/src/main/java/io/github/jicklin/starter/ratelimit/processor/builtin/NormalizeValueProcessor.java:32 | the collapse keeps a trailing non-whitespace char |
| BuiltinProcessors.CollapseFixed | rate-limit-spring-boot-starter-1.3/src/main/java/io/github/jicklin/starter/ratelimit/processor/builtin/NormalizeValueProcessor.java:32 | collapsing text that is already collapsed changes nothing |
| BuiltinProcessors.TrimOfTrimmed | rate-limit-spring-boot-starter-1.3/src/main/java/io/github/jicklin/starter/ratelimit/processor/builtin/NormalizeValueProcessor.java:24 | trimming text whose ends are not blank changes nothing |
| BuiltinProcessors.TrimEnds | rate-limit-spring-boot-starter-1.3/src/main/java/io/github/jicklin/starter/ratelimit/processor/builtin/NormalizeValueProcessor.java:24 | trim leaves neither end blank |
| BuiltinProcessors.LowerKeepsEnds | rate-limit-spring-boot-starter-1.3/src/main/java/io/github/jicklin/starter/ratelimit/processor/builtin/NormalizeValueProcessor.java:27-29 | lower-casing keeps the ends non-blank |
| BuiltinProcessors.CollapseKeepsEnds | rate-limit-spring-boot-starter-1.3/src/main/java/io/github/jicklin/starter/ratelimit/processor/builtin/NormalizeValueProcessor.java:32 | collapsing keeps the ends non-blank |
| BuiltinProcessors.NormalizeShape | rate-limit-spring-boot-starter-1.3/src/main/java/io/github/jicklin/starter/ratelimit/processor/builtin/NormalizeValueProcessor.java:16-35 | normalized text has no blank at either end, and no whitespace other than single spaces between non-whitespace chars |
| BuiltinProcessors.NormalizeLower | rate-limit-spring-boot-starter-1.3/src/main/java/io/github/jicklin/starter/ratelimit/processor/builtin/NormalizeValueProcessor.java:27-29 | when lower-casing applies, the normalized text is all lower case |
| BuiltinProcessors.NormalizeIdempotent | rate-limit-spring-boot-starter-1.3/src/main/java/io/github/jicklin/starter/ratelimit/processor/builtin/NormalizeValueProcessor.java:16-35 | normalizing normalized text changes nothing |
| BuiltinProcessors.NormalizeProcess | rate-limit-spring-boot-starter-1.3/src/main/java/io/github/jicklin/starter/ratelimit/processor/builtin/NormalizeValueProcessor.java:16-35 | null stays null; any other value becomes its text trimmed, lower-cased for the names shouldLowerCase picks, and with whitespace runs collapsed |
| BuiltinProcessors.NormalizeProcessIdempotent | rate-limit-spring-boot-starter-1.3/src/main/java/io/github/jicklin/starter/ratelimit/processor/builtin/NormalizeValueProcessor.java:16-35 | applying the normalize processor twice gives what applying it once gives |
| BuiltinProcessors.GetDelimiter | rate-limit-spring-boot-starter-1.3/src/main/java/io/github/jicklin/starter/ratelimit/processor/builtin/SplitValueProcessor.java:53-70 | the delimiter is ',' or '/', and '/' exactly when the name mentions path or url and neither tag nor label |
| BuiltinProcessors.Pieces | rate-limit-spring-boot-starter-1.3/src/main/java/io/github/jicklin/starter/ratelimit/processor/builtin/SplitValueProcessor.java:31-34 | the pieces are trimmed and non-empty, and there are no more of them than parts |
| BuiltinProcessors.PiecesFromParts | rate-limit-spring-boot-starter-1.3/src/main/java/io/github/jicklin/starter/ratelimit/processor/builtin/SplitValueProcessor.java:31-34 | every piece is the trimmed form of one of the parts |
| BuiltinProcessors.PiecesOfClean | rate-limit-spring-boot-starter-1.3/src/main/java/io/github/jicklin/starter/ratelimit/processor/builtin/SplitValueProcessor.java:31-34 | parts already trimmed and non-empty are kept as they are |
| BuiltinProcessors.StrValues | rate-limit-spring-boot-starter-1.3/src/main/java/io/github/jicklin/starter/ratelimit/processor/builtin/SplitValueProcessor.java:42 | one string value per piece, in order |
| BuiltinProcessors.SplitProcess | rate-limit-spring-boot-starter-1.3/src/main/java/io/github/jicklin/starter/ratelimit/processor/builtin/SplitValueProcessor.java:19-43 | null stays null; one piece comes back as that string (trimmed, non-empty); any other count comes back as a list of non-empty strings |
| BuiltinProcessors.SplitJoinRoundTrip | rate-limit-spring-boot-starter-1.3/src/main/java/io/github/jicklin/starter/ratelimit/processor/builtin/SplitValueProcessor.java:19-43 | two or more trimmed, non-empty items free of ',' joined by ',' split back into exactly those items when the name selects ',' |
| CustomProcessors.StripOrd | src/main/java/com/marry/ratelimit/processor/CustomOrderProcessor.java:48-50 | an "ORD" prefix is removed, and any other number is kept as it is |
| CustomProcessors.Zeros | src/main/java/com/marry/ratelimit/processor/CustomOrderProcessor.java:53-55 | n zeros |
| CustomProcessors.Padded | src/main/java/com/marry/ratelimit/processor/CustomOrderProcessor.java:53-55 | the number is left-padded with zeros to at least ten chars: the result ends with it and everything before it is '0' |
| CustomProcessors.OrderUserTag | src/main/java/com/marry/ratelimit/processor/CustomOrderProcessor.java:58-62 | no tag for an absent or empty user; otherwise the user's first one to three chars followed by '_' |
| CustomProcessors.OrderNumber | src/main/java/com/marry/ratelimit/processor/CustomOrderProcessor.java:46-64 | the order number is the user tag followed by the padded number with "ORD" removed |
| CustomProcessors.PadZeros | src/main/java/com/marry/ratelimit/processor/CustomOrderProcessor.java:53-55 | the padding loop computes Padded |
| CustomProcessors.ProcessOrderNumber | src/main/java/com/marry/ratelimit/processor/CustomOrderProcessor.java:46-64 | the method computes OrderNumber |
| CustomProcessors.ZerosCommute | src/main/java/com/marry/ratelimit/processor/CustomOrderProcessor.java:54 | putting a zero in front of a run of zeros is putting it at the end |
| CustomProcessors.KeepAlnum | src/main/java/com/marry/ratelimit/processor/CustomOrderProcessor.java:71 | only ASCII letters and digits are kept, and a string made of them is kept whole |
| CustomProcessors.UserId | src/main/java/com/marry/ratelimit/processor/CustomOrderProcessor.java:69-82 | the user id has at most 20 chars, all of them digits or upper-case letters, and is a prefix of the upper-cased alphanumeric chars of the input |
| CustomProcessors.UserIdIdempotent | src/main/java/com/marry/ratelimit/processor/CustomOrderProcessor.java:69-82 | processing a processed user id changes nothing |
| CustomProcessors.CustomOrderProcess | src/main/java/com/marry/ratelimit/processor/CustomOrderProcessor.java:18-36 | null stays null; a null parameter name throws; an "order" name gives the order number, else a "user" name the user id, else the text |
| CustomProcessors.OrderNumberShape | src/main/java/com/marry/ratelimit/processor/CustomOrderProcessor.java:46-64 | the padded number has at least ten chars and ends with the stripped number; without a user there is no tag |
| CustomProcessors.ProductId | src/main/java/com/marry/ratelimit/processor/CustomCollectionProcessor.java:56-59 | a "PROD" id becomes "PRODUCT_" and the rest, and the result is never empty |
| CustomProcessors.Products | src/main/java/com/marry/ratelimit/processor/CustomCollectionProcessor.java:50-62 | the products are non-empty and carry no bare "PROD" prefix, and there are no more of them than parts |
| CustomProcessors.RoleOf | src/main/java/com/marry/ratelimit/processor/CustomCollectionProcessor.java:73-76 | a role is "ROLE_" and the upper-cased trimmed part |
| CustomProcessors.Roles | src/main/java/com/marry/ratelimit/processor/CustomCollectionProcessor.java:69-78 | every role starts with "ROLE_" followed by at least one char, and there are no more of them than parts |
| CustomProcessors.ListOr | src/main/java/com/marry/ratelimit/processor/CustomCollectionProcessor.java:64-148 | no items gives back the original text; any items give the list of them |
| CustomProcessors.Tag | src/main/java/com/marry/ratelimit/processor/CustomCollectionProcessor.java:97-115 | every tag starts with its prefix |
| CustomProcessors.Tagged | src/main/java/com/marry/ratelimit/processor/CustomCollectionProcessor.java:96-98 | the tags exist exactly when no element is null (a null element throws), and are one per element, in order |
| CustomProcessors.FieldTags | src/main/java/com/marry/ratelimit/processor/CustomCollectionProcessor.java:93-100 | a key holding a list gives its elements' tags, any other entry gives none; every tag starts with the prefix |
| CustomProcessors.TaggedStartWith | src/main/java/com/marry/ratelimit/processor/CustomCollectionProcessor.java:96-98 | every tag of a list starts with the prefix |
| CustomProcessors.UserPrefix | src/main/java/com/marry/ratelimit/processor/CustomCollectionProcessor.java:154-160 | three chars: the upper-cased first three of a user id of at least three chars, else "USR" |
| CustomProcessors.ListTags | src/main/java/com/marry/ratelimit/processor/CustomCollectionProcessor.java:129-146 | the loop fails (a null parameter name throws) exactly when some element is not null; otherwise there is one string per element that is not null |
| CustomProcessors.ListResult | src/main/java/com/marry/ratelimit/processor/CustomCollectionProcessor.java:126-149 | the list processing throws exactly when the parameter name is null and some element is not |
| CustomProcessors.CustomCollectionProcess | src/main/java/com/marry/ratelimit/processor/CustomCollectionProcessor.java:22-37 | null stays null; a string with a null name throws, else goes through processStringValue; maps and lists go through their own processing; anything else becomes its text |
| CustomProcessors.ProductsSnoc | src/main/java/com/marry/ratelimit/processor/CustomCollectionProcessor.java:53-62 | one more part adds its product id when it is not blank and nothing otherwise |
| CustomProcessors.RolesSnoc | src/main/java/com/marry/ratelimit/processor/CustomCollectionProcessor.java:72-78 | one more part adds its role when it is not blank and nothing otherwise |
| CustomProcessors.RenameProduct | src/main/java/com/marry/ratelimit/processor/CustomCollectionProcessor.java:57-59 | the method computes ProductId |
| CustomProcessors.CollectProducts | src/main/java/com/marry/ratelimit/processor/CustomCollectionProcessor.java:50-62 | the loop computes Products of the parts |
| CustomProcessors.CollectRoles | src/main/java/com/marry/ratelimit/processor/CustomCollectionProcessor.java:69-78 | the loop computes Roles of the parts |
| CustomProcessors.ProcessStringValue | src/main/java/com/marry/ratelimit/processor/CustomCollectionProcessor.java:47-84 | the method computes the string result: product ids, roles, or the string itself |
| CustomProcessors.AppendTagged | src/main/java/com/marry/ratelimit/processor/CustomCollectionProcessor.java:96-98 | the loop fails when an element is null and otherwise appends exactly the tags |
| CustomProcessors.AppendField | src/main/java/com/marry/ratelimit/processor/CustomCollectionProcessor.java:93-100 | the method appends exactly the field's tags, and fails where they do |
| CustomProcessors.ProcessMapValue | src/main/java/com/marry/ratelimit/processor/CustomCollectionProcessor.java:89-121 | the method computes MapResult of the entries |
| CustomProcessors.ProcessListValue | src/main/java/com/marry/ratelimit/processor/CustomCollectionProcessor.java:126-149 | the loop computes ListResult of the elements |
| CustomProcessors.NoneExtends | src/main/java/com/marry/ratelimit/processor/CustomCollectionProcessor.java:129-146 | once the loop has failed on a prefix of the list, it fails on the whole list |
| CustomProcessors.ProcessCollectionValue | src/main/java/com/marry/ratelimit/processor/CustomCollectionProcessor.java:22-37 | the method computes CustomCollectionProcess |
| CustomProcessors.StringWithoutComma | src/main/java/com/marry/ratelimit/processor/CustomCollectionProcessor.java:47-84 | a string without ',' is returned as it is, whatever the name |
| CustomProcessors.MapPrefixes | src/main/java/com/marry/ratelimit/processor/CustomCollectionProcessor.java:89-121 | every string of a map's list result starts with "CATEGORY_", "TAG_" or "PERM_" |
| CustomProcessors.ThreePrefixes | src/main/java/com/marry/ratelimit/processor/CustomCollectionProcessor.java:93-118 | the three tag lists together keep each one's prefix |
| CustomProcessors.MapWithoutFields | src/main/java/com/marry/ratelimit/processor/CustomCollectionProcessor.java:120 | a map with none of categories, tags and permissions gives its own text back |
| CustomProcessors.IdListTags | src/main/java/com/marry/ratelimit/processor/CustomCollectionProcessor.java:134-137 | under an "id" name, every element becomes the user prefix, "_ID_" and its text, one per element |
| CustomProcessors.IdListTagsUpTo | src/main/java/com/marry/ratelimit/processor/CustomCollectionProcessor.java:129-137 | the same for every prefix of the list |
| HttpMethods.ValuesComplete | rate-limit-spring-boot-starter-1.3/src/main/java/com/marry/ratelimit/starter/model/HttpMethod.java:6-14 | values() lists every constant of the enum |
| HttpMethods.FirstMatching | rate-limit-spring-boot-starter-1.3/src/main/java/com/marry/ratelimit/starter/model/HttpMethod.java:30-35 | a method found is in the list and matches ignoring case; when none is found, no method of the list matches |
| HttpMethods.FromString | rate-limit-spring-boot-starter-1.3/src/main/java/com/marry/ratelimit/starter/model/HttpMethod.java:26-36 | null gives null; a method found matches the text ignoring case; null for text no constant matches |
| HttpMethods.UpperName | rate-limit-spring-boot-starter-1.3/src/main/java/com/marry/ratelimit/starter/model/HttpMethod.java:7-14 | every constant's text is upper case |
| HttpMethods.NamesDistinct | rate-limit-spring-boot-starter-1.3/src/main/java/com/marry/ratelimit/starter/model/HttpMethod.java:7-14 | different constants' texts differ even ignoring case, so the lookup is unambiguous |
| HttpMethods.FromStringIgnoresCase | rate-limit-spring-boot-starter-1.3/src/main/java/com/marry/ratelimit/starter/model/HttpMethod.java:26-36 | fromString(s) is m exactly when m's text equals s ignoring case |
| HttpMethods.FromStringRoundTrip | rate-limit-spring-boot-starter-1.3/src/main/java/com/marry/ratelimit/starter/model/HttpMethod.java:22-36 | looking up a constant's own text gives that constant back |
| HttpMethods.FoundAs | rate-limit-spring-boot-starter-1.3/src/main/java/com/marry/ratelimit/starter/model/HttpMethod.java:26-36 | text whose upper case is a constant's text finds that constant |
| HttpMethods.EnumTestFound | rate-limit-spring-boot-starter-1.3/src/test/java/com/marry/starter/ratelimit/RateLimitStarterTest.java:53-57 | "GET", "post" and "Put" find GET, POST and PUT |
| HttpMethods.EnumTestMissing | rate-limit-spring-boot-starter-1.3/src/test/java/com/marry/starter/ratelimit/RateLimitStarterTest.java:58-59 | "INVALID" and null find nothing |
| PathStrategy.Relative | rate-limit-spring-boot-starter-1.3/src/main/java/io/github/jicklin/starter/ratelimit/strategy/impl/PathRateLimitStrategy.java:36-42 | the path with the context path removed is a suffix of the request URI |
| PathStrategy.ExtractIdentifier | rate-limit-spring-boot-starter-1.3/src/main/java/io/github/jicklin/starter/ratelimit/strategy/impl/PathRateLimitStrategy.java:34-50 | the identifier always starts with '/', and is the relative path, with a '/' put in front only when it lacks one |
| PathStrategy.ExtractIdempotent | rate-limit-spring-boot-starter-1.3/src/main/java/io/github/jicklin/starter/ratelimit/strategy/impl/PathRateLimitStrategy.java:34-50 | extracting the identifier from an identifier (with no context path) gives it back |
| PathStrategy.ContextStripped | rate-limit-spring-boot-starter-1.3/src/main/java/io/github/jicklin/starter/ratelimit/strategy/impl/PathRateLimitStrategy.java:39-42 | a URI made of the context path and a path starting with '/' gives that path |
| PathStrategy.GenerateKey | rate-limit-spring-boot-starter-1.3/src/main/java/io/github/jicklin/starter/ratelimit/strategy/impl/PathRateLimitStrategy.java:16-19 | the key is "rate_limit:path:", the rule id and ':', followed by exactly the identifier |
| PathStrategy.SameBucket | rate-limit-spring-boot-starter-1.3/src/main/java/io/github/jicklin/starter/ratelimit/strategy/impl/PathRateLimitStrategy.java:16-19 | two requests share a key under a rule exactly when their identifiers are equal |
| PathStrategy.Supports | rate-limit-spring-boot-starter-1.3/src/main/java/io/github/jicklin/starter/ratelimit/strategy/impl/PathRateLimitStrategy.java:28-31 | the path strategy supports every rule |
| PathStrategy.RequestLimit | rate-limit-spring-boot-starter-1.3/src/main/java/io/github/jicklin/starter/ratelimit/strategy/impl/PathRateLimitStrategy.java:22-25 | the request limit of the path strategy is the rule's refill rate |
| UserIdentifier.GetOrder | rate-limit-spring-boot-starter-1.3/src/main/java/io/github/jicklin/starter/ratelimit/strategy/impl/DefaultUserIdentifierExtractor.java:62-65 | the order is the largest int, so the default extractor runs after every other |
| UserIdentifier.AddressFallback | rate-limit-spring-boot-starter-1.3/src/main/java/io/github/jicklin/starter/ratelimit/strategy/impl/DefaultUserIdentifierExtractor.java:76-86 | a usable X-Real-IP wins, else a usable X-Forwarded-Proto, else the remote address |
| UserIdentifier.ClientIpAsWritten | rate-limit-spring-boot-starter-1.3/src/main/java/io/github/jicklin/starter/ratelimit/strategy/impl/DefaultUserIdentifierExtractor.java:70-87 | the lookup fails (the array index throws) exactly when X-Forwarded-For is usable but holds only commas; without a usable X-Forwarded-For it is the fallback |
| UserIdentifier.ClientIp | rate-limit-spring-boot-starter-1.3/src/main/java/io/github/jicklin/starter/ratelimit/strategy/impl/DefaultUserIdentifierExtractor.java:70-87 | the address as written where that succeeds, and the fallback chain where it throws |
| UserIdentifier.ForwardedForFirstHop | rate-limit-spring-boot-starter-1.3/src/main/java/io/github/jicklin/starter/ratelimit/strategy/impl/DefaultUserIdentifierExtractor.java:72-74 | a usable X-Forwarded-For gives its first hop, trimmed |
| UserIdentifier.ForwardedForSingle | rate-limit-spring-boot-starter-1.3/src/main/java/io/github/jicklin/starter/ratelimit/strategy/impl/DefaultUserIdentifierExtractor.java:72-74 | a usable X-Forwarded-For without a comma gives itself, trimmed |
| UserIdentifier.IdentifyWith | rate-limit-spring-boot-starter-1.3/src/main/java/io/github/jicklin/starter/ratelimit/strategy/impl/DefaultUserIdentifierExtractor.java:23-60 | a non-empty Authorization gives "token:" and what follows "Bearer ", or "auth:" and the header; else a non-empty netUserId parameter gives "user:" and it; the chain fails only with no session and a failed address lookup |
| UserIdentifier.ExtractUserIdentifierAsWritten | rate-limit-spring-boot-starter-1.3/src/main/java/io/github/jicklin/starter/ratelimit/strategy/impl/DefaultUserIdentifierExtractor.java:23-60 | the identifier is missing (an exception escapes) exactly when authorization, the netUserId parameter and the session are all absent and the address lookup throws |
| UserIdentifier.ExtractUserIdentifier | rate-limit-spring-boot-starter-1.3/src/main/java/io/github/jicklin/starter/ratelimit/strategy/impl/DefaultUserIdentifierExtractor.java:23-60 | with the corrected address lookup there is always an identifier, and it starts with "token:", "auth:", "user:", "session:" or "ip:" |
| UserIdentifier.SessionStep | rate-limit-spring-boot-starter-1.3/src/main/java/io/github/jicklin/starter/ratelimit/strategy/impl/DefaultUserIdentifierExtractor.java:41-55 | a session identifies the caller by its netUserId attribute, else its username attribute, else the session id |
| UserIdentifier.AddressStep | rate-limit-spring-boot-starter-1.3/src/main/java/io/github/jicklin/starter/ratelimit/strategy/impl/DefaultUserIdentifierExtractor.java:57-59 | without any of the earlier sources the identifier is "ip:" and the client address |
| UserIdentifier.BearerToken | rate-limit-spring-boot-starter-1.3/src/main/java/io/github/jicklin/starter/ratelimit/strategy/impl/DefaultUserIdentifierExtractor.java:26-30 | "Bearer " and a token give "token:" and the token |
| UserIdentifier.CommaOnlyForwardedForThrows | rate-limit-spring-boot-starter-1.3/src/main/java/io/github/jicklin/starter/ratelimit/strategy/impl/DefaultUserIdentifierExtractor.java:71-74 | a request whose X-Forwarded-For is "," and which has no other source gets no identifier as written (split gives no element) and "ip:" with the fallback address when corrected |
| RedisKeys.RedisKeyGenerator.constructor | rate-limit-spring-boot-starter/src/main/java/com/marry/ratelimit/starter/util/RedisKeyGenerator.java:30-36 | as written, the argument replaces "xports" only when it is present and blank; otherwise the prefix stays "xports" |
| RedisKeys.RedisKeyGenerator.Corrected | rate-limit-spring-boot-starter/src/main/java/com/marry/ratelimit/starter/util/RedisKeyGenerator.java:30-36 | as evidently intended, a present non-blank argument replaces "xports"; otherwise the prefix stays "xports" |
| RedisKeys.RedisKeyGenerator.SetRedisKeyPrefix | rate-limit-spring-boot-starter/src/main/java/com/marry/ratelimit/starter/util/RedisKeyGenerator.java:128-130 | the prefix becomes the one given, null included |
| RedisKeys.ConstructorIgnoresPrefixAsWritten | rate-limit-spring-boot-starter/src/main/java/com/marry/ratelimit/starter/util/RedisKeyGenerator.java:32-36 | for the prefix "myapp" the constructor as written keeps "xports" while the corrected one takes "myapp" |
| RedisKeys.ConstructorPrefixes | rate-limit-spring-boot-starter/src/main/java/com/marry/ratelimit/starter/util/RedisKeyGenerator.java:32-36 | for any argument: a non-blank one is ignored as written and taken when corrected; the corrected prefix is never blank; the prefix as written is blank whenever the argument is taken |
| RedisKeys.NotBlankFirst | rate-limit-spring-boot-starter/src/main/java/com/marry/ratelimit/starter/util/RedisKeyGenerator.java:33 | a string whose first char is above ' ' is not blank |
| RedisKeys.RuleConfigKey | rate-limit-spring-boot-starter/src/main/java/com/marry/ratelimit/starter/util/RedisKeyGenerator.java:44-46 | the key is the prefix, ':', "rate_limit:config:rule:" and the rule id |
| RedisKeys.StatsKey | rate-limit-spring-boot-starter/src/main/java/com/marry/ratelimit/starter/util/RedisKeyGenerator.java:54-56 | the key is the prefix, ':', "rate_limit:stats:" and the rule id |
| RedisKeys.BucketKey | rate-limit-spring-boot-starter/src/main/java/com/marry/ratelimit/starter/util/RedisKeyGenerator.java:65-67 | the key is the prefix, ':', "rate_limit:bucket:", the rule id, ':' and the identifier |
| RedisKeys.Window | rate-limit-spring-boot-starter/src/main/java/com/marry/ratelimit/starter/util/RedisKeyGenerator.java:78 | a zero window throws (division by zero); otherwise, for a clock reading >= 0 and a positive window, the window number is the reading divided by the window in milliseconds |
| RedisKeys.BucketKeyWithWindow | rate-limit-spring-boot-starter/src/main/java/com/marry/ratelimit/starter/util/RedisKeyGenerator.java:77-80 | the key exists exactly when the window is not zero, and is the bucket key, ':' and the window number |
| RedisKeys.GlobalStatsKey | rate-limit-spring-boot-starter/src/main/java/com/marry/ratelimit/starter/util/RedisKeyGenerator.java:87-89 | the key is the prefix and ":stats:global" |
| RedisKeys.RuleEnabledKey | rate-limit-spring-boot-starter/src/main/java/com/marry/ratelimit/starter/util/RedisKeyGenerator.java:97-99 | the key is the prefix, ":enabled:" and the rule id |
| RedisKeys.DetailedStatsKey | rate-limit-spring-boot-starter/src/main/java/com/marry/ratelimit/starter/util/RedisKeyGenerator.java:109-111 | the key is the prefix, ":detailed_stats:", the rule id, the dimension and its value, ':'-separated |
| RedisKeys.DimensionListKey | rate-limit-spring-boot-starter/src/main/java/com/marry/ratelimit/starter/util/RedisKeyGenerator.java:120-122 | the key is the prefix, ":rate_limit:dimension_list:", the rule id, ':' and the dimension |
| RedisKeys.GenerateKey | rate-limit-spring-boot-starter/src/main/java/com/marry/ratelimit/starter/util/RedisKeyGenerator.java:133-135 | the key is the prefix, ':' and the key given |
| RedisKeys.RecordKey | rate-limit-spring-boot-starter/src/main/java/com/marry/ratelimit/starter/util/RedisKeyGenerator.java:137-139 | the key is the prefix, ":rate_limit:records:", the rule id, ':' and the record id |
| RedisKeys.TimeIndexKey | rate-limit-spring-boot-starter/src/main/java/com/marry/ratelimit/starter/util/RedisKeyGenerator.java:141-143 | the key is the prefix, ":rate_limit:time_index:" and the rule id |
| RedisKeys.GlobalTimeIndexKey | rate-limit-spring-boot-starter/src/main/java/com/marry/ratelimit/starter/util/RedisKeyGenerator.java:145-149 | the key is the prefix and ":rate_limit:global_time_index" |
| RedisKeys.RealtimeKey | rate-limit-spring-boot-starter/src/main/java/com/marry/ratelimit/starter/util/RedisKeyGenerator.java:151-154 | the key is the prefix, ":rate_limit:realtime:", the rule id, ':' and the minute |
| RedisKeys.PrefixLemma | rate-limit-spring-boot-starter/src/main/java/com/marry/ratelimit/starter/util/RedisKeyGenerator.java:44-154 | every builder's key starts with the prefix and ':' |
| RedisKeys.UnderInjective | rate-limit-spring-boot-starter/src/main/java/com/marry/ratelimit/starter/util/RedisKeyGenerator.java:133-135 | two keys under one prefix are equal only when what follows the prefix is |
| RedisKeys.StatsKeyInjective | rate-limit-spring-boot-starter/src/main/java/com/marry/ratelimit/starter/util/RedisKeyGenerator.java:54-56 | different rules have different statistics keys |
| RedisKeys.DetailedAndDimensionNamespaces | rate-limit-spring-boot-starter/src/main/java/com/marry/ratelimit/starter/util/RedisKeyGenerator.java:109-122 | the dimension-list key has "rate_limit:" after the prefix and the detailed-statistics key does not, so the two never collide |
| RedisKeys.WindowKeys | rate-limit-spring-boot-starter/src/main/java/com/marry/ratelimit/starter/util/RedisKeyGenerator.java:77-80 | two clock readings give the same windowed bucket key exactly when they fall in the same window |
| StatsService.GetLongValue | src/main/java/com/marry/ratelimit/service/impl/RedisRateLimitStatsService.java:783-796 | a missing or null field reads 0, a number reads as itself, text reads as its parsed long, and unparsable text reads 0 |
| StatsService.Incr | src/main/java/com/marry/ratelimit/service/impl/RedisRateLimitStatsService.java:54-61 | HINCRBY succeeds exactly when the field is absent or holds a long below the maximum, and then sets the field to one more than it read |
| StatsService.IncrThenRead | src/main/java/com/marry/ratelimit/service/impl/RedisRateLimitStatsService.java:54-61 | after a successful increment the field reads one more and every other field reads as before |
| StatsService.IncrAt | src/main/java/com/marry/ratelimit/service/impl/RedisRateLimitStatsService.java:54-61 | incrementing a field of one hash in the store succeeds exactly when the hash's increment does, and replaces only that hash |
| StatsService.CountOneCounters | src/main/java/com/marry/ratelimit/service/impl/RedisRateLimitStatsService.java:54-62 | counting a request into consistent counters keeps total equal to allowed plus blocked; it succeeds exactly when the total is below the 64-bit maximum, then raising total and the allowed or blocked counter by one, and otherwise leaves the store unchanged |
| StatsService.StatsNotRealtime | src/main/java/com/marry/ratelimit/service/impl/RedisRateLimitStatsService.java:51 | the statistics key of a rule never equals the realtime key of any rule and minute |
| StatsService.RecordKeepsConsistent | src/main/java/com/marry/ratelimit/service/impl/RedisRateLimitStatsService.java:49-75 | recording a request keeps the rule's statistics consistent, counting one more request below the 64-bit maximum and none at it |
| StatsService.RealtimeLeavesOthers | src/main/java/com/marry/ratelimit/service/impl/RedisRateLimitStatsService.java:321-326 | counting into the realtime key leaves every other key's hash unchanged |
| StatsService.RecordKeepsAllConsistent | src/main/java/com/marry/ratelimit/service/impl/RedisRateLimitStatsService.java:49-75 | recording a request keeps every rule's statistics hash consistent |
| StatsService.ChooseInterval | src/main/java/com/marry/ratelimit/service/impl/RedisRateLimitStatsService.java:470-491 | spans up to 15 minutes get width 1 and one point per minute (a zero span bumped to one point); up to 60 width 5 with minutes/5 points; up to 360 width 15 with minutes/15; beyond that width 60 with minutes/60; the point count is never zero |
| StatsService.IntervalCovers | src/main/java/com/marry/ratelimit/service/impl/RedisRateLimitStatsService.java:470-491 | for a positive span the points times the width cover the span to within one interval; a zero span gives one one-minute point; a negative span keeps its negative count |
| StatsService.Series | src/main/java/com/marry/ratelimit/service/impl/RedisRateLimitStatsService.java:496-539 | a series has one entry per point, each the interval's counter summed over the rules |
| StatsService.SeriesSnoc | src/main/java/com/marry/ratelimit/service/impl/RedisRateLimitStatsService.java:496-539 | one more point appends the next interval's sum to the series |
| StatsService.TimePoints | src/main/java/com/marry/ratelimit/service/impl/RedisRateLimitStatsService.java:497 | point i is read at the start plus i intervals |
| StatsService.TimePointsSnoc | src/main/java/com/marry/ratelimit/service/impl/RedisRateLimitStatsService.java:497 | one more point appends the next clock reading |
| StatsService.TrendOf | src/main/java/com/marry/ratelimit/service/impl/RedisRateLimitStatsService.java:458-557 | with Redis down and at least one point and one rule, the first read throws and the trend is the empty error trend; otherwise (Redis up, no rule, or no point) it carries the chosen interval and point count, as many labels and values as there are points, and all-zero series when there is no rule |
| StatsService.WindowBlockedAtMostTotal | src/main/java/com/marry/ratelimit/service/impl/RedisRateLimitStatsService.java:521-533 | when no minute hash has more blocked than requests, neither does a rule's window sum |
| StatsService.RulesBlockedAtMostTotal | src/main/java/com/marry/ratelimit/service/impl/RedisRateLimitStatsService.java:508-534 | the same bound holds for one interval summed over the rules |
| StatsService.TrendWithoutReads | src/main/java/com/marry/ratelimit/service/impl/RedisRateLimitStatsService.java:496-539 | when the loops make no Redis read (no point or no rule), a store that is down gives the same trend as one that is up |
| StatsService.TrendBlockedAtMostTotal | src/main/java/com/marry/ratelimit/service/impl/RedisRateLimitStatsService.java:496-539 | every point of the trend has at most as many blocked requests as requests |
| StatsService.TrendOfLastMinute | src/main/java/com/marry/ratelimit/service/impl/RedisRateLimitStatsService.java:472-519 | the trend of the last minute is the single counter of the minute one minute ago |
| StatsService.SingleRule | src/main/java/com/marry/ratelimit/service/impl/RedisRateLimitStatsService.java:508-519 | one interval of width one over one rule is that rule's minute counter |
| StatsService.CountOneKeys | src/main/java/com/marry/ratelimit/service/impl/RedisRateLimitStatsService.java:54-62 | counting a request touches no key but its own |
| StatsService.FreshMinute | src/main/java/com/marry/ratelimit/service/impl/RedisRateLimitStatsService.java:321-326 | counting a request into an empty minute hash leaves one request there |
| StatsService.TrendMissesRecordedAsWritten | src/main/java/com/marry/ratelimit/service/impl/RedisRateLimitStatsService.java:319 | as written, a request recorded at t never shows in the trend of the last minute read at t plus one minute, which reads zero |
| StatsService.TrendCountsRecorded | src/main/java/com/marry/ratelimit/service/impl/RedisRateLimitStatsService.java:513-514 | with the realtime key prefixed on both sides, that trend reads one |
| StatsService.GetStats | src/main/java/com/marry/ratelimit/service/impl/RedisRateLimitStatsService.java:115-148 | with Redis down the statistics are zero; otherwise consistent counters give total equal to allowed plus blocked |
| StatsService.Global | src/main/java/com/marry/ratelimit/service/impl/RedisRateLimitStatsService.java:207-237 | the global statistics count every rule, and the active rules are at most all rules |
| StatsService.GlobalSnoc | src/main/java/com/marry/ratelimit/service/impl/RedisRateLimitStatsService.java:216-225 | one more rule adds its counters to the totals, and counts as active exactly when it had a request |
| StatsService.AllStats | src/main/java/com/marry/ratelimit/service/impl/RedisRateLimitStatsService.java:152-166 | the statistics list has one entry per rule, each that rule's statistics, in order |
| StatsService.GlobalAddsUp | src/main/java/com/marry/ratelimit/service/impl/RedisRateLimitStatsService.java:216-229 | when every rule's total is its allowed plus blocked, the global total is the global allowed plus blocked |
| StatsService.NoActiveNoRequests | src/main/java/com/marry/ratelimit/service/impl/RedisRateLimitStatsService.java:216-229 | with non-negative counters there is no active rule exactly when the global total is zero |
| StatsService.BlockReasonDetermines | src/main/java/com/marry/ratelimit/service/impl/RedisRateLimitStatsService.java:725-737 | the four block reasons are distinct, so a reason tells which dimensions the rule limits |
| StatsService.RedisRateLimitStatsService.constructor | src/main/java/com/marry/ratelimit/service/impl/RedisRateLimitStatsService.java:30-43 | the service starts with an empty store and the given prefix |
| StatsService.RedisRateLimitStatsService.Increment | src/main/java/com/marry/ratelimit/service/impl/RedisRateLimitStatsService.java:54-61 | an increment that succeeds replaces the store by the incremented one; one that fails leaves it unchanged |
| StatsService.RedisRateLimitStatsService.CountInto | src/main/java/com/marry/ratelimit/service/impl/RedisRateLimitStatsService.java:54-62 | the store and outcome are those of counting one request into the key |
| StatsService.RedisRateLimitStatsService.RecordRequest | src/main/java/com/marry/ratelimit/service/impl/RedisRateLimitStatsService.java:49-75 | corrected (see ## Findings): with Redis down nothing changes; otherwise the store becomes the recorded store with both the stats and the realtime key prefixed |
| StatsService.RedisRateLimitStatsService.ReadWindow | src/main/java/com/marry/ratelimit/service/impl/RedisRateLimitStatsService.java:523-533 | the loop's sum is the rule's window sum |
| StatsService.RedisRateLimitStatsService.ReadPoint | src/main/java/com/marry/ratelimit/service/impl/RedisRateLimitStatsService.java:508-535 | the loop's sum is the interval's counter summed over the rules |
| StatsService.RedisRateLimitStatsService.ReadSeries | src/main/java/com/marry/ratelimit/service/impl/RedisRateLimitStatsService.java:496-539 | the loop builds exactly the clock readings and both series |
| StatsService.RedisRateLimitStatsService.ReadStep | src/main/java/com/marry/ratelimit/service/impl/RedisRateLimitStatsService.java:497-538 | one pass appends the next clock reading and both next sums |
| StatsService.RedisRateLimitStatsService.GetTrendData | src/main/java/com/marry/ratelimit/service/impl/RedisRateLimitStatsService.java:458-557 | the result is the trend of the store: the error trend exactly when Redis is down and a read happens (a point and a rule), otherwise the series of the chosen interval |
| StatsService.RedisRateLimitStatsService.GetRuleTrendData | src/main/java/com/marry/ratelimit/service/impl/RedisRateLimitStatsService.java:561-657 | the result is the trend of the store over that rule alone; with Redis down it is the error trend for a span of zero or more minutes, and for a negative span (no point, no read) empty series with width 1 and the negative count |
| StatsService.RedisRateLimitStatsService.GetGlobalStats | src/main/java/com/marry/ratelimit/service/impl/RedisRateLimitStatsService.java:207-237 | the result is the global statistics of the rules' statistics |
| RateLimitControllers.SaveRule | src/main/java/com/marry/ratelimit/controller/RateLimitController.java:140-175 | the rule is saved exactly when its name and path are non-blank and its three bucket parameters positive; the response is 200 and successful exactly when it is valid and the save does not throw; the first failing check picks the 400 message, and a throwing save answers its message after the failure prefix |
| RateLimitControllers.SaveMessagesDistinct | src/main/java/com/marry/ratelimit/controller/RateLimitController.java:148-172 | the validation, success and failure messages are pairwise distinct, so the message tells which check failed |
| RateLimitControllers.FirstFailureDecides | src/main/java/com/marry/ratelimit/controller/RateLimitController.java:145-162 | two invalid rules failing at the same first check get the same response, whatever the save would have done |
| RateLimitControllers.CountBlocked | src/main/java/com/marry/ratelimit/controller/RateLimitController.java:562 | the count of stats with blocked requests is at most the number of stats, all of them exactly when each has a blocked request, none exactly when none has |
| RateLimitControllers.TallyOf | src/main/java/com/marry/ratelimit/controller/RateLimitController.java:558-570 | a dimension's tally sums the stats of the rules limiting that dimension, and the blocked count never exceeds the total |
| RateLimitControllers.TallyIgnoresOtherRules | src/main/java/com/marry/ratelimit/controller/RateLimitController.java:558-570 | rules that do not limit a dimension add nothing to its tally |
| RateLimitControllers.OverviewOf | src/main/java/com/marry/ratelimit/controller/RateLimitController.java:572-578 | a dimension's active count is its total minus its blocked count |
| RateLimitControllers.GetDimensionOverview | src/main/java/com/marry/ratelimit/controller/RateLimitController.java:539-589 | the loop's IP and user overviews are those of the tallies over all rules, with active and blocked counts between zero and the total |
| RateLimitControllers.IterateKeeps | src/main/java/com/marry/ratelimit/controller/RateLimitController.java:492-495 | a property each recorded request carries forward holds after all of them |
| RateLimitControllers.RecordRule | src/main/java/com/marry/ratelimit/controller/RateLimitController.java:492-495 | the 50 requests of one rule change the statistics store exactly as 50 recordings, or not at all when Redis is down |
| RateLimitControllers.RecordOne | src/main/java/com/marry/ratelimit/controller/RateLimitController.java:494 | one request of that loop adds one recording to the store |
| RateLimitControllers.StepRecords | src/main/java/com/marry/ratelimit/controller/RateLimitController.java:494 | one more loop step leaves the store unchanged when Redis is down and records one more request when it is up |
| RateLimitControllers.GenerateTestData | src/main/java/com/marry/ratelimit/controller/RateLimitController.java:476-511 | with no rule the answer is 400 with its message and nothing is recorded; otherwise the answer is 200 with the rule count, and the store holds 50 recordings per rule, rule by rule, each corrected as in RecordRequest (see ## Findings) |
| RateLimitControllers.RecordLeavesOtherRules | src/main/java/com/marry/ratelimit/controller/RateLimitController.java:494 | recording a request for one rule leaves every other rule's counters unchanged |
| RateLimitControllers.RecordManyCounts | src/main/java/com/marry/ratelimit/controller/RateLimitController.java:492-495 | the 50 requests of a rule add 50 to its total and keep its counters adding up, while that stays within range |
| RateLimitControllers.RecordManyLeavesOtherRules | src/main/java/com/marry/ratelimit/controller/RateLimitController.java:492-495 | the 50 requests of a rule leave every other rule's counters unchanged |
| RateLimitControllers.Occurrences | src/main/java/com/marry/ratelimit/controller/RateLimitController.java:490 | a rule id occurs at most once per rule |
| RateLimitControllers.GeneratedCounts | src/main/java/com/marry/ratelimit/controller/RateLimitController.java:490-496 | generating test data adds 50 to a rule's total for each listed rule with that id, and keeps its counters adding up |
| Text.SplitEmptyIffOnlySeparators | rate-limit-spring-boot-starter-1.3/src/main/java/io/github/jicklin/starter/ratelimit/strategy/impl/DefaultUserIdentifierExtractor.java:73 | Java's split by one character gives no element exactly when the string is non-empty and made of that character alone |
| Text.JavaDiv | rate-limit-spring-boot-starter/src/main/java/com/marry/ratelimit/starter/util/RedisKeyGenerator.java:78 | long division truncates toward zero: it is Euclidean division for a non-negative dividend and its negation for a negative one |
| Text.IntToStringInjective | rate-limit-spring-boot-starter/src/main/java/com/marry/ratelimit/starter/util/RedisKeyGenerator.java:78-79 | distinct windows print as distinct decimal texts |
| Text.ParseLongOfIntToString | src/main/java/com/marry/ratelimit/service/impl/RedisRateLimitStatsService.java:791 | Long.parseLong reads a long's decimal text back as that long |

## Left out

- I/O: HTTP handling, Spring wiring, logging, the DOM and chart code of the dashboard script, and `downloadCSV`. The helpers above take and return plain values.
- Concurrency: the Redis calls and the Lua scripts run one after another. SETNX and script atomicity under concurrent clients have no meaning in a sequential model.
- Key expiry: TTL, EXPIRE and PEXPIRE are not modelled, so keys never expire. The one exception is that PEXPIRE with a time that is not positive deletes the key.
- Partial Redis failures: `down` makes every call throw, so a single call failing midway through a sequence is not modelled. An operation that makes no call when down (the trend with no rule or no point) gives its normal result. The one exception is an HINCRBY on a field that is not a long, which fails there; it is modelled.
- Labels: the trend's `HH:mm` labels (SimpleDateFormat) are replaced by the clock readings they format.
- Integer width:
  - Java's `int` product `minutes * 60` inside `getTrendData` is computed unbounded;
  - the `(int)` casts in `getDimensionOverview` are computed unbounded;
  - the long sums of the trend and of the global statistics are computed unbounded.
  - HINCRBY's 64-bit limit is modelled.
- Floating point:
  - block and request rates, `globalBlockRate` and `formatNumber` are parameters or left out;
  - the caption's fractional hours are a parameter `fraction`;
  - Lua numbers are integers, because the clock and the refill rate it receives are integers.
- Library parameters:
  - MD5 (`DigestUtils`), UUID and the clock are parameters;
  - recordRequest reads the clock three times (RedisRateLimitStatsService.java:65, 297 and 318); the model's single `now` stands for all three, so the stats and the realtime counter cannot be split across a minute boundary;
  - reflection over method parameters is replaced by a description of each parameter's annotations and name.
- Regular expressions: Java's `replaceAll("\\s+", " ")` is modelled as the collapse of runs of ASCII whitespace. Case mapping is ASCII-only.
- Dashboard.AntPathMatch: returns a verdict only for regular expressions in the fragment the translation produces (literals, `.`, `[^/]*`). For a pattern with other regular-expression syntax it returns None instead of JavaScript's answer.
- StatsService.GetStats: gives the three counters only. The rule name from the configuration service, `lastRequestTime` and the computed rates are left out.
- StatsService.RedisRateLimitStatsService.GetGlobalStats: its exception path (an empty map) is left out. With the per-rule statistics already caught, its only source would be the configuration service, which is a parameter here.
- RateLimitControllers.GenerateTestData: the "生成测试数据失败" path is left out. `recordRequest` catches its own exceptions, so with the rule list a parameter nothing in the loop can throw. Each recording is the corrected one of RecordRequest (prefixed realtime key, see ## Findings); the code as written is RecordedAsWritten.
- RateLimitControllers.GetDimensionOverview: the exception path, which puts an "error" entry with the exception's message into the map and still answers 200, is left out. With the rule list and the statistics lists as parameters, nothing in the loop can throw.
- ReleaseGroupLocks (DuplicateSubmit.DuplicateSubmitService.ReleaseGroupLocks): models the corrected parse of each entry (first and last "::"), not the code's `split("::", 3)`. The code as written is LockProtocol.ReleaseCombinedAsWritten; see ## Findings.
- ReleaseEach (DuplicateSubmit.DuplicateSubmitService.ReleaseEach): releases the entries of the corrected parse (ParsedCorrected), not those of `split("::", 3)`, which are LockProtocol.ParsedAsWritten; see ## Findings.
- ReleaseLock (DuplicateSubmit.DuplicateSubmitService.ReleaseLock): inherits the corrected group release of ReleaseGroupLocks; see ## Findings.
- RecordRequest (StatsService.RedisRateLimitStatsService.RecordRequest): writes the realtime key with the key prefix, where the code writes it without; the code as written is StatsService.RecordedAsWritten; see ## Findings.
- String length: Dafny strings are sequences of code points, while Java and JavaScript count UTF-16 code units, so a char outside the Basic Multilingual Plane counts once here and twice there. This shifts every length bound and cut for such input: GroupNameGenerator.SafeContent and GroupNameGenerator.GenerateSafeContent (the 20-char cap and the "len" + length fallback), BuiltinProcessors.MaskSensitive and BuiltinProcessors.MaskKept (the 2- and 6-char thresholds), CustomProcessors.UserId (the 20-char cap), GroupNameGenerator.IsValidGroupName (the 100-char cap), Dashboard.UserAgentCell (the 50-char cut) and Text.StrCompare (the TreeMap order, which compares UTF-16 code units).
- The debug status endpoint and the statistics-list endpoints of the controller are left out. They only pass through what the statistics service returns.
- Response shapes: the response maps (HashMap bodies) are records of the fields the code puts in them.
- Other variants: `com/marry/starter`'s duplicate-submit service, `src`'s rate-limit service, the other statistics services and key generators, and the sibling strategies are variants of modelled code and are not part of this model; neither are the optimised statistics services with their random sampling.
- Trivial code: plain models, interfaces and enums without logic are not part of this model, beyond the fields the modelled code reads.

## Findings

| source | as written | input that shows it | evidently intended | confidence | as-written member | corrected member |
|---|---|---|---|---|---|---|
| rate-limit-spring-boot-starter-1.3/src/main/java/io/github/jicklin/starter/ratelimit/service/impl/RedisDuplicateSubmitService.java:676-682 | each entry of the combined lock value is split on "::" with limit 3, taking the second part as the key | key prefix "p", no user, no parameters: the key is "duplicate_submit:p:" and the entry is "default::duplicate_submit:p:::v", which splits into the key "duplicate_submit:p" and the value ":v", so the lock is never released | the name is the text before the first "::" and the lock value the text after the last "::", so every lock taken is released | not executed | DuplicateSubmit.PrefixedLockNotReleasedAsWritten | LockProtocol.ReleaseAfterAcquireCorrected |
| static-web/src/main/resources/static/js/ratelimit.js:848-851 | "**" becomes ".*", and the next rewrite turns that star into "[^/]*" as well | the pattern "/api/**" against "/api/users/123" gives false, while the starter's matcher gives true | "**" matches any run of characters, slashes included | not executed | Dashboard.ApiDoubleStarPreview | Dashboard.ApiDoubleStarIntended |
| rate-limit-spring-boot-starter-1.3/src/main/java/io/github/jicklin/starter/ratelimit/strategy/impl/DefaultUserIdentifierExtractor.java:73 | the client address is element 0 of X-Forwarded-For split on commas | the header "," splits into no element, so the lookup throws | a header with no address falls through to the next source | not executed | UserIdentifier.CommaOnlyForwardedForThrows | UserIdentifier.ClientIp |
| rate-limit-spring-boot-starter/src/main/java/com/marry/ratelimit/starter/util/RedisKeyGenerator.java:33 | the constructor replaces the default prefix only when its argument is blank | the argument "myapp" keeps the prefix "xports" | a non-blank argument replaces the default | not executed | RedisKeys.ConstructorIgnoresPrefixAsWritten | RedisKeys.RedisKeyGenerator.Corrected |
| src/main/java/com/marry/ratelimit/service/impl/RedisRateLimitStatsService.java:319 | the per-minute counters are written under a key without the configured prefix, while the trend reads the prefixed key | one request recorded at t, then the trend of the last minute read at t plus one minute, gives [0] | both sides use the prefixed key, so that trend gives [1] | not executed | StatsService.TrendMissesRecordedAsWritten | StatsService.TrendCountsRecorded |
