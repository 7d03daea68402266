# Verified models of the nurago core packages

This project models the decision-making core of nurago's hardest packages and proves what their
documentation promises. Each module follows one source component.

| files | component |
|---|---|
| `LogAttrs`, `LogSanitize`, `LogStd`, `LogText`, `LogLine`, `LogChain`, `LogKeys`, `LogUtil`, `LogSrv`, `LogBackends` | the two structured-logging backends, `pkg/logutil` and `pkg/logsrv` |
| `NumTrie`, `CountryPhone` | the digit trie and the phone-prefix loader above it |
| `MysqlLock`, `HttpServer` | two concurrent lifecycles as interleaved atomic steps |
| `FilterPaths`, `FieldCache`, `FilterSlice`, `FilterApply` | field-path resolution, its shared cache and in-place filtering |
| `JwtSession` | what a login and its renewals may issue |
| `Base64`, `Phc`, `PhcCanonical`, `Decimal` | the PHC printer and parser |
| `DialOrder` | the order in which resolved addresses are dialed |
| `HttpRetrier` | bounded retries and who closes each response |

How the parts are modelled:

- **Logging.** An attribute is a recursive datatype; a line is an ordered tree of fields. `LogAttrs` says
  once, independently of both backends, which fields a list of attributes and a chain of
  `WithAttrs`/`WithGroup` stand for (`CallerFields`). Each backend is then an imperative model (its handler
  state, its event) proved to write exactly those fields plus the injected trace ID, for every
  configuration, derivation chain and record; `LogBackends.LogBoth` puts the two together. `LogText`
  models the separator defect of slog's JSON writer, `LogLine` says exactly which unfiltered lists make it write an
  unreadable line, `LogChain` shows that through any derivation chain the filter is enough, and `LogKeys` treats the
  same defect in the text handler, where it shows as wrong keys.
- **Trie and phone data.** `NumTrie.Node` is a mutable class whose ghost map is what it stands for; lookups
  are proved against a plain map, and `CountryPhone.Data` against the list of what its dataset lists.
- **Protocols.** `MysqlLock`, `HttpServer` and `FieldCache` are transition systems over any number of threads;
  results hold at every moment of every interleaving. From any such moment a pending call can be driven to its
  return, and in every run, whatever the outcomes, the steps it takes are bounded by the other parties' interference.
- **Filter.** Types, field chains and pointers are datatypes; resolution works on types, walking on values.
  A cache with an arbitrary history sits between the two.
- **Retrier.** Everything outside the retrier (client, policy, clock, context, body) is an arbitrary sequence
  of rounds; `Do` is proved to make the calls those rounds determine and to return their verdict.

Where the code and its comments disagree, the model follows the code. The comment on `unmarshalPHC`
(`pkg/passwordhash/phc.go:46-55`) says that only canonical strings are accepted, so that byte-distinct stored strings
never decode to the same salt and key. Numbers with leading zeros are accepted, and the parser never reads what
stands before the first separator. `PhcCanonical` says exactly which accepted strings are canonical, what the
canonical spelling of any accepted string is, and that two strings denote the same hash exactly when those
spellings agree; the salt and key segments do have one spelling only (`Phc.SaltAndKeyAreCanonical`). Likewise,
dialing in rotation gives each address of the leading family its turn exactly when the 64-bit counter does not wrap
inside the round or the number of addresses divides 2^64 (`DialOrder.EveryLeadAddressGetsItsTurn`).

`{:induction false}` stands on every lemma to which Dafny would otherwise add an induction hypothesis of its own: the
proofs are the ones written out.

`dafny verify dfyconfig.toml` checks the whole project.

## Model

| member | source | states |
|---|---|---|
| LogBackends.LogBoth | pkg/logsrv/handler.go:46-223 | for every common list, derivation chain, record and trace ID, the two backends write the same caller fields in the same order and nesting and agree on injecting the trace ID; without an injection the lines are equal, with one there is exactly one root trace_id; the text of the first parses to its fields |
| LogBackends.TraceIDSuppliedByCaller | pkg/logutil/trace.go:113-154 | the line already has a root trace_id exactly when a common, ungrouped derived or ungrouped record attribute renders one at the root, or the outermost group is named trace_id and something in it renders |
| LogAttrs.TraceIDCount | pkg/logutil/trace.go:113-154 | injecting makes the count of root trace_id fields one when it was zero and changes it never otherwise |
| LogAttrs.RootFieldSources | pkg/logutil/trace.go:313-319 | a root field of a given name after any derivation chain comes from the ungrouped attributes, the ungrouped record or the outermost group, and from nowhere else |
| LogSanitize.RendersIffFields | pkg/logutil/sanitize.go:291-333 | the decision whether an attribute renders holds exactly when the attribute stands for at least one field |
| LogSanitize.SanitizeAttr | pkg/logutil/sanitize.go:227-264 | keep equals attrRenders; a kept result is the normal form, and dirty is reported exactly when it differs from the input |
| LogSanitize.SanitizeAttrs | pkg/logutil/sanitize.go:197-222 | the copy-on-write pass returns the normal form, and reports a change exactly when the result differs from the input |
| LogSanitize.NormAttrsPreserves | pkg/logutil/sanitize.go:197-264 | filtering a list keeps the fields it stands for |
| LogSanitize.NormAttrsIsNormal | pkg/logutil/sanitize.go:197-264 | the result holds no lazy value, no unencodable time and no attribute or group that renders nothing, at any depth |
| LogSanitize.NormalIffUnchanged | pkg/logutil/sanitize.go:197-222 | the lists the filter leaves alone are exactly the normal ones |
| LogSanitize.SecondPassIsIdentity | pkg/logutil/sanitize.go:197-222 | a second pass changes nothing |
| LogSanitize.SkippingIsSafe | pkg/logutil/sanitize.go:161-192 | a record judged not to need filtering differs from its normal form only in zero attributes at its top level, which slog skips itself |
| LogSanitize.SanitizeRecord | pkg/logutil/sanitize.go:115-153 | filtering a record, skipped or not, keeps the fields it stands for |
| LogText.SanitizedTextIsWellFormed | pkg/logutil/sanitize.go:20-36 | on any filtered list, from any buffer, the writer with the separator defect writes what a correct writer would, and the text parses back to the fields the attributes stand for |
| LogChain.FilteredChainIsReadable | pkg/logutil/sanitize.go:20-55 | through any chain of filtered derivations and for any filtered record, behind any built-in fields, the defective handler, which writes attributes ahead and opens groups late, writes a line that parses to exactly the built-in fields and those the chain and record stand for |
| LogText.PrintParses | pkg/logutil/sanitize.go:20-36 | the correct writer's text parses back to its fields |
| LogLine.LineIsReadableIffSound | pkg/logutil/sanitize.go:20-36 | for every attribute list, filtered or not, standing alone, the line parses exactly when in no JSON object a named group with members that elides stands between two attributes that write something, and every time has an encodable year; it then holds the fields slog means to write |
| LogLine.LineBehindFields | pkg/logutil/sanitize.go:20-36 | the same behind fields already written, as the built-in ones of a record: the line parses exactly when, besides, nothing at all is written in the outermost object after such a group, and then holds the earlier fields and those slog means to write |
| LogLine.ElidedLosesSeparatorIfOpened | pkg/logutil/sanitize.go:20-36 | an attribute that elides leaves the text as it was, and loses the separator exactly if a named group with members was opened inside it |
| LogLine.ElidedGroupBreaksTheLine | pkg/logutil/sanitize.go:20-36 | between any attributes that write something, one such group makes the line unreadable |
| LogLine.OneElidedAttribute | pkg/logutil/sanitize.go:20-36 | one eliding attribute among filtered ones: the line is unreadable if it opened a group, and holds the fields of the others if not |
| LogLine.WritersAgreeOnLists | pkg/logutil/sanitize.go:20-36 | off the filter too, the text writer and the field-tree writer agree on what renders and on the fields |
| LogKeys.FilteredKeysAreRight | pkg/logutil/sanitize.go:20-36 | the text handler writes every leaf of a filtered list under the names of its own groups, and leaves its prefix as it was |
| LogKeys.ElidedLeavesItsNames | pkg/logutil/sanitize.go:20-36 | an attribute that elides leaves the names of the groups opened inside it in the prefix |
| LogKeys.NextKeysAfterElided | pkg/logutil/sanitize.go:20-36 | a filtered attribute after an eliding one is written under the latter's group names, so its keys are right exactly if the eliding one opened no group |
| LogKeys.KeysAreRightIffOrderly | pkg/logutil/sanitize.go:20-36 | on every list, filtered or not, the text handler writes every pair under its right key exactly when no pair is written, at any depth, after an eliding attribute that opened a group |
| LogKeys.FilteredChainKeysAreRight | pkg/logutil/sanitize.go:20-55 | through any chain of filtered derivations the text handler writes every leaf under the names of its own groups |
| LogLine.LateTimeBreaksTheLine | pkg/logutil/sanitize.go:33-38 | a time whose year cannot be encoded makes the line unreadable, whatever its key, year and text and whatever stands around it |
| LogStd.SettledStdRecord | pkg/logutil/sanitize.go:16-69 | slog's own handler writes the fields a filtered chain and record stand for |
| LogUtil.RootKeyIffField | pkg/logutil/trace.go:219-253 | for every non-empty key a root field of that name is rendered exactly when the scan sees one or an inlined caller location has a component (function, file or line) of that name |
| LogUtil.DeriveKeepsSummary | pkg/logutil/trace.go:260-307 | WithAttrs and WithGroup keep grouped, traceAttr, traceGroup and traceFilled an exact summary of the history |
| LogUtil.HistoryIsSummarised | pkg/logutil/trace.go:260-319 | the same over every chain of derivations |
| LogUtil.InjectsIffMissing | pkg/logutil/trace.go:113-154 | the handler injects exactly when the caller's fields lack a root trace_id |
| LogUtil.ReplayInjects | pkg/logutil/trace.go:113-154 | replaying the recorded operations from the root handler writes the caller's fields plus the single injected root field |
| LogUtil.LeadInjects | pkg/logutil/trace.go:173-189 | leading the record with the trace ID on an ungrouped handler does the same |
| LogUtil.TraceHandle | pkg/logutil/trace.go:113-154 | handling a record writes the caller's fields, plus the trace ID exactly if they lack it |
| LogUtil.NewUtilHandler | pkg/logutil/config.go:92-160 | the composed handler starts from the filtered common attributes, which stand for the same fields |
| LogUtil.UtilDerive | pkg/logutil/sanitize.go:89-106 | a derivation through the filter carries the same meaning, also when it is swallowed |
| LogUtil.UtilLog | pkg/logutil/config.go:92-160 | building the composed handler, deriving it any number of times and logging writes the caller's fields plus the trace ID if they lack it, as fields and as a text that parses to them, right before the record's own attributes or, under an open group, right after the common ones |
| LogSrv.ResolveAttrRenders | pkg/logsrv/encode.go:90-117 | resolving an attribute, and rejecting the ones that elide, keeps the fields it stands for |
| LogSrv.AddValueEvent | pkg/logsrv/encode.go:128-153 | under a key, a resolved value adds exactly the fields an attribute of that key and value stands for, and reports whether there were any |
| LogSrv.AddAttrEvent | pkg/logsrv/encode.go:65-72 | adds the attribute's fields to the event and reports whether there were any |
| LogSrv.AddGroupEvent | pkg/logsrv/encode.go:158-189 | inlines an empty-key group, nests any other unless nothing in it renders, and reports which |
| LogSrv.AddRootAttrEvent | pkg/logsrv/encode.go:38-59 | as AddAttrEvent, and also reports exactly whether a root trace_id was written |
| LogSrv.ApplyRootAttrs | pkg/logsrv/encode.go:396-469 | baking attributes appends their fields and tells exactly whether one is a root trace_id |
| LogSrv.BuildGroupDict | pkg/logsrv/handler.go:188-223 | the innermost-first dictionaries hold the fields of the open groups and the record; wrote is true exactly if there are any |
| LogSrv.WriteRoot | pkg/logsrv/handler.go:168-182 | writes the record at the root, then the trace ID exactly when neither the baked attributes nor the record hold one |
| LogSrv.SrvHandle | pkg/logsrv/handler.go:46-101 | handling a record writes the caller's fields, plus the trace ID exactly if they lack it |
| LogSrv.SrvWithAttrs | pkg/logsrv/handler.go:107-147 | WithAttrs bakes at the root or merges into the innermost frame, and keeps the handler standing for its history |
| LogSrv.WithGroupCarries | pkg/logsrv/handler.go:151-162 | WithGroup pushes a frame and keeps the handler standing for its history |
| LogSrv.MergeLastRenders | pkg/logsrv/handler.go:107-147 | attributes merged into the innermost frame write what they would have written leading the record |
| LogSrv.PushFrameRenders | pkg/logsrv/handler.go:151-162 | a record under one more frame writes what the group made of it would |
| LogSrv.SrvLog | pkg/logsrv/handler.go:46-223 | building the handler, deriving it any number of times and logging writes the caller's fields plus the trace ID if they lack it |
| NumTrie.Node.constructor | pkg/numtrie/numtrie.go:138-140 | a new trie stands for the empty map |
| NumTrie.Node.Add | pkg/numtrie/numtrie.go:158-184 | stores at the number's digits and changes no other key; true exactly for a new key; a nil value changes nothing |
| NumTrie.Node.Attach | pkg/numtrie/numtrie.go:158-184 | a fresh child hung at a free slot keeps the trie linked, its child counts exact and its map unchanged |
| NumTrie.Node.GetExact | pkg/numtrie/numtrie.go:280-298 | agrees with a map lookup of the number's digits |
| NumTrie.Node.Get | pkg/numtrie/numtrie.go:212-253 | value and status are those of the lookup on the plain map |
| NumTrie.Node.MatchEndsAt | pkg/numtrie/numtrie.go:212-273 | the node where a walk ends determines longest stored prefix, match length and whether a stored key extends it |
| NumTrie.LongestStoredIsLongest | pkg/numtrie/numtrie.go:212-253 | the value looked up is that of a stored prefix and no longer prefix is stored |
| NumTrie.LeafStatusCarriesValue | pkg/numtrie/numtrie.go:212-273 | full and prefix leaf statuses always carry a value, negative ones never do, and a status is negative exactly if there is no digit or the first leads nowhere |
| CountryPhone.UniqueKeepsAll | pkg/countryphone/countryphone.go:276-296 | de-duplication loses no area and repeats none |
| CountryPhone.MergeGeo | pkg/countryphone/countryphone.go:276-296 | the merged list is the de-duplicated concatenation, in order of first occurrence |
| CountryPhone.InsertedHolds | pkg/countryphone/countryphone.go:241-256 | inserting at one prefix adds the area there, once, and alters no other prefix; nothing is stored at the root |
| CountryPhone.Data.InsertPrefix | pkg/countryphone/countryphone.go:241-269 | the trie changes by exactly that insertion |
| CountryPhone.Data.LoadData | pkg/countryphone/countryphone.go:304-374 | whatever the order of countries, the areas stored at each digit path are, each once, exactly those some country lists there |
| CountryPhone.Data.NumberInfo | pkg/countryphone/countryphone.go:187-196 | resolves to the areas listed under the longest listed prefix, and fails exactly when none is listed |
| MysqlLock.StepKeepsInv | pkg/mysqllock/mysqllock.go:326-464 | every step of keep-alive, release calls and handlers keeps the protocol invariant and a published result |
| MysqlLock.RunKeepsInv | pkg/mysqllock/mysqllock.go:326-464 | every reachable state meets the invariant |
| MysqlLock.SafeAtEveryMoment | pkg/mysqllock/mysqllock.go:326-464 | at every moment of every interleaving the connection has at most one user, RELEASE_LOCK has run at most once, done is closed at most once and each loss handler invoked at most once |
| MysqlLock.EveryCallerGetsTheSameResult | pkg/mysqllock/mysqllock.go:326-346 | any two release calls of a run, whenever they return, return the same result |
| MysqlLock.ReleaseBeforeVerdictIsSilent | pkg/mysqllock/mysqllock.go:428-464 | once release has canceled before the verdict is fixed, loss is never notified |
| MysqlLock.PendingCallAdvances | pkg/mysqllock/mysqllock.go:326-464 | in every state some step brings a pending release call closer to its return |
| MysqlLock.NoReleaseIsStuck | pkg/mysqllock/mysqllock.go:326-464 | every run continues to a state where a pending release call, also one made by a loss handler, has returned |
| MysqlLock.ProductiveStepExists | pkg/mysqllock/mysqllock.go:326-464 | while a release is under way a productive step is always possible, also when the release was called from a loss handler |
| MysqlLock.ReleaseIsBounded | pkg/mysqllock/mysqllock.go:326-464 | in every run, with every outcome, a release under way takes fewer than 11 productive steps more than pings are started meanwhile |
| MysqlLock.ResultReleasesCallers | pkg/mysqllock/mysqllock.go:326-352 | once there is a result, the next step of any pending call is its return with that result |
| HttpServer.StepKeepsInv | pkg/httpserver/httpserver.go:220-339 | every step of starts, shutdowns, monitor and serve keeps the invariant; a finished shutdown fixes whether the server ever started |
| HttpServer.WaitGroupStaysBalanced | pkg/httpserver/httpserver.go:220-339 | at every moment the wait-group contribution is 0 or 1 and was decremented at most once, and only if started; done closes, spawns and published errors are at most one |
| HttpServer.ReleasedForever | pkg/httpserver/httpserver.go:276-339 | after any shutdown call has returned the contribution is 0 in every later state, and the monitor can exit |
| HttpServer.PendingShutdownAdvances | pkg/httpserver/httpserver.go:276-313 | in every state some step brings a pending shutdown closer to its return |
| HttpServer.NoShutdownIsStuck | pkg/httpserver/httpserver.go:276-313 | every run continues to a state where a pending shutdown call has returned |
| HttpServer.ProductiveStepExists | pkg/httpserver/httpserver.go:276-313 | while the body of the once is under way a productive step is always possible |
| HttpServer.ShutdownIsBounded | pkg/httpserver/httpserver.go:276-313 | in every run the body of the once takes fewer than 8 productive steps more than other calls take the mutex before it |
| HttpServer.DoneReleasesCallers | pkg/httpserver/httpserver.go:276-313 | once that body has ended, a pending shutdown call returns within two steps of its own, whoever else moves |
| FilterPaths.GetFieldPath | pkg/filter/field_getter.go:58-82 | the loop computes the path of the name-by-name definition, with the same error |
| FilterPaths.WalkFieldPath | pkg/filter/filter.go:650-662 | the loop reads what the path leads to, stopping at a nil pointer |
| FilterPaths.ChainIsSafe | pkg/filter/filter.go:650-662 | a field chain valid on a type never takes a field of a non-struct on a value of that type, and ends in a value of the chain's type |
| FilterPaths.ResolvedPathIsSound | pkg/filter/field_getter.go:58-82 | on every well-typed value the path of a resolved selector is walked without a panic and reads what a name-by-name descent reads |
| FilterPaths.DepthIsNameCount | pkg/filter/field_getter.go:35-55 | the depth limit, counted on separators, is the number of names |
| FilterPaths.FieldGetter.CacheSet | pkg/filter/field_cacher.go:46-62 | called by one goroutine at a time, adds a path only below the ceiling and only once, keeping count and contents exact |
| FieldCache.AnswersAreExact | pkg/filter/field_cacher.go:34-62 | under any interleaving of any number of goroutines and any ceiling, every answer is that of resolution alone |
| FieldCache.OvershootIsBounded | pkg/filter/field_cacher.go:46-62 | the cache outgrows its ceiling by less than the number of stores ever under way at once |
| FilterPaths.FieldGetter.ResolvePath | pkg/filter/field_getter.go:35-55 | the answer is that of resolution alone, whatever has been cached and whether the cache is full |
| FilterPaths.FieldGetter.CompileSelector | pkg/filter/filter.go:505-547 | a selector compiles to the whole element, to a fixed path or, on an interface type, to per-element resolution |
| FilterPaths.FieldGetter.RuleValue | pkg/filter/filter.go:596-642 | the value a compiled rule reads from an element does not depend on the cache |
| FilterPaths.BoxedElementsReadAlike | pkg/filter/filter.go:596-642 | per-element resolution on a boxed object reads what the precompiled path reads on the object itself, by name and without a panic |
| FilterSlice.EvaluateRules | pkg/filter/filter.go:552-576 | computes the verdict, which decides as the rules call for |
| FilterSlice.VerdictIsExact | pkg/filter/filter.go:552-576 | the verdict is yes exactly when every group passes, no exactly when a group that is reached is false throughout, and an error exactly when a rule that is reached fails with it, a rule being reached when all earlier groups passed and all earlier rules of its group were false; a yes or no is that of the AND of ORs |
| FilterSlice.MatchesAreExactly | pkg/filter/filter.go:426-460 | the matches are in order, and are all and only the elements accepted |
| FilterSlice.SelectMatches | pkg/filter/filter.go:426-460 | collects the window of the matches and counts all of them; fails exactly if the matcher fails on some element, with the error of the first such |
| FilterSlice.FilterSliceValue | pkg/filter/filter.go:402-422 | in place, the slice holds exactly the matches in the window, in order; the total counts all; elements past the new end are untouched; an error is that of the first element not decided and leaves everything as it was |
| FilterSlice.FilterByRules | pkg/filter/filter.go:360-367 | what is left in place is exactly the window of the elements satisfying the AND of ORs, in order; it fails exactly when a reached rule fails on some element, with the error of the first such element, and then changes nothing |
| FilterApply.ApplySubset | pkg/filter/filter.go:318-367 | on a slice of a concrete element type it fails exactly when some rule does not compile, before anything is touched; otherwise it neither fails nor panics, and leaves exactly the window of the elements that satisfy the rules as their selectors read name by name |
| FilterApply.CompiledReadsByName | pkg/filter/filter.go:578-673 | on an element of the type it was compiled for, a rule neither fails nor panics and judges the value its selector names |
| FilterApply.CompileRules | pkg/filter/filter.go:481-546 | every rule is compiled, or one does not compile and nothing is returned |
| FilterSlice.Compact | pkg/filter/filter.go:402-422 | moving selected elements forward never reads an element already overwritten |
| FilterSlice.PagesCoverEverything | pkg/filter/filter.go:323-367 | consecutive windows join to a prefix of the matches, and enough of them to all |
| JwtSession.AuthTimeNeverMoves | pkg/jwt/claims.go:148-178 | however often a session is renewed, its tokens carry the login time, to the second, and never expire after login plus cap |
| JwtSession.NothingOutlivesTheCap | pkg/jwt/handlers.go:141-193 | no token descended from a login is accepted at or after login + cap + leeway |
| JwtSession.CapLosesLessThanTwoSeconds | pkg/jwt/claims.go:148-178 | a token limited by the cap lasts to within two seconds of it, despite truncation |
| JwtSession.IssuedTokensAreAcceptedAtOnce | pkg/jwt/token.go:410-453 | under a non-decreasing clock no login or renewal issues a token its own verification rejects at that moment |
| JwtSession.RenewalIsGrantedOnlyInTime | pkg/jwt/handlers.go:141-193 | a renewal is granted only for a token still accepted, near its expiry and within the session's lifetime |
| Base64.EncodeDecodes | pkg/passwordhash/phc.go:36-44 | decoding an encoding gives back the bytes |
| Base64.DecodesOnlyItsEncoding | pkg/passwordhash/phc.go:96-103 | a newline-free text decodes only if it is the encoding of what it decodes to |
| Base64.DecodeIsInjective | pkg/passwordhash/phc.go:56-103 | two newline-free segments with the same bytes are the same segment |
| Base64.NewlinesAreAllThatIsLost | pkg/passwordhash/phc.go:56-60 | two texts decode alike exactly when they differ in newlines only |
| Base64.NewlinesBreakInjectivity | pkg/passwordhash/phc.go:56-60 | a newline put anywhere into any text changes nothing about what it decodes to, hence the newline check |
| Phc.RoundTrip | pkg/passwordhash/phc.go:36-90 | printing then parsing restores a hash exactly when its algorithm name has no separator or newline and its lengths are those of its salt and key; with any other name it is rejected |
| Phc.SaltAndKeyAreCanonical | pkg/passwordhash/phc.go:56-103 | two accepted strings have equal salt and key exactly when they spell both identically |
| Phc.LeadingZeroIsAccepted | pkg/passwordhash/phc.go:108-162 | for every readable hash, a version padded with a zero is a different string accepted as the same hash |
| PhcCanonical.StoredAsPrintedIffCanonical | pkg/passwordhash/phc.go:36-90 | an accepted string is printed back as it was stored exactly when nothing stands before its first separator and none of its four numbers has a needless leading zero |
| PhcCanonical.RoutedAsPrintedIffMinimal | pkg/passwordhash/phc.go:56-90 | of accepted strings that start with a separator, the only ones routed here, those printed back as stored are exactly the ones whose four numbers have no needless leading zero |
| PhcCanonical.PrintedCanonically | pkg/passwordhash/phc.go:36-90 | parsing and printing back any accepted string drops the leading zeros of its numbers and what stood before the first separator, and nothing else |
| PhcCanonical.SameHashIffSameCanonical | pkg/passwordhash/phc.go:46-90 | two accepted strings denote the same hash exactly when their canonical spellings agree |
| PhcCanonical.CanonicalStringsAreUnique | pkg/passwordhash/phc.go:46-90 | two canonical strings that denote the same hash are the same string |
| PhcCanonical.FirstPieceIsNotRead | pkg/passwordhash/phc.go:61-69 | the parser never reads what stands before the first separator |
| DialOrder.CandidatesAreExact | pkg/dnscache/dnscache.go:467-503 | candidates are distinct, every resolved address is represented and every candidate was resolved |
| DialOrder.NewCandidates | pkg/dnscache/dnscache.go:467-480 | the loop computes those candidates |
| DialOrder.FilterByNetwork | pkg/dnscache/dnscache.go:375-402 | on networks ending in 4 or 6 exactly the candidates of that family and the entries that are not addresses are kept, in order; on any other network all are |
| DialOrder.RotateCandidates | pkg/dnscache/dnscache.go:508-522 | the result is the rotation of its input by the offset |
| DialOrder.SplitByFamily | pkg/dnscache/dnscache.go:556-570 | the two lists are the candidates of each family, in order |
| DialOrder.Interleave | pkg/dnscache/dnscache.go:526-540 | the loop computes the interleaving |
| DialOrder.InterleavedPositions | pkg/dnscache/dnscache.go:526-540 | families alternate, the first leading, until the shorter is exhausted; then the longer one's tail follows |
| DialOrder.DialOrderIsPermutation | pkg/dnscache/dnscache.go:340-369 | the dial order is a permutation of the de-duplicated, network-filtered candidates and leads with the first candidate's family |
| DialOrder.FamiliesAreRotated | pkg/dnscache/dnscache.go:340-368 | within each family the dial order is the resolver's, rotated by the offset |
| DialOrder.Cache.OrderCandidates | pkg/dnscache/dnscache.go:340-369 | computes that order and advances the shared counter only when it is consulted |
| DialOrder.RotationIsFair | pkg/dnscache/dnscache.go:405-407 | n consecutive offsets are all different modulo n exactly when the 64-bit counter does not wrap among them or n divides 2^64 |
| DialOrder.DialUsesOffset | pkg/dnscache/dnscache.go:405-407 | the k-th of successive dials uses the k-th offset after the first, modulo 2^64 |
| DialOrder.EveryLeadAddressGetsItsTurn | pkg/dnscache/dnscache.go:340-407 | as many successive dials as the leading family has usable addresses try each of them first exactly under that condition |
| HttpRetrier.Do | pkg/httpretrier/httpretrier.go:182-211 | the run makes exactly the client calls its surroundings determine, at most the configured attempts, and returns their verdict; an error never comes with a response, and with a conforming client it is one or the other; every response with a body is returned open or closed once, never both or neither; no reopened request body is left unsent; retries are reported in order with the right delay |
| HttpRetrier.DoState.Run | pkg/httpretrier/httpretrier.go:281-306 | one attempt either ends the run with its verdict or leaves the loop ready for the next, everything obtained so far closed |
| HttpRetrier.DoState.ReopenBodyForRetry | pkg/httpretrier/httpretrier.go:313-329 | reopens the body only for a retry with GetBody; on failure the response is cleared and the error set |
| HttpRetrier.DoState.CloseAndCheckReplay | pkg/httpretrier/httpretrier.go:335-356 | closes the response once; goes on exactly if the close succeeded and the request can be sent again, and otherwise names which failed |
| HttpRetrier.DoState.DropResponse | pkg/httpretrier/httpretrier.go:361-367 | a response that came with an error is closed once and cleared |
| HttpRetrier.DoState.ScheduleRetry | pkg/httpretrier/httpretrier.go:371-400 | unless the context ended, reports the retry with its delay and sets the timer |
| HttpRetrier.CallsAreDetermined | pkg/httpretrier/httpretrier.go:182-306 | the number of client calls is determined by the outcomes around the run and never exceeds the attempts |
| HttpRetrier.EndAllowsOneMoreCall | pkg/httpretrier/httpretrier.go:182-211 | after the context is over at most the attempt whose timer fired at that moment still runs |
| HttpRetrier.OneOrTheOther | pkg/httpretrier/httpretrier.go:106-111 | an error never comes with a response, whatever the client does; neither comes back exactly when the run ends on a client that gave neither, so with a conforming client it is exactly one of the two |
| HttpRetrier.RefusedReplay | pkg/httpretrier/httpretrier.go:313-356 | a retry is refused for its body only after the first call of a request with a body and no GetBody; a failed reopening happens only with attempts left and a failing GetBody |
| HttpRetrier.DelayIsCappedRequest | pkg/httpretrier/httpretrier.go:405-443 | a Retry-After delay is what the server asked for, cut at the cap, and the 64-bit product never wraps |

## Left out

- slog's encoder and zerolog: modelled as ordered field-tree writers, slog's with the separator defect its caller's comment describes; built-in fields (time, level, message, source), level names, the console format and FormatNone are not part of this model.
- LogBackends.LogBoth: a caller's root attribute named level that holds a slog.Level is written with the syslog name by one backend and with slog's own by the other (`pkg/logutil/level.go:93-97`, disclosed at `pkg/logsrv/logsrv.go:117-121`); both writers are given the same text here, so that difference is not captured.
- User code run during rendering (`Error`, `MarshalJSON`, object marshalers), error-marshal and record hooks, and panic recovery: the packages disclose that the backends may differ there. A lazy value resolves to one fixed value, and slog's limit on chained LogValue calls is not modelled.
- A `ReplaceAttr` callback that deletes attributes below the filter: the filter's own comment excludes it.
- The trace ID function: it yields one text per record, given as a parameter.
- Logging slices that share a backing array (`appendTraceOp`): sequences are values, so aliasing between sibling handlers is not captured.
- NumTrie.Node.Add: values are stored by value, so identity of the stored pointer is not captured; the ten child slots are a sequence field of the node.
- Phone numbers' `Type`, which depends on the order countries are loaded in, and the enumerations of types: no claim is made.
- CountryPhone.Data.NumberInfo: the copy handed to the caller is a value, so that callers cannot alter the trie is not stated.
- mysqllock `Acquire`, `getLockedConn` and `bestEffortRelease`, their timeouts and error texts; a handler that panics; a keep-alive ping is assumed to return.
- net/http's own shutdown, listeners and routes: `Server.Shutdown` is one step that returns.
- filter: the evaluators, regular expressions and numeric comparison are an arbitrary function of the value read; rule-count and length limits, JSON and URL parsing are left out. Chains of promoted fields that `reflect` reports are assumed valid.
- jwt: signatures, headers, issuer and audience checks and the HTTP layer; times are exact integers, and decoding a whole number of seconds through float64 is taken as exact below 2^53.
- passwordhash: Argon2 itself and the older JSON form of a stored hash.
- dnscache: the cache, resolver and dial loop; parsing an address is an arbitrary function. Concurrent dials take their offsets one after the other.
- httpretrier: the backoff schedule and random numbers are arbitrary inputs, since they use floating point; the parsing of the Retry-After text into seconds or a date, and the ready-made policies, which are simple tables.
- FilterPaths.FieldGetter.CacheSet: sequential; concurrent stores, which can overshoot the ceiling, are the subject of FieldCache.
- MysqlLock.ReleaseIsBounded: bounds a run by its pings; that pings end, and that threads keep being scheduled, is assumed. HttpServer.ShutdownIsBounded likewise leaves it to the mutex to let a waiter through.
- The remaining packages (clients, configuration, encoding, bit maps, paging, country codes): they would add only easy members.
