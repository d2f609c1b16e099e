# A verified model of the algorithms and protocols in `Commons`

The `Commons` directory of the repository holds, among many wrappers, a handful of self-contained
algorithms and concurrent protocols. This Dafny project models them and proves what they are for:

- **FastJsonParser** (`JsonScan`, `JsonTokens`, `JsonIndex`, `JsonGrammar`, `JsonLax`, `JsonCursor`, `JsonParser`,
  `JsonEscapes`, `JsonLanguage`, `JsonAcceptance`): the SIMD scanners refine the scalar ones; the container with three
  storage modes and the packed-key index refine a map lookup; the parser with its explicit frame stack computes
  exactly what a recursive-descent parser computes (events, end position, errors), whatever the SIMD level; whatever
  the strict parser accepts, the lax parser accepts with the same events. Every escaped string is read back as the bytes it
  stands for, the number tokens are exactly the numbers of the grammar, and the texts the strict parser accepts are
  described exactly, by a grammar with white space and all, together with the events each of them gives.
- **JsonFormatter** (`JsonFormatter`, `JsonRoundTrip`, `JsonPrinting`): every printable document has a call
  sequence that prints it, a call is refused exactly when the container being built cannot take it, and the text
  printed by any well-nested call sequence, with names and strings free of quote and backslash, is read back by the
  parser, in both modes, as exactly the values that were added.
- **AsyncCache** (`AsyncCache`, `AsyncCacheProtocol`, `AsyncCacheAnswers`, `AsyncCacheProgress`): the code of each
  lock region, and a machine over all interleavings of those regions with accounting, single flight, refresh,
  freshness and delivery invariants; every value a caller receives is the one its own key was loaded or cached with, and no caller is
  ever stuck.
- **OrderedAsyncTaskWindow, ActivityGate, AsyncMutex, FastScheduler** (`OrderedWindow`, `ActivityGate`,
  `ActivityGateProgress`, `AsyncMutex`, `FastScheduler`, `FastSchedulerProgress`): step machines with invariants over
  every run, and proofs that nobody gets stuck.
- **External user identifiers** (`Positional`, `Base32`, `ExternalUserIds`): base 32 against its bit-level
  definition, its round trip, and the exact condition for the round trip of the whole codec.
- **IntervalSet and normalize_path** (`IntervalSets`, `PathManip`).

Code that changes state is modelled by classes and methods with loops, each proved against a specification
function or predicate; whole runs of concurrent code are sequences of atomic steps, and an `EveryRun` lemma
states the invariant of every reachable state. Characters of JSON texts are bytes; integers are unbounded
except where a wrap-around matters and is written out (the cache's size counter, the base-32 buffer).
A run is a sequence of steps in which a step that is not enabled changes nothing, or, for the cache, makes
the run undefined (`None`).

Where the code falls short of the expected property, the code is kept and the exact condition is proved:

- `AsyncCache.InsertKeepsAccountsIff`, and over runs `AsyncCacheProtocol.AccountedThroughoutIff`: the accounts
  survive exactly when the size counter plus the new size does not wrap at 2^64 (`WrapAroundExample` shows the
  failure).
- `AsyncMutex.DestroyKeepsIff`, and over runs `AsyncMutex.ThroughoutIff`: destroying an awaiter is safe exactly
  when its grant is not in transit (`LostGrantExample` shows the lost lock).
- `ExternalUserIds.RoundTripIff`: the list comes back exactly when no identifier is empty and none but the
  first starts with a comma (`LeadingCommaExample`, `EmptyLastExample`).
- `JsonIndex.IndexAgreement`: the packed lookup differs from the full one exactly for a short member name shadowed
  by an earlier key equal up to trailing NULs (`TrailingNulExample`).
- `JsonAcceptance.AcceptedIff`: what the strict parser accepts depends on the registered processors, since a value
  that is skipped may hold neither a comma before a closing bracket nor white space in an empty container, and a
  value that is parsed may (`SkippedBlankExample`); the texts accepted whatever is registered are those accepted
  with nothing registered.
- `FastScheduler.QuantizeBounds`: rounding adds less than a millisecond exactly when no negative quotient is
  truncated (`NegativeDeadlineExample`).
- `IntervalSets.ContainsExactIff` and `IntervalSets.CrossIsIntersectionIff`: the exact conditions under which
  membership and intersection are right on sets that were not normalised (`HiddenExample`, `OverrunExample`).
- `PathManip.StaysRelativeIff`: a relative path stays relative exactly when its first component is a name that the
  rest never pops, or its names and ".." balance (`LeadingSlashExample`).
- `OrderedWindow.StartIsSafeIff`: starting the next task is safe exactly when the window is not full
  (`OverfullExample`), so the machine starts tasks only then, as `full()` is there for.

## Model

| member | source | states |
|---|---|---|
| `JsonScan.MaskIsZero` | Commons/FastJsonParserSimdSse2.cpp:7-40 | the move mask is zero exactly when no lane is set |
| `JsonScan.CtzIsFirstLane` | Commons/FastJsonParserSimdSse2.cpp:7-40 | counting trailing zeros of a non-zero mask gives the first set lane |
| `JsonScan.MaskForms` | Commons/FastJsonParserSimdAvx512.cpp:7-134 | or-ing the compare masks (AVX-512) equals the mask of the or-ed vectors (SSE2, AVX2) |
| `JsonScan.ComplementMask` | Commons/FastJsonParserSimdAvx512.cpp:7-37 | the complement of the space mask within the chunk width is the mask of the non-spaces |
| `JsonScan.ChunkMaskFinds` | Commons/FastJsonParserSimdAvx2.cpp:7-146 | for every class and chunk, a zero mask means no byte of the class, otherwise trailing zeros is the first such byte |
| `JsonScan.ScanChunks` | Commons/FastJsonParserSimdSse2.cpp:7-142 | the chunk loop stops at the scalar result or leaves less than a chunk, without passing a match |
| `JsonScan.FindScalar` | Commons/FastJsonParserSimd.hpp:40-95 | the scalar loop returns the first byte of the class |
| `JsonScan.FindSse2` | Commons/FastJsonParserSimdSse2.cpp:7-142 | same index as the scalar finder, for every class and buffer |
| `JsonScan.FindAvx2` | Commons/FastJsonParserSimdAvx2.cpp:7-146 | same index as the scalar finder, for every class and buffer |
| `JsonScan.FindAvx512bw` | Commons/FastJsonParserSimdAvx512.cpp:7-134 | same index as the scalar finder, for every class and buffer |
| `JsonScan.Find` | Commons/FastJsonParser.cpp:383-590 | the dispatch by level and remaining size returns the scalar result at every level |
| `JsonIndex.MapHelper.Emplace` | Commons/FastJsonParser.cpp:57-111 | in every mode and across mode changes the contents gain the pair unless the key was there |
| `JsonIndex.MapHelper.EmplaceSorted` | Commons/FastJsonParser.cpp:82-95 | insertion into the sorted vector keeps order and the first value of a key |
| `JsonIndex.MapHelper.MoveToHash` | Commons/FastJsonParser.cpp:97-104 | moving from the vector to the hash table keeps the contents |
| `JsonIndex.MapHelper.Lookup` | Commons/FastJsonParser.cpp:113-159 | find is the lookup in the contents, in all three modes |
| `JsonIndex.MapHelper.LowerBound` | Commons/FastJsonParser.cpp:167-191 | binary search returns the boundary of the keys below the given one |
| `JsonIndex.FirstWinsAppend` | Commons/FastJsonParser.cpp:57-111 | a run of insertions stands for the map in which the first value of a key stays |
| `JsonIndex.SubProcessors.constructor` | Commons/FastJsonParser.cpp:1159-1175 | the two child indexes hold the first processor of each full key and of each packed key |
| `JsonIndex.SubProcessors.FindSubProcessor` | Commons/FastJsonParser.cpp:1177-1214 | lookup through the packed or the full index, as chosen by length and escapes |
| `JsonIndex.PackedEqual` | Commons/FastJsonParser.cpp:1082-1137 | two byte strings pack to the same number exactly when they differ only in trailing NULs |
| `JsonIndex.ShortLookup` | Commons/FastJsonParser.cpp:1177-1214 | the packed lookup finds the first short child equal to the name up to trailing NULs, whatever the registered keys |
| `JsonIndex.FullLookup` | Commons/FastJsonParser.cpp:1177-1214 | the full lookup finds the first child with exactly the name |
| `JsonIndex.IndexAgreement` | Commons/FastJsonParser.cpp:1082-1214 | the two lookups differ exactly for an unescaped short name shadowed by an earlier key equal up to trailing NULs; never for NUL-free keys and names |
| `JsonIndex.TrailingNulExample` | Commons/FastJsonParser.cpp:1082-1214 | the name "a" followed by NUL finds the child "a", which the full lookup does not |
| `JsonTokens.TailEndsLikeSkip` | Commons/FastJsonParser.cpp:1732-1835 | unescaping and skipping a string end at the same place or fail with the same error at the same place |
| `JsonTokens.ParseEndsLikeSkip` | Commons/FastJsonParser.cpp:1378-1436 | so do parse_string and skip_string |
| `JsonEscapes.EscapedReads` | Commons/FastJsonParser.cpp:1732-1806 | unescaping the escaped form of any byte string, with two-character and \u escapes, gives the string back |
| `JsonEscapes.EscapedToken` | Commons/FastJsonParser.cpp:1378-1408 | the same for the whole token: value, escape flag and end |
| `JsonEscapes.StoredIsUtf8` | Commons/FastJsonParser.cpp:1837-1885 | every \u escape, in any mixture of letter cases, is stored as bytes that a UTF-8 decoder (section 3 of RFC 3629) reads as its code unit |
| `JsonEscapes.FormReads` | Commons/FastJsonParser.cpp:1553-1620 | every number written with sign, digits, point and exponent is one token, a float exactly with point or exponent |
| `JsonEscapes.NumberIff` | Commons/FastJsonParser.cpp:1553-1682 | the number tokens are exactly the texts of that form |
| `JsonLanguage.AcceptedIsInLanguage` | Commons/FastJsonParser.cpp:2181-2323 | whatever the strict parser accepts is one well-formed object, to the last byte, up to a comma left before a closing bracket, and tight where no processor is registered |
| `JsonLanguage.MembersIs` | Commons/FastJsonParser.cpp:2233-2273 | a member list that is accepted is spelled as the grammar says, parsed and skipped members alike |
| `JsonLanguage.SkippedValueIs` | Commons/FastJsonParser.cpp:1981-2036 | a value skipped strictly is well formed and tight: no comma left over, no blank in an empty container |
| `JsonLanguage.StringIs` | Commons/FastJsonParser.cpp:1411-1436 | a string accepted has only plain bytes and proper escapes before its closing quote |
| `JsonLanguage.TokenReads` | Commons/FastJsonParser.cpp:1378-1408 | every proper string body is one token: the bytes it stands for, escape flag and end |
| `JsonAcceptance.ValueSkipped` | Commons/FastJsonParser.cpp:1981-2036 | every tight value is skipped strictly to its end |
| `JsonAcceptance.ValueRead` | Commons/FastJsonParser.cpp:2038-2176 | every well-formed value that fits the registered processors is read to its end with its own values as events |
| `JsonAcceptance.TextReads` | Commons/FastJsonParser.cpp:2181-2323 | every fitting text, white space included, is accepted in both modes, and what is reported is what is written in it |
| `JsonAcceptance.AcceptedIff` | Commons/FastJsonParser.cpp:2181-2323 | for every text and processor tree: accepted strictly exactly when it is a text of the grammar that is tight below every name without a processor |
| `JsonAcceptance.BlindIsStrictest` | Commons/FastJsonParser.cpp:2251-2270 | a text accepted with nothing registered is accepted whatever is registered |
| `JsonAcceptance.SkippedBlankExample` | Commons/FastJsonParser.cpp:1898-1913 | an empty object with a blank inside is refused when skipped and accepted when a processor is registered for it |
| `JsonLax.RoughStringIsEscapeScan` | Commons/FastJsonParser.cpp:1455-1482 | finding a quote by backslash parity is the left-to-right escape-aware scan |
| `JsonLax.StrictStringIsRough` | Commons/FastJsonParser.cpp:1411-1482 | a string the strict skip accepts ends at the same place for the rough skip |
| `JsonLax.RoughPassesValue` | Commons/FastJsonParser.cpp:1500-1551 | the bracket counter passes over any strictly valid value without changing its depths |
| `JsonLax.RoughClosesObject` | Commons/FastJsonParser.cpp:1887-1936 | over a strictly valid object body the counter ends exactly at its closing brace, one object level lower |
| `JsonLax.RoughClosesArray` | Commons/FastJsonParser.cpp:1938-1979 | likewise for arrays |
| `JsonLax.RoughIsBalance` | Commons/FastJsonParser.cpp:1500-1551 | on every text, valid or not, the rough skip of a container ends exactly where a byte-by-byte walk over brackets and strings finds none open |
| `JsonLax.LaxScalarEnds` | Commons/FastJsonParser.cpp:1447-1453 | any other unquoted value is passed over laxly up to the next comma or closing bracket |
| `JsonLax.StrictSkipIsLax` | Commons/FastJsonParser.cpp:1981-2036 | a value skipped strictly and followed by a comma or brace is skipped laxly to the same following token |
| `JsonLax.StrictImpliesLax` | Commons/FastJsonParser.cpp:2251-2270 | for every text and processor tree, strict acceptance implies lax acceptance with equal events and end |
| `JsonCursor.Cursor.SkipSpaces` | Commons/FastJsonParser.cpp:1351-1360 | moves to the first non-space |
| `JsonCursor.Cursor.ConsumeLiteral` | Commons/FastJsonParser.cpp:1362-1376 | accepts the word only before a delimiter or the end |
| `JsonCursor.Cursor.ParseString` | Commons/FastJsonParser.cpp:1378-1408 | follows the string token specification: value, escape flag, end, errors |
| `JsonCursor.Cursor.UnescapeOne` | Commons/FastJsonParser.cpp:1745-1760 | one turn writes one character or escape, ends at the quote or fails, as the token specification continues, and keeps the rest of the text within the buffer |
| `JsonCursor.Cursor.ParseStringTail` | Commons/FastJsonParser.cpp:1732-1763 | in-place unescaping gives the specified value and never overruns the buffer sized by the rest of the text |
| `JsonCursor.Cursor.AppendEscape` | Commons/FastJsonParser.cpp:1765-1885 | writes exactly the bytes of the escape and keeps the remaining text within the buffer |
| `JsonCursor.Cursor.SkipString` | Commons/FastJsonParser.cpp:1411-1436 | follows the strict string end specification |
| `JsonCursor.Cursor.SkipStringRoughAfterQuote` | Commons/FastJsonParser.cpp:1455-1482 | the loop over quotes follows the parity specification |
| `JsonCursor.Cursor.SkipToBracket` | Commons/FastJsonParser.cpp:1511-1547 | one turn finds the next bracket or string, and what remains is the rough skip at the new depths |
| `JsonCursor.Cursor.SkipCompoundRough` | Commons/FastJsonParser.cpp:1500-1551 | the two-counter loop follows the rough compound specification |
| `JsonCursor.Cursor.ParseNumber` | Commons/FastJsonParser.cpp:1553-1682 | follows the number token specification, float flag and delimiter check included |
| `JsonParser.Parser.SkipObject` | Commons/FastJsonParser.cpp:1887-1936 | skips an object as specified, in the mode chosen |
| `JsonParser.Parser.SkipArray` | Commons/FastJsonParser.cpp:1938-1979 | skips an array as specified, in the mode chosen |
| `JsonParser.Parser.SkipValue` | Commons/FastJsonParser.cpp:1981-2036 | skips any value as specified, in the mode chosen |
| `JsonParser.Parser.FindChild` | Commons/FastJsonParser.cpp:2260-2261 | the name is looked up in the node's two indexes |
| `JsonParser.ResumePop` | Commons/FastJsonParser.cpp:2191-2245 | popping a finished frame leaves the meaning of the rest of the parse unchanged |
| `JsonParser.ResumeValue` | Commons/FastJsonParser.cpp:2248-2282 | a value read under a frame continues at that frame's delimiter |
| `JsonParser.Parser.ParseValueIterative` | Commons/FastJsonParser.cpp:2038-2176 | reads a value or pushes a frame, delivering the reference parser's events and consuming input |
| `JsonParser.Parser.Turn` | Commons/FastJsonParser.cpp:2191-2285 | one loop turn consumes input or fails, and what remains is the recursive parse of the new stack |
| `JsonParser.Parser.ParseIterative` | Commons/FastJsonParser.cpp:2178-2285 | the frame-stack loop gives the recursive-descent result: events in order, position, error |
| `JsonParser.ParseText` | Commons/FastJsonParser.cpp:2287-2323 | the whole parse equals the recursive-descent document, the same for every SIMD level |
| `JsonFormatter.JsonObject.AddNamed` | Commons/JsonFormatter.hpp:239-309 | throws exactly with an open child or in an array, else appends comma, name and value |
| `JsonFormatter.JsonObject.AddElement` | Commons/JsonFormatter.hpp:260-300 | throws exactly with an open child, in an object or for a second element type, else appends |
| `JsonFormatter.JsonObject.Child` | Commons/JsonFormatter.hpp:200-213 | opens the bracket and counts one more open child in the parent |
| `JsonFormatter.JsonObject.Close` | Commons/JsonFormatter.hpp:226-237 | closes the bracket matching the type and releases the parent |
| `JsonFormatter.RunNested` | Commons/JsonFormatter.hpp:200-258 | in every call sequence that does not throw, each open object but the innermost has exactly one open child |
| `JsonFormatter.Perform` | Commons/JsonFormatter.hpp:370-542 | calls on the real objects follow the state machine of call sequences, failures included |
| `JsonFormatter.Play` | Commons/JsonFormatter.hpp:200-542 | a whole sequence of calls prints the machine's text |
| `JsonPrinting.EveryDocumentPrints` | Commons/JsonFormatter.hpp:370-542 | every object of raw strings, numbers, flags, objects and arrays of one kind has calls that print exactly its rendering |
| `JsonPrinting.ThrowsIff` | Commons/JsonFormatter.hpp:239-289 | after an accepted sequence a call throws exactly when nothing is open, it does not suit the kind of container being built, or the array holds another kind of element |
| `JsonRoundTrip.PrintedIsRendered` | Commons/JsonFormatter.hpp:200-309 | the text of a complete call sequence is the rendering of the tree of values it added |
| `JsonRoundTrip.ValueReads` | Commons/FastJsonParser.cpp:2038-2176 | every rendered value is parsed to its events and skipped strictly to the same end |
| `JsonRoundTrip.MembersRead` | Commons/FastJsonParser.cpp:2178-2285 | rendered members are read in order, up to the closing brace |
| `JsonRoundTrip.ItemsRead` | Commons/FastJsonParser.cpp:2178-2285 | rendered array elements are read in order, up to the closing bracket |
| `JsonRoundTrip.IntIsNumber` | Commons/JsonFormatter.hpp:333-345 | the decimal text of every integer is a number, and not a float |
| `JsonRoundTrip.DocumentReads` | Commons/FastJsonParser.cpp:2181-2323 | every object text with null, flags, numbers in any form, and strings and names raw or escaped is accepted in both modes and yields exactly its values |
| `JsonRoundTrip.RoundTrip` | Commons/JsonFormatter.hpp:370-542 | for names and strings without quote or backslash and numbers in the parser's notation, printed text is accepted in both modes and yields exactly the added values, in order, for every processor tree |
| `AsyncCache.Cache.TouchI` | Commons/AsyncCache.hpp:667-678 | moves the key to the end of the LRU list in bounded mode |
| `AsyncCache.Cache.EraseI` | Commons/AsyncCache.hpp:680-699 | removes entry, LRU position and size |
| `AsyncCache.Cache.InsertI` | Commons/AsyncCache.hpp:701-746 | the eviction loop and insertion compute the specified state, wrap-around included |
| `AsyncCache.Cache.LookupShared` | Commons/AsyncCache.hpp:523-553 | the lookup under the shared lock |
| `AsyncCache.Cache.LookupUnique` | Commons/AsyncCache.hpp:555-584 | the lookup under the unique lock: expiry, refresh claim, erasure |
| `AsyncCache.Cache.Enqueue` | Commons/AsyncCache.hpp:586-626 | joins or starts a load, or answers from an entry that appeared meanwhile |
| `AsyncCache.Cache.FinishLoad` | Commons/AsyncCache.hpp:627-665 | stores the result and takes all waiting callbacks |
| `AsyncCache.Cache.FinishRefresh` | Commons/AsyncCache.hpp:795-823 | replaces the entry only while it still holds the refreshed holder |
| `AsyncCache.EraseKeeps` | Commons/AsyncCache.hpp:680-699 | erasing keeps the accounts exact |
| `AsyncCache.TouchKeeps` | Commons/AsyncCache.hpp:667-678 | touching keeps the accounts exact |
| `AsyncCache.ExcessIsShortest` | Commons/AsyncCache.hpp:723-741 | the number of evictions is the least that makes room, if any does |
| `AsyncCache.EvictRemovesPrefix` | Commons/AsyncCache.hpp:723-741 | the loop removes exactly that prefix of the LRU list |
| `AsyncCache.InsertEvictsShortestPrefix` | Commons/AsyncCache.hpp:701-746 | an insertion that fits keeps everything but the shortest necessary LRU prefix and puts the key last |
| `AsyncCache.InsertKeepsAccountsIff` | Commons/AsyncCache.hpp:701-746 | LRU list, keys, size sum and bound stay consistent exactly when the size addition does not wrap |
| `AsyncCache.WrapAroundExample` | Commons/AsyncCache.hpp:724-724 | a size that wraps the counter breaks the accounts |
| `AsyncCache.HitIff` | Commons/AsyncCache.hpp:523-625 | the lookups and the enqueueing answer exactly for entries within their keep time, the shared one unless a refresh is due |
| `AsyncCache.HitIsMostRecent` | Commons/AsyncCache.hpp:541-580 | a hit makes its key the most recent one |
| `AsyncCache.RecentIsEvictedLast` | Commons/AsyncCache.hpp:723-741 | the most recent key is evicted only when everything is |
| `AsyncCache.CompletionStores` | Commons/AsyncCache.hpp:627-665 | a load waited for, or a refresh of the current holder, stores the new holder as the most recent entry when it fits |
| `AsyncCache.ExpiredIsTakenOut` | Commons/AsyncCache.hpp:563-625 | an expired entry is taken out alone, its holder goes to the load, and the caller is parked last |
| `AsyncCache.FailureKeepsEntries` | Commons/AsyncCache.hpp:795-823 | a failed load or refresh loses no entry, and the failed refresh clears the flag |
| `AsyncCache.UnlimitedStores` | Commons/AsyncCache.hpp:716-720 | a cache without a bound stores every holder and keeps all others |
| `AsyncCacheProtocol.AccountingStepIff` | Commons/AsyncCache.hpp:523-759 | a step of any interleaving keeps the LRU list, entries and size consistent and bounded exactly when its store does not wrap the counter |
| `AsyncCacheProtocol.AccountedThroughoutIff` | Commons/AsyncCache.hpp:523-759 | the accounts are exact in every state of a run exactly when no step of it wraps the counter |
| `AsyncCacheProtocol.SingleFlightStep` | Commons/AsyncCache.hpp:462-521 | every step keeps: a pending record exists exactly while one load for the key is outstanding |
| `AsyncCacheProtocol.RefreshStep` | Commons/AsyncCache.hpp:761-823 | every step keeps: the update flag is set exactly while one refresh of the current holder is in flight |
| `AsyncCacheProtocol.FreshHitsStep` | Commons/AsyncCache.hpp:523-625 | every step keeps: no answer from the cache is past its keep time |
| `AsyncCacheProtocol.ConservedStep` | Commons/AsyncCache.hpp:586-665 | every step keeps each issued callback in exactly one place, at most once delivered, never lost |
| `AsyncCacheProtocol.EveryRun` | Commons/AsyncCache.hpp:462-823 | single flight, refresh flags, freshness and delivery in every state of every interleaving, whatever the sizes, and the accounts while nothing wraps |
| `AsyncCacheProtocol.DueHitRefreshes` | Commons/AsyncCache.hpp:535-581 | a lookup of a holder that is due but not expired is answered and starts a refresh unless one is in flight |
| `AsyncCacheProtocol.RefreshIsCurrentOrGone` | Commons/AsyncCache.hpp:761-823 | a refresh in flight is for the flagged current holder or for one that is gone |
| `AsyncCacheProtocol.LateRefreshIsIgnored` | Commons/AsyncCache.hpp:795-823 | a replaced or evicted holder is gone in every continuation, also while its replacement is refreshed, and a refresh completed for it changes nothing |
| `AsyncCacheProtocol.AllAnsweredAtRest` | Commons/AsyncCache.hpp:462-521 | when nothing is outstanding, every issued callback was delivered exactly once |
| `AsyncCacheAnswers.DeliveredIsRight` | Commons/AsyncCache.hpp:462-521 | over every run, an answer delivered is the result of the load of the caller's key it was parked behind, of its own fetch, or the holder its key had when it looked |
| `AsyncCacheAnswers.EveryAnswerIsSourced` | Commons/AsyncCache.hpp:462-665 | the same for answers on their way, with callers parked only behind their own key |
| `AsyncCacheAnswers.LoadSourced` | Commons/AsyncCache.hpp:627-665 | a completed load gives its result to exactly the callbacks parked behind it |
| `AsyncCacheAnswers.StartedOnce` | Commons/AsyncCache.hpp:462-521 | a callback starts once, so its key is determined |
| `AsyncCacheProgress.SomebodyMoves` | Commons/AsyncCache.hpp:462-665 | for a callback not delivered, some step of a call, load or delivery under way is enabled and brings it closer |
| `AsyncCacheProgress.EveryCallbackCanBeAnswered` | Commons/AsyncCache.hpp:462-665 | in every reachable state every callback is delivered or at most five such steps from it |
| `OrderedWindow.TaskWindow.AdvanceCommitted` | Commons/OrderedAsyncTaskWindow.cpp:72-76 | the commit loop over the ring computes the specified advance |
| `OrderedWindow.TaskWindow.StartTask` | Commons/OrderedAsyncTaskWindow.cpp:47-53 | start updates the counters |
| `OrderedWindow.TaskWindow.CompleteTask` | Commons/OrderedAsyncTaskWindow.cpp:56-86 | a completion updates ring, counters and failure flag and notifies by the equality test |
| `OrderedWindow.TaskWindow.IsFull` | Commons/OrderedAsyncTaskWindow.cpp:89-93 | whether as many sequences are uncommitted as the window holds |
| `OrderedWindow.CommitAdvances` | Commons/OrderedAsyncTaskWindow.cpp:69-77 | the loop takes `committed` to the first sequence not successfully completed, clearing only its own slots |
| `OrderedWindow.StepKeeps` | Commons/OrderedAsyncTaskWindow.cpp:47-120 | each start, completion and wait keeps the invariant |
| `OrderedWindow.EveryRun` | Commons/OrderedAsyncTaskWindow.cpp:47-120 | for every completion order: `committed` is the first unfinished sequence, slots never alias, counters are exact |
| `OrderedWindow.FailureHolds` | Commons/OrderedAsyncTaskWindow.cpp:61-77 | `committed` never passes a failed sequence |
| `OrderedWindow.DrainedIsCommitted` | Commons/OrderedAsyncTaskWindow.cpp:115-120 | nothing in flight and no failure gives `committed` = `started` |
| `OrderedWindow.CompletionNotifies` | Commons/OrderedAsyncTaskWindow.cpp:79-119 | with one waiter, every completion that makes its condition true notifies, despite the equality test |
| `OrderedWindow.CounterCounts` | Commons/OrderedAsyncTaskWindow.cpp:79-112 | the counter is the number of completions since a progress wait last returned |
| `OrderedWindow.ReturnMeansProgress` | Commons/OrderedAsyncTaskWindow.cpp:95-113 | a progress wait returns only with nothing in flight or, without a failure, after the given percentage of the window has completed since the last return |
| `OrderedWindow.ReturnIff` | Commons/OrderedAsyncTaskWindow.cpp:95-113 | looking again, a waiter returns exactly with nothing in flight or, waiting for progress without a failure, after enough completions |
| `OrderedWindow.DrainMeansEmpty` | Commons/OrderedAsyncTaskWindow.cpp:115-120 | a drain returns only with nothing in flight |
| `OrderedWindow.StartIsSafeIff` | Commons/OrderedAsyncTaskWindow.cpp:47-93 | in every reachable state, starting the next sequence keeps `committed` at the first unfinished one exactly when the window is not full |
| `OrderedWindow.FullBreaks` | Commons/OrderedAsyncTaskWindow.cpp:69-93 | started in any full window, a task that completes at once moves `committed` past one that has not succeeded |
| `OrderedWindow.OverfullExample` | Commons/OrderedAsyncTaskWindow.cpp:71-93 | the smallest case: one slot, two tasks |
| `ActivityGate.StepKeeps` | Commons/ActivityGate.cpp:39-105 | each atomic step of enter, leave, wait and close keeps counters, lock ownership and the wake-up promise |
| `ActivityGate.EveryRun` | Commons/ActivityGate.cpp:39-105 | the invariant in every state of every run of any number of threads |
| `ActivityGate.ClosedIssuesNothing` | Commons/ActivityGate.cpp:39-55 | after closing, no step issues a guard |
| `ActivityGate.ClosedAndDrained` | Commons/ActivityGate.cpp:57-86 | closed with `running_` zero: no guard is live, and none is in any continuation |
| `ActivityGate.SleeperIsWoken` | Commons/ActivityGate.cpp:57-105 | a thread asleep while nothing runs has a leaver on its way that in every continuation does not turn back before a broadcast wakes the thread |
| `ActivityGate.ReturnIsQuiet` | Commons/ActivityGate.cpp:57-67 | a thread that leaves its wait does so after a moment, since it began to wait, with no guard live; if the gate was closed then, none is live in any continuation |
| `ActivityGate.EnterIff` | Commons/ActivityGate.cpp:39-55 | a newcomer is let in exactly when the gate is open before and after it is counted |
| `ActivityGateProgress.SomebodyMoves` | Commons/ActivityGate.cpp:39-105 | no deadlock: while a thread is under way, a thread can continue or drop its guard |
| `ActivityGateProgress.StepDescends` | Commons/ActivityGate.cpp:39-105 | every such step brings the threads closer to rest, spurious wake-ups aside |
| `ActivityGateProgress.ComesToRest` | Commons/ActivityGate.cpp:39-105 | from every reachable state, if no thread comes anew, every thread comes to its end, every waiter included, with both counters zero |
| `AsyncMutex.HandOffLock.TryLockOrSuspend` | Commons/AsyncMutex.cpp:110-135 | locks or appends the waiter |
| `AsyncMutex.HandOffLock.CancelWaiter` | Commons/AsyncMutex.cpp:137-146 | unlinks exactly the given waiter, if linked |
| `AsyncMutex.HandOffLock.Release` | Commons/AsyncMutex.cpp:148-168 | hands over to the oldest waiter or unlocks |
| `AsyncMutex.DestroyKeepsIff` | Commons/AsyncMutex.cpp:59-62 | destroying an awaiter keeps the lock's invariant exactly when its grant is not in transit |
| `AsyncMutex.StepKeeps` | Commons/AsyncMutex.cpp:40-184 | every step keeps exclusion, order, freshness and the wake-up promise to blocked threads |
| `AsyncMutex.EveryRun` | Commons/AsyncMutex.cpp:100-184 | locked means exactly one guard or grant, unlocked means an empty queue, grants in order, no lost wake-up |
| `AsyncMutex.ThroughoutIff` | Commons/AsyncMutex.cpp:55-184 | the invariant holds in every state of a run exactly when no step destroys an awaiter whose grant is in transit |
| `AsyncMutex.OneHolder` | Commons/AsyncMutex.cpp:40-48 | two live guards are the same one, and no grant is then in transit |
| `AsyncMutex.QueuedHasHolder` | Commons/AsyncMutex.cpp:148-168 | while an awaiter is queued, somebody holds the lock or a grant |
| `AsyncMutex.GrantedInArrivalOrder` | Commons/AsyncMutex.cpp:110-168 | hand-offs follow the order of arrival |
| `AsyncMutex.EveryoneIsServed` | Commons/AsyncMutex.cpp:148-168 | from every state with a holder, if each holder drops its guard, everyone queued gets the lock in turn and the lock comes free |
| `AsyncMutex.BlockedGetsLock` | Commons/AsyncMutex.cpp:100-108 | a thread blocked while the lock is free gets it by the notification and look that are due |
| `AsyncMutex.LostGrantExample` | Commons/AsyncMutex.cpp:137-168 | destroying an awaiter that was handed the lock leaves the lock taken for good |
| `FastScheduler.QuantizeBounds` | Commons/FastScheduler.cpp:109-117 | never earlier, a whole millisecond, and the exact condition for adding less than one |
| `FastScheduler.NegativeDeadlineExample` | Commons/FastScheduler.cpp:109-117 | a negative deadline to which rounding adds more than a millisecond |
| `FastScheduler.InsertSorts` | Commons/FastScheduler.cpp:22-41 | insertion keeps the timer set ordered by deadline and address |
| `FastScheduler.SwapKeeps` | Commons/FastScheduler.cpp:72-90 | the compare-exchange loop's swap, failed or not, keeps the list well linked and every task in one place |
| `FastScheduler.DrainKeeps` | Commons/FastScheduler.cpp:131-141 | each drain turn moves exactly one task to the ordered timer set |
| `FastScheduler.FireKeeps` | Commons/FastScheduler.cpp:143-154 | firing takes the first timer and logs it no earlier than requested |
| `FastScheduler.ReturnKeeps` | Commons/FastScheduler.cpp:156-165 | the callback's answer reinserts or releases the task |
| `FastScheduler.ClearListKeeps` | Commons/FastScheduler.cpp:168-177 | clearing the list releases its tasks one by one |
| `FastScheduler.EveryRun` | Commons/FastScheduler.cpp:61-185 | in every state of every run each task is in exactly one place, the lists are well linked, deadlines are the rounded requests and timing holds |
| `FastScheduler.NoEarlyFiring` | Commons/FastScheduler.cpp:143-166 | no callback is called before its requested deadline |
| `FastScheduler.EarliestFires` | Commons/FastScheduler.cpp:143-148 | what fires is due and nothing left is due earlier |
| `FastScheduler.DueIsCalled` | Commons/FastScheduler.cpp:143-166 | every armed task due when a pass begins has been called when the pass ends, whatever producers and callbacks do meanwhile |
| `FastSchedulerProgress.PushReaches` | Commons/FastScheduler.cpp:61-90 | a push that nobody disturbs puts the task, armed, at the head of the list |
| `FastSchedulerProgress.DrainReaches` | Commons/FastScheduler.cpp:131-141 | the drain ends, with every listed task in the timer set |
| `FastSchedulerProgress.ScheduledIsCalled` | Commons/FastScheduler.cpp:61-166 | from every reachable state with an idle worker, a task scheduled and drained is called by the first pass at or after its deadline |
| `FastScheduler.PassLeavesNothingDue` | Commons/FastScheduler.cpp:145-145 | a pass that ends leaves only later deadlines |
| `FastScheduler.TakenIsLogged` | Commons/FastScheduler.cpp:147-154 | a task taken is called exactly when it has a callback and an owner |
| `FastScheduler.AnswerReschedules` | Commons/FastScheduler.cpp:156-164 | an answer puts the task back, no earlier than asked for; without answer or callback it is released |
| `FastScheduler.ReleasedOnly` | Commons/FastScheduler.cpp:119-185 | a task becomes free only so, by the clearing, or by a producer that finds the worker stopped |
| `FastScheduler.ScheduleFills` | Commons/FastScheduler.cpp:61-69 | a schedule call sets the deadline asked for, rounded by less than a millisecond if it is not negative, and arms the task |
| `FastScheduler.ClearedReleasesAll` | Commons/FastScheduler.cpp:168-185 | after clearing, every task is free and disarmed unless a producer still carries it |
| `FastScheduler.CarriedIsReleased` | Commons/FastScheduler.cpp:72-90 | in every continuation, a task carried when the worker has finished is released exactly when its producer has taken the steps it owes, at most three |
| `FastScheduler.DoneForGood` | Commons/FastScheduler.cpp:168-185 | after clearing nothing is queued and nothing fires in any continuation |
| `FastScheduler.ScheduleAfterClear` | Commons/FastScheduler.cpp:72-79 | in every continuation, a task scheduled on a cleared worker is released by its producer's first own step |
| `FastScheduler.Worker.DrainPending` | Commons/FastScheduler.cpp:131-141 | the loop moves exactly the listed tasks and keeps the timer set ordered |
| `FastScheduler.Worker.Clear` | Commons/FastScheduler.cpp:168-185 | the loops empty list and timer set and disarm and unlink exactly their tasks |
| `Base32.EncodeBlock` | Commons/Base32.hpp:69-97 | the 64-bit shift loop writes the eight base-32 digits of the five bytes |
| `Base32.DecodeBlock` | Commons/Base32.hpp:99-135 | fails exactly on a character outside the table, else writes the five bytes of the eight digits |
| `Base32.UnblockBlock` | Commons/Base32.hpp:69-135 | decoding a block undoes encoding it |
| `Base32.EncodeText` | Commons/Base32.hpp:137-167 | appends the encoding, remainder included |
| `Base32.DecodeText` | Commons/Base32.hpp:169-206 | appends what was decoded up to the first bad block, and says whether there was one |
| `Base32.TailDigits` | Commons/Base32.hpp:154-166 | the letters left out of a last block stand for zero digits |
| `Base32.RoundTrip` | Commons/Base32.hpp:137-206 | decoding undoes encoding on every byte string |
| `Base32.EncodeIsBits` | Commons/Base32.hpp:137-167 | the letters' five-bit groups are the bits of the bytes plus fewer than five zero bits (section 6 of RFC 4648) |
| `Base32.EncodeAlphabet` | Commons/Base32.hpp:24-31 | only lower-case letters and the digits two to seven appear |
| `Base32.LettersAreTheAlphabet` | Commons/Base32.hpp:24-66 | each digit is written as its letter of the alphabet of section 6 of RFC 4648, in lower case, and read back from it |
| `ExternalUserIds.EscapeComma` | Commons/ExternalUserIdUtils.cpp:8-28 | doubles every comma |
| `ExternalUserIds.DnsDiv` | Commons/ExternalUserIdUtils.cpp:30-61 | the loop cuts into marked labels of 62 characters |
| `ExternalUserIds.DnsUndiv` | Commons/ExternalUserIdUtils.cpp:63-91 | drops each dot and the character after it, for every input |
| `ExternalUserIds.UndivDiv` | Commons/ExternalUserIdUtils.cpp:30-91 | joining labels undoes cutting them |
| `ExternalUserIds.EncodedLabels` | Commons/ExternalUserIdUtils.cpp:30-61 | every label of every encoding starts with 'x' and has at most 63 characters, all but the last exactly 63 |
| `ExternalUserIds.SplitIds` | Commons/ExternalUserIdUtils.cpp:158-195 | the scanner's loop, with the step past the end on an unpaired trailing comma |
| `ExternalUserIds.SplitAppends` | Commons/ExternalUserIdUtils.cpp:158-195 | the scanner only appends, never an empty identifier, and extends the block it is in |
| `ExternalUserIds.SplitSpoiled` | Commons/ExternalUserIdUtils.cpp:158-195 | one later identifier starting with a comma always spoils the list |
| `ExternalUserIds.UnionRoundTripIff` | Commons/ExternalUserIdUtils.cpp:112-195 | splitting the joined identifiers returns them exactly when the list is safe |
| `ExternalUserIds.EncodeExternalUserIds` | Commons/ExternalUserIdUtils.cpp:112-140 | the four stages of encoding |
| `ExternalUserIds.DecodeExternalUserIds` | Commons/ExternalUserIdUtils.cpp:142-197 | the stages of decoding, appending to the caller's list |
| `ExternalUserIds.CodecIsSplit` | Commons/ExternalUserIdUtils.cpp:112-197 | base 32 and label cutting cancel out: decoding an encoding is splitting the joined identifiers |
| `ExternalUserIds.RoundTripIff` | Commons/ExternalUserIdUtils.cpp:112-197 | decoding the encoding returns the list exactly when no identifier is empty and none but the first starts with a comma |
| `ExternalUserIds.LeadingCommaExample` | Commons/ExternalUserIdUtils.cpp:112-197 | two identifiers whose encoding decodes to two others |
| `ExternalUserIds.EmptyLastExample` | Commons/ExternalUserIdUtils.cpp:158-195 | an empty last identifier makes the decoder run past the end |
| `IntervalSets.IntervalSet.Normalize` | Commons/Interval.hpp:58-90 | for any intervals: strict gaps, within the limits, and exactly the same numbers covered within them |
| `IntervalSets.IntervalSet.Contains` | Commons/Interval.hpp:92-99 | for every set: true exactly when the last interval starting at or before the number covers it; hence never wrong when true, and exact when none is hidden |
| `IntervalSets.ContainsExactIff` | Commons/Interval.hpp:92-99 | membership is right about every number exactly when no interval reaches past a later one where nothing later has begun |
| `IntervalSets.HiddenExample` | Commons/Interval.hpp:92-99 | a covered number that membership misses behind a nested interval |
| `IntervalSets.IntervalSet.NormalizeAndFind` | Commons/Interval.hpp:58-99 | after normalize, contains is true exactly for the numbers within the limits that were covered before |
| `IntervalSets.IntervalSet.CrossInto` | Commons/Interval.hpp:101-137 | for every set: adds exactly what the cut writes |
| `IntervalSets.CutExactIff` | Commons/Interval.hpp:101-137 | every cut covers exactly the covered numbers between its limits exactly when earlier intervals end at most one number into later ones |
| `IntervalSets.IntervalSet.Cross` | Commons/Interval.hpp:139-151 | for every pair of sets: the union of the cuts; pointwise intersection when the left set is safe to cut, as after normalize; no overlap when neither operand overlaps |
| `IntervalSets.CrossIsIntersectionIff` | Commons/Interval.hpp:139-151 | the intersection with every set is pointwise exactly when the left set is safe to cut |
| `IntervalSets.OverrunExample` | Commons/Interval.hpp:119-134 | a cut that copies an interval past its upper limit |
| `IntervalSets.UpperBound` | Commons/Interval.hpp:96-96 | the boundary of the intervals above a given one |
| `IntervalSets.MergeFaithful` | Commons/Interval.hpp:71-86 | merging with the last interval covers exactly one interval more |
| `IntervalSets.CutsAre` | Commons/Interval.hpp:113-136 | without overlap, what the two insertions and the copy write is the set of cut intervals |
| `IntervalSets.WrittenCovers` | Commons/Interval.hpp:101-137 | a safe cut covers a number exactly when it lies within the limits and in an interval |
| `PathManip.ComponentsJoin` | Commons/PathManip.cpp:109-117 | the parts between slashes have no slash and joined give the path |
| `PathManip.ScanIsForward` | Commons/PathManip.cpp:109-140 | the right-to-left scan with a skip counter is the left-to-right stack, from any stack |
| `PathManip.FindSlash` | Commons/PathManip.cpp:111-117 | the backward search finds the last slash |
| `PathManip.NormalizePath` | Commons/PathManip.cpp:93-165 | for every path: fails, leaving the path, exactly when the stack would pop empty; else the stack's path |
| `PathManip.SurvivorIsBottom` | Commons/PathManip.cpp:114-117 | a surviving first component is the bottom of the stack |
| `PathManip.ForwardDepth` | Commons/PathManip.cpp:119-137 | the stack runs through exactly when no prefix pops too much, and its depth is names minus ".." |
| `PathManip.AcceptedIff` | Commons/PathManip.cpp:142-145 | a path is accepted exactly when none of its prefixes has more ".." than names |
| `PathManip.StaysRelativeIff` | Commons/PathManip.cpp:134-134 | a relative path stays relative exactly when its first component is a name that the rest never pops, or names and ".." balance |
| `PathManip.LeadingSlashExample` | Commons/PathManip.cpp:114-134 | a relative path that comes out absolute |
| `PathManip.Idempotent` | Commons/PathManip.cpp:93-165 | normalising an accepted path twice changes nothing more, absolute or relative |

## Left out

- Number conversion and value processors: numbers are slices of the text with a float flag, and processors
  record events; processors that throw, the string creator and the overloads of process_string are not modelled.
- scan_number_literal shares the number specification with parse_number, whose scan it repeats.
- Building the processor tree from paths (add_processor_, get_or_add_sub_processor): the tree is a value given as a
  parameter, so a node's indexes are built when a name is looked up and not once in advance.
- MonoAllocator, CPU feature detection and the compile-time choice of available SIMD levels.
- The 32-bit depth counters of the rough skip, which could wrap on texts over 4 GB.
- Escaped-string printing: add_escaped_string and its variants rest on json_escape_append, which is not part of
  this model; number printing is represented by the digits it prints, and a delegate is consumed at once.
- AsyncCache update functions that throw, the coroutine awaiter and its executor, and get_sync's caller side
  beyond its lock regions; lock regions are atomic steps, holder identities are fresh, and an entry's place in the
  LRU list is found by its key instead of a stored iterator.
- OrderedWindow.EveryRun: sequence numbers and the threshold product are unbounded, tasks start consecutively and
  only while the window is not full, and one thread waits.
- ActivityGate.EveryRun: sequentially consistent atomics and no reactivation; a thread is one activity at a time.
- AsyncMutex.EveryRun: for runs that do not destroy an awaiter whose grant is in transit; AsyncMutex.DestroyKeepsIff
  says why. The static statistics counters and the choice of resume scheduler are not modelled.
- FastScheduler.EveryRun: the wakeup_ticks_ exchange and the waits of the worker loop are not modelled, so nothing is
  claimed about when the worker comes to its next pass; nor are weak memory orders, several workers, or overflow of
  the microsecond count.
- FastScheduler's process_ready_ is modelled by its turns, not as one terminating loop: a callback may keep
  returning past deadlines.
- Base32.DecodeBlock: the table has 31 written rows, so the zero byte and the last eight bytes decode as zero; no
  claim is made that only encodings are accepted.
- ExternalUserIds: the total length limit of a DNS name, which the code does not check.
- IntervalSets: the container is a sorted sequence searched by bisection instead of a tree; minimize has no body in
  the repository.
- Log record classes, file receivers, bundles, CORBA, ZMQ, gRPC, configuration, encryption and thread wrappers:
  thin code over libraries, which would only add easy members.
