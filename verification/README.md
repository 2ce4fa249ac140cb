# Verified model of swifty.go

This project models the stateful and the translating parts of swifty.go in Dafny and proves what they keep
over whole runs.  Objects that the repository updates in place are classes whose methods are proved against
functions on values; the properties are lemmas about those functions.  Concurrent code is modelled as a state
machine over its atomic steps, and its properties hold in every interleaving.

| Part of the repository | Modules |
|---|---|
| Two-level LRU store | `LruSpec`, `LruCache` (index-array list, hash table, tombstones), `LruBucketSpec` and `LruBucket` (two levels, expiry, budget), `LruStore` (whole runs), `LruStoreObject` (the object over its buckets) |
| RPC client: pending calls, futures, streams | `RpcClient` (protocol), `RpcOutcomes` (what calls and streams come to over whole runs), `RpcObjects` (futures and streams as objects) |
| RPC wire format and stream parser | `Framing` |
| MongoDB queries | `Where`, `Like`, `Filter`, `Growing` (lists in buffers), `Query`, `GroupPipeline` |
| Smooth weighted round robin | `WeightedRR` |
| Consistent hash ring and peer view | `HashRing`, `Peers` |
| HTTP routes | `Trie`, `TrieObject`, `Router`, `RouterObject` |
| WebSocket frames and messages (RFC 6455) | `WebSocket`, `WebSocketConn` |
| Single flight and read-through | `SingleFlight`, `FlightOutcomes` (what a flight comes to over whole runs) |
| Circuit breaker | `Breaker` |

`Options` and `ByteStrings` hold what several modules share.  Time, hash functions, codecs, UTF-8 validity, comparison of values outside the listed ones and the order of map
iteration are parameters or arbitrary choices: every result holds for all of them.

## Where code, documentation or standard differ

The model follows the code in each case.

- `swifty_cache/README.md` speaks of MaxBytes divided by BucketCount; the code divides by the next power of two
  (swifty_cache/lru.go:65-73).
- A LIKE subject with a newline can be matched differently by the regular expression; `Like.LikePreservedIff`
  gives the exact condition.
- A ping or pong between the fragments of a WebSocket message loses the message, although section 5.4 of
  RFC 6455 allows it there and the comment on readMessage says so too; `WebSocket.ControlAmongFragments` gives
  the exact condition.
- A failed resync of the peer list starts the next watch at whatever revision is current and can miss events;
  `Peers.FailedResyncIff` gives the exact condition for each peer, `Peers.FailedResyncMisses` a run.
- An expiration above MaxInt64 minus the current time wraps to a negative expiry time; the entry is then lost
  and the level invariant broken.  `LruBucketSpec.WriteSurvives`, `LruBucketSpec.WriteConserves` and
  `LruBucket.Bucket.SetWithExpiration` give the exact condition.
- A request path is cut after an item that begins with `*`; `Router.MatchedWhole` and `Router.PathRebuild` give
  the exact condition.
- A frame of 2^32 bytes or more passes the stream parser but not the slicing in Decode, whose sums are 32 bits
  wide; `Framing.PacketsDecode` gives the exact condition.

## Model

| member | source | states |
|---|---|---|
| LruCache.Cache.Create | swifty_cache/lru.go:331-338 | a new level satisfies the representation invariant and is empty |
| LruCache.Cache.Adjust | swifty_cache/lru.go:451-460 | moves one slot to the front or the back of the circular list: the slot order becomes `MoveFront` or `MoveBack` of the old one, nodes and table untouched |
| LruCache.Relink | swifty_cache/lru.go:451-460 | the link writes turn a circular list through slot 0 into the circular list of the moved order, in either direction |
| LruCache.ChainedReverse | swifty_cache/lru.go:451-460 | the list read backwards is the same list with the two link columns exchanged, so both directions of adjust are one operation |
| LruCache.LiveDistinct | swifty_cache/lru.go:347-394 | under the bijection between keys and used slots no key is live twice |
| LruCache.Cache.Put | swifty_cache/lru.go:347-394 | with a positive expiry time refines one sequence operation: an existing key is replaced and moved to the front; a new one is put in front, after evicting the least recently used live entry exactly when all slots hold live entries; reports, eviction counter and byte count agree. With a negative one the slot and the bytes are taken without the entry being live, and the level invariant is broken |
| LruCache.Cache.Recycle | swifty_cache/lru.go:360-376 | at the slot limit the last slot of the order is reused: a tombstone if there is one, otherwise the least recently used entry, which is reported |
| LruCache.Cache.Extend | swifty_cache/lru.go:378-394 | below the slot limit a fresh slot is linked in at the front |
| LruCache.Cache.Peek | swifty_cache/lru.go:396-401 | the slot of a key, live exactly when the key is stored and then holding what it is stored under; 0 only for a key that no slot in use has |
| LruCache.Cache.Del | swifty_cache/lru.go:403-413 | removes exactly the entry of the key if it is live, leaving a tombstone behind all live entries, and returns its expiry |
| LruCache.Cache.Drop | swifty_cache/lru.go:415-421 | as Del, and lets go of the value |
| LruCache.Cache.EvictOldest | swifty_cache/lru.go:423-441 | removes and reports the least recently used live entry, skipping tombstones; fails only without a live entry; does so too behind a first slot that is not as it should be, which it leaves |
| LruCache.Cache.Walk | swifty_cache/lru.go:443-449 | visits exactly the live entries, most recent first |
| LruCache.Cache.Touch | swifty_cache/lru.go:128 | a read of the second level moves its entry to the front and changes nothing else |
| LruBucket.Bucket.Get | swifty_cache/lru.go:95-133 | the two-level read on the real lists equals `LruBucketSpec.Get`, of which `GetFinds`, `HitLeaves` and `MissLeaves` say when it hits and what it leaves |
| LruBucket.Bucket.SetWithExpiration | swifty_cache/lru.go:139-165 | the write equals `LruBucketSpec.Write`, the expiry time cut to 64 bits; the bucket invariant holds afterwards if and only if expiration <= MaxInt64 - now, and otherwise the entry sits in the first slot without being live and weighs on the byte count |
| LruBucket.Bucket.Shrink | swifty_cache/lru.go:156-162 | the eviction loop equals `LruBucketSpec.Squeeze`, also beside an entry that is not live; it terminates |
| LruBucket.Bucket.EvictFromBucket | swifty_cache/lru.go:167-172 | evicts the oldest of the first level, of the second only when the first is empty |
| LruBucket.Bucket.Delete | swifty_cache/lru.go:462-483 | removes the key from both levels and reports each removed copy |
| LruBucket.Bucket.Clear | swifty_cache/lru.go:182-201 | deletes every key found in either level, in any order: the bucket is empty and everything was reported |
| LruBucket.Bucket.Cleanup | swifty_cache/lru.go:485-520 | deletes exactly the keys with an expired entry, in any order |
| LruBucketSpec.GetKeeps | swifty_cache/lru.go:95-133 | a read keeps the bucket invariant (no key live in both levels, capacities, budget), makes nothing live that was not, and a hit is a live unexpired entry |
| LruBucketSpec.GetFinds | swifty_cache/lru.go:95-133 | a read finds a value if and only if a live entry of the key, in either level, has that value and has not expired |
| LruBucketSpec.HitLeaves | swifty_cache/lru.go:108-129 | what a hit leaves: the entry is live and first in the second level, every other live entry stays but for one that is displaced and reported, nothing else is live |
| LruBucketSpec.MissLeaves | swifty_cache/lru.go:102-132 | what a miss leaves: no live entry of the key, all others as they were; an expired entry is reported |
| LruBucketSpec.GetKeepsOrder | swifty_cache/lru.go:95-133 | a read keeps the order of all entries of other keys in both levels, but for one displaced at the old end |
| LruBucketSpec.SetOrder | swifty_cache/lru.go:139-165 | after a write the first level is the longest kept prefix of the new entry followed by the others in their order; the second level loses the key alone |
| LruBucketSpec.SetReports | swifty_cache/lru.go:139-165 | a write reports exactly those of the first level that are not kept, the oldest first |
| LruBucketSpec.DeleteOrder | swifty_cache/lru.go:462-483 | a delete keeps the order of everything else |
| LruBucketSpec.NeverExpires | swifty_cache/lru.go:140-145 | without an expiration the expiry time is later than any clock reading |
| LruBucketSpec.FreshMembers | swifty_cache/lru.go:491-505 | what a cleanup pass keeps of a level is what has not expired |
| LruBucketSpec.SetKeeps | swifty_cache/lru.go:139-165 | a write keeps the invariant and the byte budget, never evicts from the second level, and leaves its key live only as the entry written |
| LruBucketSpec.SqueezeStops | swifty_cache/lru.go:156-162 | the eviction loop stops at the longest recent prefix of the first level that fits beside an untouched second level |
| LruBucketSpec.SetSurvives | swifty_cache/lru.go:156-172 | the entry just set, with an expiry time that did not wrap, survives if and only if there is no budget or its size plus the remaining second-level bytes fits |
| LruBucketSpec.ExpiryPositive | swifty_cache/lru.go:140-145 | cut to 64 bits an expiry time is positive if and only if expiration <= MaxInt64 - now, and is then the plain sum |
| LruBucketSpec.WriteSurvives | swifty_cache/lru.go:139-172 | whatever expiration is asked for: the entry survives if and only if its expiry time is positive and it fits |
| LruBucketSpec.StrayLost | swifty_cache/lru.go:100-132 | after a write that wrapped, the key is live in neither level |
| LruBucketSpec.WriteConserves | swifty_cache/lru.go:139-172 | whatever expiration is asked for: the accounts of the write balance if and only if its expiry time is positive |
| LruBucketSpec.LongestExpirationLost | swifty_cache/lru.go:142 | with the largest expiration the expiry time is negative and the entry is lost on every bucket |
| LruBucketSpec.DeleteKeeps | swifty_cache/lru.go:462-483 | a delete keeps the invariant and leaves live exactly the entries of other keys |
| LruBucketSpec.SqueezeConserves | swifty_cache/lru.go:423-441 | the eviction loop reports exactly what it removes, as a multiset |
| LruBucketSpec.GetConserves | swifty_cache/lru.go:95-133 | entries before a read are entries after it plus those reported |
| LruBucketSpec.SetConserves | swifty_cache/lru.go:139-165 | entries before plus the new pair are entries after, plus those reported, plus those overwritten |
| LruBucketSpec.DeleteConserves | swifty_cache/lru.go:462-483 | entries before a delete are entries after it plus those reported |
| LruBucketSpec.DeleteRemoves | swifty_cache/lru.go:182-201 | deleting key after key removes exactly the set of keys, whatever the order |
| LruBucketSpec.SweepMeans | swifty_cache/lru.go:485-520 | clearing leaves nothing; a cleanup pass keeps exactly the unexpired entries of both levels |
| LruBucketSpec.PutMembers | swifty_cache/lru.go:347-394 | what is live after a put |
| LruStore.BucketStepKeeps | swifty_cache/lru.go:95-201 | each locked section keeps its bucket invariant, and what is live afterwards was live before or was just set |
| LruStore.StepKeeps | swifty_cache/lru.go:95-201 | each locked section keeps the invariant of every bucket |
| LruStore.NeverStale | swifty_cache/lru.go:95-165 | over every run with arbitrary evictions, a hit returns exactly the value last set for its key, not deleted or cleared since and not expired |
| LruStore.Conservation | swifty_cache/lru.go:100-131 | over every run, as multisets: everything stored is live, or was overwritten by a later set of its key, or was reported to the callback, exactly once |
| LruStore.NextWriteBalances | swifty_cache/lru.go:139-165 | after any run, the accounts of that run and one more write balance if and only if the expiry time of the write is positive |
| LruStore.WithinBudget | swifty_cache/lru.go:68-73 | the whole store stays within MaxBytes after every locked section (one byte a bucket if MaxBytes is below the bucket count) |
| LruStore.MaskIsLeastPower | swifty_cache/lru.go:304-314 | for 1 <= cap <= 32768 mask + 1 is the least power of two not below cap, in 16-bit arithmetic; above, the mask is all ones |
| LruStore.HitIffLive | swifty_cache/lru.go:95-133 | over every run: a read hits with a value if and only if an unexpired entry of that key and value is live in its bucket |
| LruStore.StaysLive | swifty_cache/lru.go:100-172 | over every run: an entry just set stays live through other operations until it is set anew, deleted, cleared, swept or reported |
| LruStore.HitUnlessReported | swifty_cache/lru.go:95-172 | over every run: a key whose last write has not expired, was not undone and was not reported as evicted is hit with the value written |
| LruStore.LeavesReported | swifty_cache/lru.go:100-201 | an entry that a locked section makes leave its bucket was overwritten or is reported by that very section |
| LruStore.BudgetIsShare | swifty_cache/lru.go:67-73 | the budget of a bucket is the largest whole number of bytes whose sum over the buckets is within MaxBytes, but at least 1 |
| LruStoreObject.Store.constructor | swifty_cache/lru.go:51-93 | defaults for zero options; the number of buckets is the next power of two, the budget is shared among that many, every bucket starts empty |
| LruStoreObject.Store.Get | swifty_cache/lru.go:95-133 | one locked section on the bucket objects is one step of the history model, of which `LruStore.HitIffLive` says when it hits; the other buckets stay as they are |
| LruStoreObject.Store.SetWithExpiration | swifty_cache/lru.go:139-165 | the same for a write if expiration <= MaxInt64 - now; otherwise, and only then, the store invariant is broken, in the one bucket written to |
| LruStoreObject.Store.Delete | swifty_cache/lru.go:174-180 | the same for a delete, which reports something exactly when it returns true |
| LruStoreObject.Store.ClearBucket | swifty_cache/lru.go:183-200 | the same for one turn of Clear |
| LruStoreObject.Store.SweepBucket | swifty_cache/lru.go:491-515 | the same for one turn of the cleanup loop |
| LruStoreObject.Store.Clear | swifty_cache/lru.go:182-201 | undisturbed, every bucket is empty afterwards |
| LruStoreObject.Hash | swifty_cache/lru.go:296-302 | the loop computes the hash, cut to 32 bits with a sign at each step |
| LruStoreObject.WrapIsHarmless | swifty_cache/lru.go:296-302 | the cuts do not disturb the remainder by a number of buckets that divides 2^32: it is that of the plain polynomial |
| LruStoreObject.IndexIsRemainder | swifty_cache/lru.go:95-96 | the bucket of a key is the remainder of the plain polynomial of its characters |
| RpcClient.DrainGoesOn | swifty_rpc/internal/transport/tcp_client.go:175-194 | in every reachable state a shutdown in progress has a step to take, which brings it closer to its end |
| RpcClient.DrainFinishes | swifty_rpc/internal/transport/tcp_client.go:175-194 | from every reachable state finitely many steps of the shutdown alone finish it |
| RpcClient.LoopGoesOn | swifty_rpc/internal/transport/tcp_client.go:103-139 | once the drain has finished the read loop can go on, unless it pushes to a full stream that no caller holds |
| RpcClient.NoLeakedCall | swifty_rpc/internal/transport/tcp_client.go:71-194 | in every interleaving of senders, read loop and shutdown: once the drain is finished and the read loop is idle, every future handed out is completed, closed once, its callback run exactly once, and every stream handed out is terminated |
| RpcClient.NeverClosedTwice | swifty_rpc/internal/transport/future.go:70-87 | the done channel is closed at most once, and only after completion |
| RpcClient.FirstResultWins | swifty_rpc/internal/transport/future.go:70-80 | no later Done changes a completed result |
| RpcClient.BodyIsOwn | swifty_rpc/internal/transport/tcp_client.go:126-137 | a body comes only from an error-free response whose id is that of the call; that such a response yields it is `RpcOutcomes.ReplyReaches` |
| RpcClient.FramesBeforeTheEnd | swifty_rpc/internal/transport/stream.go:83-101 | when Recv reports the terminal error, every frame accepted before termination has been received, in push order |
| RpcClient.NothingDropped | swifty_rpc/internal/transport/stream.go:60-81 | on a stream that was not cancelled, what was accepted is what arrived, in order, except at most the one frame being pushed |
| RpcClient.AlwaysInv | swifty_rpc/internal/transport/tcp_client.go:71-194 | the protocol invariant holds after every sequence of atomic steps |
| RpcClient.OwedStep | swifty_rpc/internal/transport/tcp_client.go:84-98 | an entry that a caller will receive is in the table, in the hands of the read loop or the drain, or finished: kept by every step |
| RpcClient.CoveredStep | swifty_rpc/internal/transport/tcp_client.go:175-194 | after the flag is set every entry still in the table is ahead of the drain or will be retracted by its sender: kept by every step |
| RpcClient.DrainFitsStep | swifty_rpc/internal/transport/tcp_client.go:175-194 | the drain only visits registered entries of the kind it ranges over: kept by every step |
| RpcClient.LoopFitsStep | swifty_rpc/internal/transport/tcp_client.go:103-139 | the read loop only works on registered entries: kept by every step |
| RpcClient.OnceStep | swifty_rpc/internal/transport/future.go:70-87 | who completed a future is the only one to close it: kept by every step |
| RpcClient.NotifiedStep | swifty_rpc/internal/transport/future.go:70-108 | each callback runs exactly once, from Done or from OnComplete: kept by every step |
| RpcClient.BodiesStep | swifty_rpc/internal/transport/tcp_client.go:126-137 | each body result stems from a received message, and so does each body in the hands of the read loop: kept by every step |
| RpcClient.StreamsStep | swifty_rpc/internal/transport/stream.go:60-105 | channel bound and frame order of every stream: kept by every step |
| RpcClient.NumberingStep | swifty_rpc/internal/transport/tcp_client.go:63-65 | request ids are unique and below the counter: kept by every step |
| RpcOutcomes.ReplyReaches | swifty_rpc/internal/transport/tcp_client.go:103-139 | over every run, a reply dispatched while its entry is in the table settles it as it says, body, error or end, unless it was settled before the read loop came to it |
| RpcOutcomes.FailureCause | swifty_rpc/internal/transport/tcp_client.go:132-194 | over every run, a call fails only with the error of a response of its own id or with the error the shutdown was started with |
| RpcOutcomes.EndCause | swifty_rpc/internal/transport/tcp_client.go:111-124 | over every run, a stream ends only as a message of its own id says, or with the error the shutdown was started with |
| RpcOutcomes.ReasonCause | swifty_rpc/internal/transport/tcp_client.go:168-200 | the shutdown is started with the error of Close, of the failed write or of the failed read that started it |
| RpcOutcomes.ShutDownWhen | swifty_rpc/internal/transport/tcp_client.go:168-200 | Close, a failed write and a failed read shut the client down, nothing else does, and the first gives the error |
| RpcOutcomes.ArrivedIsSent | swifty_rpc/internal/transport/tcp_client.go:112-115 | over every run, the frames that have arrived for a stream in the table are the bodies of exactly the data messages of its id dispatched since it was stored, in order |
| RpcOutcomes.NothingArrivesLater | swifty_rpc/internal/transport/tcp_client.go:112-115 | nothing arrives for a stream that has left the table |
| RpcOutcomes.HandedOutIff | swifty_rpc/internal/transport/tcp_client.go:88-100 | over every run, a future or stream is handed out if and only if its request was written; after a failed write the caller is refused and the client shut down |
| RpcOutcomes.RefusedWhen | swifty_rpc/internal/transport/tcp_client.go:71-99 | a call is refused only on a closed client, when it took its own entry back, or after a failed write; one whose entry somebody else took is settled by them |
| RpcOutcomes.AlwaysTableOwned | swifty_rpc/internal/transport/tcp_client.go:78-98 | over every run, nothing stays in the table for a call that was refused |
| RpcOutcomes.CallbacksAre | swifty_rpc/internal/transport/future.go:96-108 | over every run, the callback of a call is the last one registered before completion, and the late ones are exactly those registered afterwards; by `RpcClient.NoLeakedCall` each has run once in the end |
| RpcOutcomes.CallAnswered | swifty_rpc/internal/transport/tcp_client.go:71-139 | on an open client every new call can be made and is completed by a response with its body or its error |
| RpcOutcomes.StreamServed | swifty_rpc/internal/transport/stream.go:60-105 | on an open client every new stream can be opened, and a frame and an end sent on it are received in that order |
| RpcOutcomes.ClosedRefuses | swifty_rpc/internal/transport/tcp_client.go:72-74 | a closed client refuses every new call and stays closed |
| RpcObjects.FutureObject.Done | swifty_rpc/internal/transport/future.go:70-87 | called without interference, Done is the protocol steps commit, notify and close carried through; the first result stays |
| RpcObjects.FutureObject.OnComplete | swifty_rpc/internal/transport/future.go:96-108 | keeps the callback before completion, runs it at once afterwards |
| RpcObjects.FutureObject.Wait | swifty_rpc/internal/transport/future.go:89-94 | returns the result of a completed future |
| RpcObjects.ClientStreamConn.Push | swifty_rpc/internal/transport/stream.go:60-66 | one protocol step: the channel never exceeds its capacity |
| RpcObjects.ClientStreamConn.Terminate | swifty_rpc/internal/transport/stream.go:76-81 | one protocol step: only the first terminal state counts |
| RpcObjects.ClientStreamConn.Recv | swifty_rpc/internal/transport/stream.go:83-105 | a buffered frame, the oldest, goes before the terminal state and before a cancelled context |
| Like.LikeIsRegex | swifty_orm/filter.go:160-165 | for every pattern and newline-free subject the emitted anchored regular expression matches if and only if SQL LIKE matches |
| Like.LikePreservedIff | swifty_orm/filter.go:160-165 | the translation is right for all patterns on a subject if and only if the subject has no newline |
| Like.FinalNewlineDisagrees | swifty_orm/filter.go:160-165 | a family of inputs on which `$` before a final newline makes them differ |
| Like.InnerNewlineDisagrees | swifty_orm/filter.go:160-165 | a family of inputs on which `.` not matching a newline makes them differ |
| Like.RegexTokens | swifty_orm/filter.go:161-164 | the emitted text reads back, unambiguously, as the tokens meant: escapes, `.*` and `.` |
| Like.TokensMean | swifty_orm/filter.go:161-164 | those tokens match a suffix exactly when LIKE does |
| Filter.BuildConditionFilter | swifty_orm/filter.go:195-263 | the loops over maps compute `ConditionFilter` |
| Filter.BuildFilter | swifty_orm/filter.go:167-189 | the loop over or-groups computes `QueryFilter` |
| Filter.SetEqualityMeans | swifty_orm/filter.go:202-216 | merging an equality adds exactly that equality, whatever the field holds already |
| Filter.SetOpMeans | swifty_orm/filter.go:218-233 | merging an operator adds exactly that operator, through $and when it would clash |
| Filter.AddConditionMeans | swifty_orm/filter.go:235-257 | each condition form adds exactly its meaning |
| Filter.ConditionFilterMeans | swifty_orm/filter.go:195-263 | the built document accepts exactly the records on which all conditions hold; duplicates and clashes are never lost |
| Filter.GroupFiltersMean | swifty_orm/filter.go:176-181 | the or-clauses accept exactly what some non-empty group accepts |
| Filter.QueryFilterMeans | swifty_orm/filter.go:167-189 | the built filter accepts a record if and only if all main conditions hold or some or-group holds entirely; everything when there are neither |
| Where.ParseWhere | swifty_orm/filter.go:66-96 | the three argument forms and each error; every accepted condition is one the compiler can handle |
| Where.ParseWhereMap | swifty_orm/filter.go:98-122 | one equality (or null test) for each key, in key order |
| Where.SortKeys | swifty_orm/filter.go:108-112 | an ascending list of exactly the keys |
| Where.NormalizedIsBuilt | swifty_orm/filter.go:124-156 | whatever operator text is given, an accepted one carries a value whose type assertion later succeeds |
| Where.OnePerKeyMeans | swifty_orm/filter.go:98-122 | the map form means the conjunction of its equalities |
| Where.OperatorMeans | swifty_orm/filter.go:42-58 | which operator texts are accepted with which values, and what each selects: ">" what is above the value, "<=" what is below or equal, and so on; other texts are taken as they are if they begin with $ |
| Where.ArgumentsMean | swifty_orm/filter.go:66-122 | for each argument form, when it is accepted and which records the conditions select |
| Where.TrimCuts | swifty_orm/filter.go:125 | white space around a text that has none at its ends is what TrimSpace cuts off |
| Where.NamesUnlessBlank | swifty_orm/filter.go:72-74 | a field name is accepted unless it is white space throughout |
| Where.LowerAt | swifty_orm/filter.go:125 | ASCII letters of either case are read as the lower one |
| Query.Query.Where | swifty_orm/query.go:57-65 | appends the parsed conditions, or records the first error and changes nothing else |
| Query.Query.OrWhere | swifty_orm/query.go:117-128 | appends one group; an empty or failed one is a no-op |
| Query.Query.WhereNot | swifty_orm/query.go:67-71 | narrows what the conditions mean by a != test, and changes nothing else |
| Query.Query.WhereIn | swifty_orm/query.go:73-76 | narrows what the conditions mean by a membership test, and changes nothing else |
| Query.Query.WhereNotIn | swifty_orm/query.go:78-81 | narrows what the conditions mean by a non-membership test, and changes nothing else |
| Query.Query.WhereNull | swifty_orm/query.go:83-86 | narrows what the conditions mean by a null test, which a missing field passes, and changes nothing else |
| Query.Query.WhereNotNull | swifty_orm/query.go:88-91 | narrows what the conditions mean by a not-null test, and changes nothing else |
| Query.Query.WhereBetween | swifty_orm/query.go:93-96 | narrows what the conditions mean by both bounds, inclusive, and changes nothing else |
| Query.Query.WhereNotBetween | swifty_orm/query.go:98-101 | narrows what the conditions mean by the negation of both bounds, and changes nothing else |
| Query.Query.WhereLike | swifty_orm/query.go:103-107 | narrows what the conditions mean by a case-sensitive LIKE, and changes nothing else |
| Query.Query.WhereILike | swifty_orm/query.go:109-113 | narrows what the conditions mean by a LIKE that ignores case, and changes nothing else |
| Query.Query.OrWhereNot | swifty_orm/query.go:131-134 | adds one or-group that means the same as `WhereNot`, and changes nothing else |
| Query.Query.OrWhereIn | swifty_orm/query.go:136-139 | adds one or-group that means the same as `WhereIn`, and changes nothing else |
| Query.Query.OrWhereNotIn | swifty_orm/query.go:141-144 | adds one or-group that means the same as `WhereNotIn`, and changes nothing else |
| Query.Query.OrWhereNull | swifty_orm/query.go:146-149 | adds one or-group that means the same as `WhereNull`, and changes nothing else |
| Query.Query.OrWhereNotNull | swifty_orm/query.go:151-154 | adds one or-group that means the same as `WhereNotNull`, and changes nothing else |
| Query.Query.OrWhereBetween | swifty_orm/query.go:156-159 | adds one or-group that means the same as `WhereBetween`, and changes nothing else |
| Query.Query.Having | swifty_orm/query_group.go:56-64 | appends to the row conditions, or records the first error |
| Query.Query.GroupBy | swifty_orm/query_group.go:43-52 | appends all keys, or none if one is blank |
| Query.Query.AddAggSpec | swifty_orm/query_group.go:99-114 | appends the accumulator exactly when the alias is usable, otherwise records the error |
| Query.Query.AddFieldAggSpec | swifty_orm/query_group.go:91-97 | refuses a blank field, so that only CountAs counts documents |
| Query.Query.Clone | swifty_orm/query.go:192-216 | a query with the same view and error that shares no object and no buffer with the original, so that later calls on either leave the other as it is |
| Query.Query.Compile | swifty_orm/filter.go:167-189 | for the object reached by any chain of calls, the compiled document accepts exactly what the chain selects |
| Query.AliasUsable | swifty_orm/query_group.go:99-111 | an alias is usable if and only if it is not blank, not _id, does not begin with $ and has no dot; which error it gets otherwise |
| Query.WhereNarrows | swifty_orm/query.go:57-65 | one more Where intersects the selection |
| Query.OrWhereWidens | swifty_orm/query.go:117-128 | one more OrWhere is a union, and alone it is the whole selection |
| Growing.Buffer.Append | swifty_orm/query.go:63 | appends in place while the buffer has room and in a new one otherwise |
| Growing.Buffer.Copy | swifty_orm/query.go:203-214 | the same items in a buffer of its own |
| GroupPipeline.BuildGroupPipeline | swifty_orm/query_group.go:138-228 | the imperative builder yields the error of the first failed check or the stages in order |
| GroupPipeline.BuildIdPaths | swifty_orm/query_group.go:183-191 | the key map has one path for each flattened key |
| GroupPipeline.BuildGroup | swifty_orm/query_group.go:182-199 | the $group document is `GroupSpec`; `RowIsRight` says what its accumulators come to |
| GroupPipeline.BuildProject | swifty_orm/query_group.go:201-213 | the $project document flattens the keys and keeps the aliases |
| GroupPipeline.IdIsTupleId | swifty_orm/query_group.go:183-191 | the id computed for a document is the one that stands for its key tuple |
| GroupPipeline.TupleIdInjective | swifty_orm/query_group.go:183-191 | different key tuples have different ids |
| GroupPipeline.UniqIds | swifty_orm/query_group.go:183-191 | there are as many ids as key tuples, in the same order |
| GroupPipeline.MembersShare | swifty_orm/query_group.go:183-191 | the members of a group are exactly the documents with its key tuple |
| GroupPipeline.RowIsRight | swifty_orm/query_group.go:182-213 | a row has exactly the key names with dots made underscores and the aliases as columns; key columns hold the tuple, a column without a field the number of documents with that tuple, any other what its operator makes of the values of its field in those documents, in order |
| GroupPipeline.KeyNameFlattens | swifty_orm/query_group.go:230-232 | the name of a key column is the field with every dot made an underscore, character by character |
| GroupPipeline.AccumulatesField | swifty_orm/query_group.go:192-198 | the accumulator of a column counts documents without a field, and otherwise folds the values of the field |
| GroupPipeline.BackMeans | swifty_orm/query_group.go:215-227 | the stages after $project keep the rows on which all having conditions hold, put them in order, skip and limit: the page that is left is given row by row |
| GroupPipeline.AcceptedIff | swifty_orm/query_group.go:138-175 | a plan is accepted if and only if it groups, selects no fields, has columns of different names and refers to its columns only |
| GroupPipeline.RefusedFor | swifty_orm/query_group.go:138-175 | an error names a fault that the plan has, and none that is looked for earlier |
| GroupPipeline.ResultColumnsAre | swifty_orm/query_group.go:146-165 | columns are the flattened keys and the aliases; they repeat exactly when two keys, two aliases or a key and an alias clash |
| GroupPipeline.FilteredMatches | swifty_orm/query_group.go:177-180 | the $match stage keeps exactly the selected documents, in order |
| GroupPipeline.FrontRuns | swifty_orm/query_group.go:177-213 | evaluating the stages up to $project is projecting each group of the matching documents |
| GroupPipeline.GroupedMeans | swifty_orm/query_group.go:138-213 | one row for each distinct key tuple of the matching documents, and every row is right in the sense of `RowIsRight` |
| GroupPipeline.HavingMeans | swifty_orm/query_group.go:215-217 | the stage after $project keeps exactly the rows on which all having conditions hold, in order |
| GroupPipeline.CountsSum | swifty_orm/query_group.go:182-199 | group sizes add up to the number of documents |
| GroupPipeline.CountAsTotals | swifty_orm/query_group.go:192-196 | the CountAs column adds up to the number of matching documents |
| WeightedRR.Balancer.constructor | swifty_rpc/internal/load_balance/weighted_rr.go:37-54 | negative weights count as zero; all current weights start at 0 |
| WeightedRR.Balancer.Select | swifty_rpc/internal/load_balance/weighted_rr.go:56-82 | refines the schedule `PickAt`; no pick and no change for an empty list, a list of another length or a zero total |
| WeightedRR.Balanced | swifty_rpc/internal/load_balance/weighted_rr.go:56-82 | after any number of selections the current weights add up to 0 and each is above minus the total |
| WeightedRR.Ledger | swifty_rpc/internal/load_balance/weighted_rr.go:56-82 | a current weight is k*w_i minus total times the picks of that server |
| WeightedRR.PicksMostOwed | swifty_rpc/internal/load_balance/weighted_rr.go:68-80 | every selection picks the first of the servers that are owed most: their share of all selections so far and this one, less their picks |
| WeightedRR.NeverAhead | swifty_rpc/internal/load_balance/weighted_rr.go:56-82 | after k selections server i was picked fewer than k*w_i/W + 1 times |
| WeightedRR.ZeroWeightNever | swifty_rpc/internal/load_balance/weighted_rr.go:56-82 | a server of weight zero is never picked |
| WeightedRR.ExactRounds | swifty_rpc/internal/load_balance/weighted_rr.go:56-82 | after every whole number of rounds of W selections each server was picked exactly w_i times a round, and all current weights are 0 |
| WeightedRR.Periodic | swifty_rpc/internal/load_balance/weighted_rr.go:56-82 | the schedule repeats with period W |
| HashRing.ConsistentHashMap.AddNodeLocked | swifty_cache/consistent_hash.go:131-152 | places the virtual nodes that are not taken; an existing node is a no-op |
| HashRing.ConsistentHashMap.Add | swifty_cache/consistent_hash.go:72-88 | the ring afterwards is that of adding the nodes one by one, its keys sorted |
| HashRing.ConsistentHashMap.Remove | swifty_cache/consistent_hash.go:90-100 | removes exactly that node, or fails and changes nothing |
| HashRing.ConsistentHashMap.Get | swifty_cache/consistent_hash.go:102-129 | binary search finds the owner of the cyclically next virtual node |
| HashRing.NextExists | swifty_cache/consistent_hash.go:115-123 | on a non-empty ring every hash has a cyclically next virtual node |
| HashRing.NextUnique | swifty_cache/consistent_hash.go:115-123 | and only one |
| HashRing.AddOk | swifty_cache/consistent_hash.go:131-152 | adding keeps the ring consistent and takes no place from a node that is there, even with collisions |
| HashRing.AddTakes | swifty_cache/consistent_hash.go:131-152 | every virtual node of a node that was added is on the ring, owned by it unless it was taken before |
| HashRing.AddOnlyTakes | swifty_cache/consistent_hash.go:131-152 | and nothing else is new on the ring |
| HashRing.AddsEach | swifty_cache/consistent_hash.go:72-88 | adding several nodes is adding one after the other, empty names skipped |
| HashRing.AddsAll | swifty_cache/consistent_hash.go:72-88 | after adding several nodes, those are there that were and all that were added but for empty names |
| HashRing.RemoveOk | swifty_cache/consistent_hash.go:154-177 | removing takes away exactly the places the node owned |
| HashRing.AddMovesOnlyToNew | swifty_cache/consistent_hash.go:131-152 | adding a node changes owners only to that node, collisions or not |
| HashRing.RemoveMovesOnlyOwn | swifty_cache/consistent_hash.go:154-177 | removing a node changes only the owner of keys it owned |
| HashRing.AddThenRemove | swifty_cache/consistent_hash.go:131-177 | adding a new node and removing it restores the ring |
| HashRing.OrderIndependent | swifty_cache/consistent_hash.go:131-177 | two collision-free rings over the same nodes have the same owners |
| HashRing.OnlyTheNodesMatter | swifty_cache/consistent_hash.go:131-177 | for any two sequences of additions and removals that end with the same nodes, without collisions ownership is the same |
| Peers.ClientPicker.HandleWatchEvents | swifty_cache/peers.go:192-216 | the clients become those after observing each event in order; ring members stay clients plus self |
| Peers.ClientPicker.FetchAllServices | swifty_cache/peers.go:220-254 | the clients become exactly the snapshot addresses less self, whatever the order of the two loops; ring members follow |
| Peers.ClientPicker.Set | swifty_cache/peers.go:256-264 | adds one address to clients and ring |
| Peers.ClientPicker.Remove | swifty_cache/peers.go:266-269 | removes one address from clients and ring |
| Peers.ClientPicker.PickPeer | swifty_cache/peers.go:273-288 | a non-empty key always yields self or a present client, the one that owns the key on the ring |
| Peers.PeersRegistered | swifty_cache/peers.go:192-254 | the peers at a revision are the addresses of which the log last says that they are registered, less self and the empty one |
| Peers.StepAgrees | swifty_cache/peers.go:144-216 | each step of log, watch and resync keeps agreement |
| Peers.ViewAgrees | swifty_cache/peers.go:144-254 | over every log and sequence of disconnects and resyncs, once the last resync succeeded the clients are the addresses registered at the last processed revision less self |
| Peers.ObservedRight | swifty_cache/peers.go:192-216 | observing a log from a revision on puts a view right about an address if and only if there is something about it to observe or the view was right about it at that revision |
| Peers.FailedResyncIff | swifty_cache/peers.go:144-226 | after a failed resync, until the next fetch: the view is right about a peer if and only if an event about it has been delivered since, or the clients at the failure were right about it at the revision at which the watch resumed |
| Peers.FailedResyncMisses | swifty_cache/peers.go:144-226 | a run of a picker that was constructed in which that condition fails |
| Framing.PacketBuffer.Write | swifty_rpc/internal/transport/tcp_connection.go:42-46 | appends to the buffer |
| Framing.PacketBuffer.Read | swifty_rpc/internal/transport/tcp_connection.go:48-74 | the resynchronising loop refines one step of the greedy parser |
| Framing.Connection.Read | swifty_rpc/internal/transport/tcp_connection.go:94-113 | drains packets before it reads on; returns what Decode makes of the next packet of the greedy parse of everything received, or, when there is none, the error that ended the connection |
| Framing.ChunkingIrrelevant | swifty_rpc/internal/transport/tcp_connection.go:42-74 | for any split of a byte stream into writes, the packets and the kept bytes are those of one greedy parse of the whole |
| Framing.WireParses | swifty_rpc/internal/transport/tcp_connection.go:48-74 | any concatenation of frames with garbage between them that is free of the magic pair parses to exactly those frames |
| Framing.PacketsDecode | swifty_rpc/internal/protocol/message.go:97-128 | every packet passes the framing checks of Decode; its slices are in range if and only if the frame is shorter than 2^32 bytes, the 32-bit sums wrapping otherwise |
| Framing.AllReceived | swifty_rpc/internal/transport/tcp_connection.go:94-113 | messages sent one after the other, with garbage between them that is free of the magic pair, are all received as they were, in order |
| Framing.ReceivedIff | swifty_rpc/internal/transport/tcp_connection.go:94-113 | a packet is received as a message if and only if it begins with a frame below 2^32 bytes whose parts carry that message |
| Framing.DecodeOnlyFrames | swifty_rpc/internal/protocol/message.go:97-143 | bytes decode to a message if and only if they begin with such a frame |
| Framing.DecodeFrame | swifty_rpc/internal/protocol/message.go:97-128 | header and body bytes are cut out of a frame as they were put in |
| Framing.Encode | swifty_rpc/internal/protocol/message.go:38-81 | fills the buffer in place with magic, lengths, header and body; fails exactly when compression does |
| Framing.RoundTrip | swifty_rpc/internal/protocol/message.go:38-143 | decoding an encoded message returns it, for any inverse pair of header codec and compressor |
| Trie.InsertRepresents | swifty_http/trie.go:39-52 | inserting a route makes the trie represent the list of routes with that one appended |
| Trie.BuildRepresents | swifty_http/trie.go:39-52 | the trie built by any registrations represents exactly those routes |
| Trie.SearchChooses | swifty_http/trie.go:54-73 | search returns the node of the route that the reference choice takes from the list of routes |
| Trie.ChooseSound | swifty_http/trie.go:54-73 | the chosen route is registered and matches |
| Trie.ChooseBest | swifty_http/trie.go:54-105 | if any registered route matches, one is chosen, and it is preferred to every other that matches |
| Trie.SearchSoundComplete | swifty_http/trie.go:54-73 | search finds a node if and only if some registered pattern matches the segments, and that node is of a matching pattern |
| Trie.SearchPrefers | swifty_http/trie.go:93-105 | the one found is first in exact-child-then-insertion order, level by level |
| TrieObject.Node.MatchChild | swifty_http/trie.go:84-91 | the first child with exactly that part |
| TrieObject.Node.Insert | swifty_http/trie.go:39-52 | inserting into the pointer structure in place refines the insertion on values; new nodes are fresh |
| TrieObject.Node.MatchChildren | swifty_http/trie.go:93-105 | exact children first, then the other wildcards, in insertion order |
| TrieObject.Node.Search | swifty_http/trie.go:54-73 | the recursive search over pointers refines the search on values |
| Router.ParsePattern | swifty_http/router.go:40-52 | the loop computes `Parse`: empty items dropped, nothing after an item that begins with `*` |
| Router.ParseRoute | swifty_http/router.go:40-52 | the parts of any pattern form a route: non-empty, slash-free, `*` only at the end |
| Router.ParseCanonical | swifty_http/router.go:59 | parsing the canonical pattern gives the parts back, so spellings share a node |
| Router.CanonicalInjective | swifty_http/router.go:59 | canonical patterns are equal only for equal parts |
| Router.ReadParams | swifty_http/router.go:81-90 | parameter extraction never indexes out of bounds on a found route |
| Router.ParamsBind | swifty_http/router.go:81-90 | each parameter holds the segment or tail matched by the last part of that name, and there are no others |
| Router.SplitBack | swifty_http/router.go:40-41 | the items of a pattern joined by slashes are the pattern again |
| Router.ParamsRebuild | swifty_http/router.go:81-90 | with distinct names and every wildcard named, substituting the parameters back rebuilds the segments that were read |
| Router.ReadWhole | swifty_http/router.go:40-52 | a path is read to its end if and only if nothing follows an item that begins with `*` |
| Router.MatchedWhole | swifty_http/router.go:69-76 | what is read of a path and the path itself are matched by the same routes, for all routes, if and only if nothing follows an item that begins with `*` |
| Router.PathRebuild | swifty_http/router.go:69-90 | substituting the parameters back rebuilds the path, up to repeated slashes, if and only if nothing follows an item that begins with `*` |
| RouterObject.Router.AddRoute | swifty_http/router.go:54-66 | registers one more route: tries and handler table stand for the list of registrations with it appended |
| RouterObject.Router.GetRoute | swifty_http/router.go:68-92 | for any registrations: nothing if no route matches, otherwise the preferred matching route, its parameters, and under its key the handler registered last for it |
| RouterObject.FiledIsLast | swifty_http/router.go:60-65 | the handler filed for a method and route is the last one registered for those parts in any spelling |
| RouterObject.KeyInjective | swifty_http/router.go:60 | handler keys of slash-free method names, such as the seven registered, never collide |
| WebSocket.MaskedBits | swifty_http/websocket.go:438-440 | a bit of an unmasked byte is set if and only if that bit of the byte and of the mask byte at its place modulo 4 differ |
| WebSocket.MaskedUnique | swifty_http/websocket.go:438-440 | no other bytes have those bits |
| WebSocket.Hello | swifty_http/websocket.go:378-443 | the masked text frame of section 5.7 of RFC 6455 is read as Hello |
| WebSocket.CutShort | swifty_http/websocket.go:378-443 | a valid frame cut short anywhere is an end of input, never an invalid frame; which of the two errors is given for every place |
| WebSocket.Misplaced | swifty_http/websocket.go:462-482 | a continuation without a beginning, and a data frame before the last fragment, are refused |
| WebSocket.AnsweredInOrder | swifty_http/websocket.go:204-236 | the peer reads one pong for each ping, with its payload, and a close frame for a close, in order and nothing else |
| WebSocket.ReadAllBounded | swifty_http/websocket.go:204-236 | every message read is within its bound, and nothing is read after a close |
| WebSocket.FrameRoundTrip | swifty_http/websocket.go:378-443 | any validly masked client frame, in any length form that holds its length, is recovered if it is within the limit and refused otherwise |
| WebSocket.FrameInverse | swifty_http/websocket.go:378-443 | a frame is read only off the wire form of a valid masked frame within the limit; what follows stays unread |
| WebSocket.MaskedTwice | swifty_http/websocket.go:438-440 | masking twice with one key is the identity; what it does to each bit is `MaskedBits` |
| WebSocket.Reassembles | swifty_http/websocket.go:448-486 | any fragmentation without interleaved control frames reassembles to the concatenation if that is within the limit, and is refused otherwise |
| WebSocket.DataMessageIff | swifty_http/websocket.go:448-486 | data messages are read exactly off the fragmented messages within the limit |
| WebSocket.MessageBounded | swifty_http/websocket.go:467-482 | a returned message never exceeds the limit, a control message never 125 bytes |
| WebSocket.ControlAmongFragments | swifty_http/websocket.go:460-461 | a ping or pong among fragments: both messages arrive if and only if it comes first or last; a close: the data message arrives if and only if the close comes last |
| WebSocket.ServerFrameReads | swifty_http/websocket.go:488-518 | frames written by the server decode back at the peer, in the shortest length form |
| WebSocket.CloseEchoed | swifty_http/websocket.go:223-224 | a close message is answered by a close frame with its code, the first two bytes with the higher one first, or 1000 if it has none, and no text |
| WebSocket.UnmaskedRefused | swifty_http/websocket.go:404-407 | frames without a mask are refused |
| WebSocket.CloseRoundTrip | swifty_http/websocket.go:570-590 | format then parse is the identity if and only if the code fits 16 bits and the text is valid |
| WebSocket.CloseReformats | swifty_http/websocket.go:570-590 | parse then format is the identity if and only if there is a code and the text is valid |
| WebSocketConn.WSConn.ReadFrameHeader | swifty_http/websocket.go:379-407 | the two header bytes and all refusals that depend on them |
| WebSocketConn.WSConn.ReadExtendedLength | swifty_http/websocket.go:409-422 | the 16- and 64-bit length forms |
| WebSocketConn.WSConn.ReadFrame | swifty_http/websocket.go:378-443 | consumes the input as `ReadFrame` on values says, errors included; its payload is unmasked in the sense of `MaskedBits` |
| WebSocketConn.WSConn.Unmask | swifty_http/websocket.go:438-440 | the in-place loop computes `Masked`, which `MaskedBits` determines bit by bit |
| WebSocketConn.WSConn.ReadMessage | swifty_http/websocket.go:448-486 | the loop computes `ReadMessage` on values and ends on every finite input |
| WebSocketConn.WSConn.Listen | swifty_http/websocket.go:204-236 | hands on exactly the messages of `ReadAll`, answers pings and a close in order, and ends without an error only on a close |
| WebSocketConn.WSConn.WriteFrame | swifty_http/websocket.go:488-518 | writes exactly the unmasked frame of minimal length form |
| SingleFlight.OneFlight | swifty_cache/single_flight.go:41-65 | in every interleaving at most one flight per key is on its way |
| SingleFlight.OneResult | swifty_cache/single_flight.go:45-64 | all who joined a flight return its one result, a recovered panic included, and a value only ever under the key it was set or loaded for; which result it is say `FlightOutcomes.OutcomeCause` and `CauseOutcome` |
| SingleFlight.ResultStays | swifty_cache/single_flight.go:52-61 | a released result never changes |
| SingleFlight.NobodyStranded | swifty_cache/single_flight.go:46-53 | a waiting caller can return, or the leader of its flight has an action to take |
| SingleFlight.ConsultsBounded | swifty_cache/group.go:275-297 | the data source is consulted for a key at most once, plus once for each failed or unkept load and each removal of its entry |
| SingleFlight.CachedIsNotConsulted | swifty_cache/group.go:278-282 | from when a key is cached and no flight is past its check, the source is not consulted as long as nothing is lost |
| SingleFlight.AlwaysInv | swifty_cache/single_flight.go:41-65 | table, flights, callers and values agree after every sequence of atomic steps |
| FlightOutcomes.OutcomeCause | swifty_cache/group.go:275-297 | over every run, the result of a flight is what its leader found cached at its check, or a value that the source delivered and the leader added, or the error that the source delivered, or a panic |
| FlightOutcomes.CauseOutcome | swifty_cache/group.go:275-297 | over every run, each of these makes the result of its flight, for good: a value found or added, an error delivered, a panic |
| FlightOutcomes.OneDelivery | swifty_cache/single_flight.go:41-65 | the source delivers to a caller at most once |
| FlightOutcomes.AnsweredForItsKey | swifty_cache/group.go:154-172 | over every run, a caller whose key is cached is answered with that value at once; any other is led to a flight for its own key and answered for that key |
| FlightOutcomes.CacheIsLatest | swifty_cache/group.go:278-295 | over every run, a key is cached exactly as it was last set or added, unless it was removed since |
| FlightOutcomes.AddsDelivered | swifty_cache/group.go:284-295 | what a leader adds to the cache is what the source delivered to it |
| FlightOutcomes.LoadServed | swifty_cache/group.go:154-297 | a caller that nothing disturbs is answered with what the source delivers, value or error, and a value is cached |
| Breaker.CircuitBreaker.constructor | swifty_rpc/internal/breaker/breaker.go:52-60 | starts closed with empty counts |
| Breaker.CircuitBreaker.Allow | swifty_rpc/internal/breaker/breaker.go:61-87 | refines the step; the answer is `Admits` |
| Breaker.CircuitBreaker.RecordSuccess | swifty_rpc/internal/breaker/breaker.go:88-103 | refines the step of a good outcome |
| Breaker.CircuitBreaker.RecordFailure | swifty_rpc/internal/breaker/breaker.go:104-131 | refines the step of a bad outcome |
| Breaker.AlwaysInv | swifty_rpc/internal/breaker/breaker.go:61-161 | between calls the counts are below the window size, zero unless closed, and the probe flag means half open |
| Breaker.ClosedCounts | swifty_rpc/internal/breaker/breaker.go:94-124 | a breaker has stayed closed since its start if and only if no aligned window of outcomes was bad; its counts are then those of the window under way |
| Breaker.OpensExactly | swifty_rpc/internal/breaker/breaker.go:104-161 | in every run a closed breaker opens exactly on the outcome that completes a window with a failure ratio at or above the threshold, windows being aligned to the start or to the last recovery |
| Breaker.EpisodeLasts | swifty_rpc/internal/breaker/breaker.go:98-161 | from the start, and from every recovery, a breaker stays closed if and only if no window of the outcomes since then is bad |
| Breaker.BeginsNew | swifty_rpc/internal/breaker/breaker.go:139-148 | a breaker that has recovered behaves as a new one |
| Breaker.AdmitsIff | swifty_rpc/internal/breaker/breaker.go:61-87 | after any run: everyone is admitted while it is closed, nobody while a probe is out, and while it is open those later than the timeout after the outcome that opened it, the end of a bad window or a failed probe |
| Breaker.ProbeDecides | swifty_rpc/internal/breaker/breaker.go:98-148 | a failed probe opens the breaker anew from the time of its outcome; a good one closes it as new |
| Breaker.TripsFrom | swifty_rpc/internal/breaker/breaker.go:107-117 | a window is bad if and only if its failures reach the threshold times its size |
| Breaker.OpenHolds | swifty_rpc/internal/breaker/breaker.go:70-76 | open admits nothing until strictly more than the timeout has passed since it opened, then the next call makes it half open |
| Breaker.OneProbe | swifty_rpc/internal/breaker/breaker.go:78-83 | each half-open episode admits exactly one caller, the one that began it, and only an outcome ends it |

## Left out

- The store's locks: a run is a sequence of locked sections, in any order. Taking the low bits of the hash by a mask is written as a remainder. Len, Walk, Bytes, Evictions and Close only read or stop.
- Sizes of level arrays: capacities 1 to 65534, since `cap + 1` wraps at swifty_cache/lru.go:333; bucket counts up to 32768, since `mask + 1` wraps at swifty_cache/lru.go:69.
- The length of a cached value is recorded once with the entry; values are not nil; the clock is after 1970. Runs of the store (`LruStore`) are made of writes that do not wrap: after one that does, the bucket invariant is broken and nothing more is said about that bucket.
- RpcClient: senders, read loop and shutdown are one state machine on values rather than an object, since they interleave; request ids are unbounded; WaitWithContext and WaitWithTimeout are not modelled.
- TCPConnection.Write's loop over partial writes, TLS and the connection pool.
- Framing.Encode: requires frames below 2^32 bytes, because the two lengths are written into 32 bits without a check.
- Framing.RoundTrip: header codec, gzip and body codec are an arbitrary pair of inverse functions.
- Filter.QueryFilterMeans: field names do not begin with `$`, there is no raw `$options`, equality values are scalars, and LIKE subjects are free of newlines; regular expressions outside the ones LIKE produces are not given a meaning; a document is a map from dotted paths to values.
- GroupPipeline.GroupedMeans: every group key is present in every document. How the server sorts rows is an arbitrary function. Accumulators are arbitrary functions of the values of the field, in the order of the documents, except for counting.
- Query: the contents of an or-group are a value, since no code writes into one; OrderBy, Limit, Offset and Select only set or append.
- buildProjection, pagination and the execution of queries against a server.
- WeightedRR.Balancer.Select: instances are positions in the list; 64-bit overflow of sums of weights is not modelled.
- HashRing: traffic counters, GetStats and the lock; hash values are arbitrary integers and collisions are allowed unless a lemma excludes them.
- Peers: NewClient succeeds and closing a client has no effect; addresses are given as the keys without their prefix; logs are lists of events under the prefix.
- RouterObject.Router.AddRoute: method names are the seven that the router's exported methods register (swifty_http/group.go:76-109); the handler is a number, and middleware, context and response are not modelled. `getRoutes` and `travel` only list nodes.
- WebSocket: the handshake, deadlines, the close state of a connection, the heartbeat and failing writes; the mask is exclusive or on numbers, bit by bit. WriteFrame requires an opcode of four bits, which all callers pass.
- SingleFlight: statistics, group registry and the choice between peer and local source inside loadData, which is one consultation here. Closed groups and empty keys, which return an error before anything else, are not modelled.
- Breaker: the failure ratio and the threshold are real numbers, not floating point.
- The Cache wrapper, registries, other balancers, token bucket, rendering, static files, templates, generated code and scripts: they would add only easy members.
