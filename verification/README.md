# The load balancer's shared state, proved

A Dafny 4.11 model of the stateful core of the fiducia load balancer. `dafny verify dfyconfig.toml` checks all of it.
Four pieces of the program are modelled, each in the form the Rust code has.

**The customer idempotency protocol** (`src/proxy.rs`). Any number of workers, each serving one request, run claim,
forward, capture, and complete or abandon against one remote record store. `IdempotencyProtocol` is a timed step system:
workers crash at any point, replies are lost, messages arrive late, leases lapse, and the clock moves as far as the
5-second hop deadline of a waiting worker allows. `IdempotencySafety` shows that every step keeps one invariant,
`IdempotencyTheorems`, `IdempotencyFinality` and `IdempotencyGrants` state what follows over whole runs, and
`IdempotencyReplies` what each client is told. The store is a node that this
repository does not contain; `RecordStore` takes its contract from the test double in `src/proxy.rs`, with increasing
fencing tokens and lapsing leases. `StoredResponse`, `Hex` and `Digests` are the codec, the replay and the hashed byte
strings.

**The forward loop and the route table** (`src/proxy.rs`, `src/table.rs`). `RouteTable` is a class with the source's
fields and methods. `BrainSnapshot` says what a control-plane snapshot means without mentioning the order of its lists;
`SnapshotLoops` holds the loops that compute it. `TableRuns` runs the table's three sources against each other:
seeds, redirect hints and snapshots that were requested some time before they are applied. `RoutedRuns` shows that the
object makes the steps of those runs, and where a keyed request that comes in the middle of one is sent first. `Forward` is the retry loop over a
shared table that other tasks change between any two of its critical sections by the table's own operations (`TableOps`),
against nodes that answer anything;
`ForwardRun` is what it does as a relation, with the theorems; `ForwardSteps` takes each such call to steps of the idempotency
protocol. `RoundRobin` covers the wrapping cursor.

**The revocation gate** (`src/revocation.rs`). `RevocationCache` is the cache as a class. `RevocationGate` is a step
system of concurrent `authorize` calls, one step per mutex section, with cancellation at every await, authority failures,
clock regressions, reference-counted per-key locks, and a history of the authority's calls and answers.
`RevocationSafety` keeps the invariants, `RevocationTheorems` states the promises, `RevocationOutcomes` the exact cause of
each answer, `RevocationProgress` that every call ends, `RevocationRegistry` what becomes of the lock registry; `GateRuns` shows that the cache object makes the
steps that use the cache.

**Keys and paths** (`src/routing.rs`, `src/proxy.rs`). `Percent` is the index-driven decoder, `Splitting` and `Routing` take a
request to its key, `DotSegments` the path guard against the URL parser behind it.

Instants and seconds are natural numbers. `normalize_node_url`, `str::trim`, lossy UTF-8 decoding, the digest and the shard
hash are function-valued parameters; where it matters, normalizing is idempotent, the digest is collision-free and the
shard hash stays in range. JSON bodies are taken as decoded values or as failures.

## What turned out not to hold

- Execution at most once across a client's retries. Two runs forward one request twice: one whose first response was
  transient, so that its claim was released (`IdempotencyGrants.TransientResponseRunsAgain`), and one whose final response
  could not be recorded, so that its lease lapsed (`IdempotencyGrants.LostCompletionRunsAgain`). The exact condition, over all
  runs, is `IdempotencyGrants.GrantedAgainExactly`: after a grant, the next claim for the key is granted, and told to forward,
  exactly if no completion was recorded and the claim was released or its 120-second lease is over, or a completion was
  recorded and its 24-hour retention is over; a claim is released only after a response that is not final, and a completion
  recorded only after one that is. At a single state, once the worker's own message has arrived, the next claim
  forwards exactly if the response was not final (`IdempotencyFinality.NextClaimForwardsExactlyIfTransient`).
- `any_node_excluding` returning nothing only when every member is excluded. The cursor wraps, and the claim
  holds exactly when the scan does not straddle the wrap or the membership divides 2^64
  (`RoundRobin.NoneExactlyWhenSafe`); fairness breaks at the wrap too, exactly as `RoundRobin.FairExactly` says. `Forward.WrapHidesThirdMember` is one undisturbed call that is refused although one
  of three members was never asked; `ForwardRun.GivesUpExactlyAfterAll` says exactly when giving up means that all were.
- An empty lock registry when all calls are over. A call that is cancelled while it waits never releases:
  `RevocationRegistry.CancelledCallLeavesEntry` is a run with one call, no overlap, and an entry left behind. Two overlapping
  releases each see the other's reference and leave the entry too (`RevocationRegistry.OverlappingReleasesLeaveEntry`). Exactly,
  over all runs: a key is registered if and only if its lock was acquired and no later release was by the only holder
  (`RevocationRegistry.RegisteredExactly`), so the registry is empty if and only if every acquisition was followed by
  such a release (`RevocationRegistry.EmptyExactlyWhenAllRemoved`). Mutual exclusion is not affected.
- `abandon` being sent to its key's shard. The body arms of `routing_key_with_body` cover claim and complete only, so abandon
  goes to any node (`Routing.IdempotencyCallRoute`).

## Model

| member | source | states |
|---|---|---|
| IdempotencySafety.RunKeeps | src/proxy.rs:438-525 | In every reachable state of every timed run: each waiting worker is within its hop deadline, a worker in flight owns an uncompleted record whose lease outlasts it, tokens are issued once, every message on the wire belongs to its worker's phase, and every record says the truth about the request that made it |
| IdempotencyTheorems.IdentifiedByHashes | src/proxy.rs:582-600 | In every run a worker's owner is the hash of its org's scope, its record key the owner, a slash and the hashed customer key, its fingerprint the hash of method, target, content type and body with zero bytes between them |
| IdempotencyTheorems.LeaseOutlivesFlight | src/proxy.rs:46-51 | While a mutation is in flight its worker holds the record's current token, and the lease still covers the rest of this call and a whole complete call of four 5-second hops |
| IdempotencyTheorems.OneMutationInFlight | src/proxy.rs:447-470 | At most one request of one org and one customer key has its mutation in flight, whatever crashes and however late messages are |
| IdempotencyTheorems.Fencing | src/proxy.rs:788-857 | A complete or abandon, however late, changes a record only if the record is uncompleted and was created by that worker's own claim under that token, lapsed or not; any other change of a record needs its lease to be over and is its lapse or the next claim for its key under a fresh token. The shared owner string gives no worker power over another's record |
| IdempotencyTheorems.CompletedRecordStands | src/proxy.rs:42-45 | Until its lease is over a completed record stays as it is, and no request with its key has a mutation in flight |
| IdempotencyGrants.CompletionStandsForRetention | src/proxy.rs:42-45 | From the moment a completion is recorded, for the whole 24-hour retention the record stands and holds exactly the stored form of the completing worker's response, and nobody with its key has a mutation in flight |
| IdempotencyGrants.GrantedAgainExactly | src/proxy.rs:447-523 | After a grant, the next claim for the key is granted, and a worker that waits for it told to forward, exactly if the grant is over: never recorded and released or lapsed, or recorded and past its retention; recorded only after a final response, released only after any other |
| IdempotencyGrants.TransientResponseRunsAgain | src/proxy.rs:488-496 | For every request and every transient response there is a run in which two workers forward the request, the first of which released its claim |
| IdempotencyGrants.LostCompletionRunsAgain | src/proxy.rs:509-523 | For every request and every final response there is a run in which two workers forward the request, because the completion got lost and the lease lapsed |
| IdempotencyGrants.LateCompletionIsLost | src/proxy.rs:788-830 | For every request and every final response there is a run in which the completion arrives after the store dropped the lapsed record, and is not recorded |
| IdempotencyGrants.FlightLasts | src/proxy.rs:1029-1044 | For every request there is a run in which its mutation is in flight for four hops of the full five seconds each |
| IdempotencyReplies.FirstClientIsAnsweredItsResponse | src/proxy.rs:498-525 | A client answered from upstream is answered exactly the response its worker captured: marked not stored exactly if it is 5xx, 408 or 429, store-failed exactly if it is final and the complete call brought no usable reply, stored only if the completion was recorded |
| IdempotencyReplies.CaptureTooLargeExactly | src/proxy.rs:472-482 | The 502 for an oversized response is given exactly to the client whose response could not be buffered |
| IdempotencyReplies.UnavailableExactly | src/proxy.rs:739-786 | The 503 for a failed claim is given exactly to the client whose claim call brought no usable reply; the store's own replies never cause it |
| IdempotencyReplies.OthersNeverForwarded | src/proxy.rs:447-460 | A finished client had its mutation forwarded exactly if it is answered from upstream or told that the response was too large; conflicts, replays and refusals never had |
| IdempotencyReplies.InFlightRecordAnswers | src/proxy.rs:859-907 | A claim that meets a live record in flight is told that it is in progress if method, target, content type and body are the record's author's, and a conflict otherwise |
| IdempotencyTheorems.CompletedRecordAnswers | src/proxy.rs:859-907 | A claim that meets a completed record is answered with the replay of the response that record's author captured if method, target, content type and body agree, and with a conflict otherwise |
| IdempotencyTheorems.ReplaysAreGenuine | src/proxy.rs:653-694 | Nobody is ever replayed anything but the exact status, content type and whole body of another request of the same customer, key and payload |
| IdempotencyTheorems.ClaimIsNotRenewed | src/proxy.rs:739-786 | While a claim stays in flight nothing touches its record, so its lease is never prolonged |
| IdempotencyTheorems.CrashFreesKey | src/proxy.rs:46-51 | Two minutes after any instant, a claim for a key that is still under that instant's uncompleted claim is granted with a fresh token |
| IdempotencyFinality.OnlyFinalResponsesLast | src/proxy.rs:484-496 | No run ever records or replays a 5xx, 408 or 429 |
| IdempotencyFinality.NextClaimForwardsExactlyIfTransient | src/proxy.rs:475-507 | In every reachable state, once the complete or abandon that follows a response has arrived, whoever claims the key next forwards exactly if the response was transient or oversized |
| StoredResponse.ReplayIsExact | src/proxy.rs:633-694 | Storing a captured response and replaying it gives back status, textual content type and body exactly if the body is within 32768 bytes, and otherwise the 409; never a part of it |
| StoredResponse.ReplayExactly | src/proxy.rs:653-694 | Whatever a record holds, it is replayed exactly if it was not cut and its hex decodes, with the whole body, the stored status or 200 if that is none, and the stored content type unless it holds control characters; otherwise the 409 is given |
| StoredResponse.ContentTypeKept | src/proxy.rs:633-651 | The stored content type is the original one, and is left out exactly if it holds a byte that is not visible ASCII, a space or a tab |
| StoredResponse.DuplicateReplyExactly | src/proxy.rs:859-907 | For any claim reply at all: it forwards exactly if claimed, is a conflict exactly for a duplicate with another fingerprint, in progress exactly for an uncompleted one with the same, a replay for a completed one whose stored result carries it too, and otherwise 503 |
| StoredResponse.ReplayNeedsMatchingRecord | src/proxy.rs:859-907 | For any claim reply at all, a replay needs a completed record whose metadata and whose stored result carry this request's fingerprint, and its body is all that the stored hex spells |
| Hex.ToHex | src/proxy.rs:941-948 | The loop writes two digits per byte, high half first |
| Hex.HexToBytes | src/proxy.rs:950-964 | The loop decodes pairs of digits in either case, and rejects odd lengths and foreign characters |
| Hex.HexRoundTrip | src/proxy.rs:941-964 | Decoding undoes encoding for all bytes |
| Hex.UnhexedExactly | src/proxy.rs:950-964 | A string decodes to given bytes exactly if lower-casing it gives those bytes' hex |
| Digests.DigestInput | src/revocation.rs:367-378 | The loop feeds the digest the five claims in the source's order, each behind its 8-byte big-endian length |
| Digests.LengthPrefixedInjective | src/revocation.rs:367-378 | The length-prefixed encoding of lists of fields is injective, for lists of any lengths |
| Digests.CacheKeySeparatesIdentities | src/revocation.rs:367-384 | Two token identities share a cache entry exactly if all five claims agree |
| Digests.LengthDenoted | src/revocation.rs:376 | The eight length bytes denote the length, the most significant one first |
| Digests.FingerprintBytes | src/proxy.rs:920-935 | The updates of the fingerprint digest, one after the other, feed it exactly the modelled bytes |
| Digests.RecordKeyIsOwners | src/proxy.rs:582-594 | A record key is the owner string, a slash and the hashed customer key; the owner string is the hash of the scope, `anonymous` or `org:` and the org |
| Digests.FingerprintSeparatesRequests | src/proxy.rs:920-935 | Two requests share a fingerprint exactly if method, target, content type (absent like empty) and body agree |
| Digests.InternalKeySeparatesCustomers | src/proxy.rs:582-595 | Two requests meet on one record exactly if org and customer key agree; anonymous is an org of its own |
| ForwardRun.AtMostOneApplied | src/proxy.rs:1029-1124 | For every method but GET, HEAD and OPTIONS at most four sends are made, all to distinct targets, and at most one may have been applied: the last, whose outcome the client is answered with; "no leader" means that nothing was applied |
| ForwardRun.AnswerExactly | src/proxy.rs:1095-1140 | A served response is passed on unchanged; oversized is answered as such; an ambiguous send is answered as such unless the method is GET, HEAD or OPTIONS, which fail over; nothing follows any other send, and "no leader" comes only after four sends or when nothing is left to choose |
| ForwardRun.EachMemberAtMostOnce | src/proxy.rs:1050-1087 | All targets of a call are distinct, and each later one is a member of the table value in which its predecessor's redirect was judged or from which it was picked |
| Forward.TargetsAreMembers | src/table.rs:103-125 | With arbitrary hints, picks and snapshots of others between hops, each later target was a member of a table that the call really found when it chose it, and is either a member from the start or a routable node of an acceptable snapshot that somebody applied during the call; no redirect introduces a target |
| ForwardRun.NoLeaderOnlyAfterAll | src/proxy.rs:1118-1123 | With a membership of at most `MAX_HOPS` that does not change, the loop gives up only after a send to every member |
| ForwardRun.ServingMemberIsFound | src/proxy.rs:1031-1117 | Then, if some member would serve and no attempt is ambiguous for a mutation or oversized, the request is served whatever the others hint |
| ForwardRun.GivesUpExactlyAfterAll | src/proxy.rs:1059-1087 | With a membership of at most `MAX_HOPS` that does not change, giving up before the last hop means that every member was tried exactly if the last scan did not straddle the wrap or the one member it misses had been tried |
| Forward.WrapHidesThirdMember | src/table.rs:153-166 | With three members and the cursor just before its wrap, one undisturbed call whose first node names the second, which is down, is refused although the third was never asked |
| ForwardSteps.CallIsPath | src/proxy.rs:739-857 | Every forward call of a worker with any method but GET, HEAD and OPTIONS, whatever outcomes its hops have, is exactly a path of one retry per hop but the last, then of the last hop's steps, after which the worker has left the call; only the last hop can deliver the message, and without a leader the message is off the wire |
| Forward.RedirectedLeaderTarget | src/proxy.rs:1126-1136 | A redirect yields the member it spells or nothing; a keyed one corrects its shard's leader, a keyless one changes nothing |
| Forward.NextTarget | src/proxy.rs:1050-1094 | The next target is the redirect's member if it is untried, otherwise the round-robin choice among the untried; the table goes from what it was through the others' operations, the remembered redirect, the others' operations again, and the pick |
| Forward.ForwardWithRedirect | src/proxy.rs:1029-1124 | The loop over a shared table that others change meanwhile makes hops and gives an answer exactly as the relation `Forwards` says; each hop works on the table its predecessor left and others changed by their own operations, and the table left behind is what those operations, its redirects and its picks made of it; a request that is not retried leaves the table alone |
| TableOps.ReachesMembers | src/table.rs:103-125 | Whatever hints, picks and snapshots are applied one after the other, a member that was not there before is a routable node of one of the acceptable snapshots |
| TableOps.Interfere | src/table.rs:107-166 | Running the table's own operations one after the other gives a table that the order-free specifications lead to, keeps it valid, and never undoes hydration |
| Forward.OnlyRedirectsCorrectLeaders | src/proxy.rs:1044-1071 | Left to itself, a call changes no membership and no leader but its own shard's, and that one only to a member that some node named in a redirect; being served corrects nothing |
| Forward.SmallClusterServes | src/proxy.rs:1029-1124 | If nobody applies a snapshot during the call and there are one, two or four members, or three with an unbroken scan, a request that some member would serve is served |
| Forward.RouteRequest | src/proxy.rs:400-436 | The 503 for no route is given exactly by a table that is not hydrated; otherwise the call is a whole forward call that starts at the entry of the leader map for the key's shard or, without a key, at some member |
| RoundRobin.NoneExactlyWhenSafe | src/table.rs:153-166 | "Nothing returned only if every member is excluded" holds for all exclusions exactly at cursors whose scan does not straddle the wrap, or if the membership divides 2^64 |
| RoundRobin.RoundRobinIsFair | src/table.rs:145-166 | Over k times n consecutive exclusion-free calls each of n members is returned exactly k times, if the cursor does not wrap during the calls or n divides 2^64 |
| RoundRobin.FairExactly | src/table.rs:145-166 | For at most 2^64 calls: each member is returned exactly k times if and only if the calls do not cross the wrap, or the wrap falls between two rounds, or n divides 2^64 |
| RouteTable.RouteTable.constructor | src/table.rs:55-85 | Valid seeds, in normal form and without repetitions, are dealt to the shards in turn, which establishes the table invariant |
| RouteTable.RouteTable.LeaderOf | src/table.rs:94-101 | The leader is the leader map's entry for the shard and a member; a hydrated table has one exactly if the shard is configured |
| RouteTable.RouteTable.ValidateNodeHint | src/table.rs:119-125 | The scan finds the member that a URL spells, and nothing exactly if it spells none |
| RouteTable.RouteTable.AcceptLeaderHint | src/table.rs:107-116 | A hint becomes the shard's leader, stamped with its instant, exactly if it spells a member; otherwise nothing changes |
| RouteTable.RouteTable.AnyNodeExcluding | src/table.rs:153-166 | The scan returns the first unexcluded member from the wrapping cursor and moves nothing but the cursor |
| RouteTable.RouteTable.ApplyBrainSnapshotAt | src/table.rs:260-381 | An acceptable snapshot replaces membership, metadata, hints and leaders as the order-free specification says; any other returns 0 and leaves the table unchanged |
| RouteTable.SnapshotKeepsInv | src/table.rs:348-381 | A snapshot keeps members distinct, leaders members and the leader domain all or nothing, and hydration never reverts |
| SnapshotLoops.CollectNodes | src/table.rs:266-311 | The node loop succeeds exactly if every healthy node is named, routable nodes share neither name nor URL and there is one; it then knows the URL of every routable name and every member's metadata |
| SnapshotLoops.TargetOf | src/table.rs:323-332 | A shard's target is its preferred leader if routable, else its first routable replica, else nothing |
| SnapshotLoops.PlaceShards | src/table.rs:313-355 | The shard loop succeeds exactly if every configured shard is placed exactly once on something routable |
| SnapshotLoops.SortUrls | src/table.rs:357-358 | The members are listed in byte order, each once |
| SnapshotLoops.Overlay | src/table.rs:369-376 | A retained hint's leader stays exactly if it is still a member |
| UrlOrder.SortedUnique | src/table.rs:357-358 | A membership has one sorted listing, so the list kept does not depend on the order of the hash map |
| UrlOrder.LessExactly | src/table.rs:357-358 | One byte string precedes another exactly if it is a proper prefix or has the smaller byte at the first difference |
| BrainSnapshot.OrderIrrelevant | src/table.rs:266-380 | Acceptance and the whole resulting table do not depend on the order of the node list or of the shard list |
| BrainSnapshot.HealthyExactly | src/table.rs:269-271 | A node is healthy exactly if its health is the seven letters of the word, each in either case |
| BrainSnapshot.MembersExactly | src/table.rs:268-311 | After an accepted snapshot the members are exactly the normal forms of the healthy nodes' addresses, no two nodes share one, and each member's metadata are its own node's fields, empty where they are left out |
| BrainSnapshot.EveryShardPlaced | src/table.rs:348-355 | By the length check and distinctness alone, an accepted placement names every configured shard |
| TableRuns.RunKeeps | src/table.rs:107-116 | Every reachable table satisfies its invariant, and keeps the instants of exactly the hints no older than the last snapshot's request |
| TableRuns.FreshestSourceWins | src/table.rs:361-376 | With refreshes made one at a time on an advancing clock, a shard's leader is its last hint if that is no older than the last accepted snapshot's request and names a member of it, otherwise that snapshot's target, otherwise the seed dealt to it |
| TableRuns.ReadyTableResolvesEveryShard | src/main.rs:277-294 | Once the table was ready, every shard has a leader that is a member, in every later state |
| TableRuns.AcceptedHintLeads | src/table.rs:107-116 | After an accepted hint its member stays the shard's leader until another hint for the shard or an accepted snapshot comes |
| RoutedRuns.Begin | src/table.rs:55-85 | The constructor makes the first state of a run |
| RoutedRuns.TakeRedirect | src/table.rs:107-116 | Accepting a hint on the object is the redirect step of a run |
| RoutedRuns.TakeSnapshot | src/table.rs:260-381 | Applying a snapshot to the object is the step that ends a refresh |
| RoutedRuns.TakePick | src/table.rs:153-166 | A scan of the object is the pick step of a run |
| RoutedRuns.KeyedCall | src/proxy.rs:400-436 | A keyed request that finds the table in any state of a run is first sent to its shard's last hint if that is no older than the last accepted snapshot's request and names a member of it, otherwise to that snapshot's target, otherwise to the seed dealt to the shard |
| RevocationCache.RevocationCache.Find | src/revocation.rs:87-96 | A reading behind the high-water mark is refused; otherwise the mark advances and the answer is fresh exactly if the entry is no older than the budget |
| RevocationCache.RevocationCache.constructor | src/revocation.rs:77-84 | A new cache is empty, its mark is 0, and a budget or capacity of 0 is taken as 1, any other as it is |
| RevocationCache.RevocationCache.FindOldest | src/revocation.rs:105-110 | The victim was observed no later than any other entry |
| RevocationCache.RevocationCache.Apply | src/revocation.rs:102-122 | A refused reading changes nothing; otherwise the answer is stored, a new key in a full cache costs one oldest entry, and the cache stays within capacity with no entry ahead of the mark |
| RevocationSafety.RunKeeps | src/revocation.rs:275-358 | In every reachable state the cache is what the log of answers and evictions says, lock objects belong to one key each, and every outcome rests on the authority's answers |
| RevocationTheorems.AllowedOnlyIfCleared | src/revocation.rs:275-334 | A request is allowed only if the authority cleared this very key no more than one freshness budget earlier |
| RevocationTheorems.RevocationLagIsBounded | src/revocation.rs:275-334 | If the authority is truthful and a caller's clock runs ahead of the authority's by at most the skew, a token revoked from instant T on is never allowed at or after T plus the skew plus the budget, over every interleaving; with no skew the bound is the budget alone |
| RevocationTheorems.CacheIsHistory | src/revocation.rs:102-130 | Every cached decision is an answer the authority gave for that key at that instant, not ahead of the mark; the cache never exceeds its capacity |
| RevocationTheorems.SingleFlight | src/revocation.rs:283-293 | All active users of a key hold the one lock object in the registry, users of different keys hold different ones, and one user at most is inside, cancellations and delayed reference drops included |
| RevocationRegistry.ReleaseRemovesExactlyWhenLast | src/revocation.rs:352-357 | A release removes the registry entry exactly if its caller is the only holder of the lock |
| RevocationRegistry.RegisteredExactly | src/revocation.rs:343-357 | In every run a key is registered exactly if some call acquired its lock and no sole holder has released it since |
| RevocationRegistry.EmptyExactlyWhenAllRemoved | src/revocation.rs:283-293 | The registry is empty exactly if every acquisition was followed by a release of a sole holder |
| RevocationRegistry.CancelledCallLeavesEntry | src/revocation.rs:283-292 | From every start there is a run of one call, cancelled while it waits for the lock, after which all calls are over and its key is still registered |
| RevocationRegistry.OverlappingReleasesLeaveEntry | src/revocation.rs:352-357 | After two overlapping releases by a key's users the entry is still registered |
| RevocationTheorems.SecondCallNeedsReason | src/revocation.rs:283-334 | Between two consecutive authority calls for a key the first ended, and if its answer was stored and not evicted, the newest stored answer was older than the budget |
| RevocationTheorems.EvictionNeedsCapacity | src/revocation.rs:104-113 | An entry observed at t is evicted only when at least `capacity` other keys were observed at or after t |
| RevocationTheorems.ObservationsAdvance | src/revocation.rs:102-130 | Observation times never go back |
| RevocationOutcomes.LookupConcludes | src/revocation.rs:275-294 | In every run, both lookups: a clock behind the mark is refused and changes nothing; otherwise the mark moves to it, an entry within the budget allows if it is a clearance and revokes if it is a denial, and without one the call goes on |
| RevocationOutcomes.RefreshStartConcludes | src/revocation.rs:296-305 | The authority is called exactly if the clock is not behind the mark, which moves to it |
| RevocationOutcomes.AnswerConcludes | src/revocation.rs:234-251 | No reply in time, an error and a malformed reply end the call as timed out, failed and failed; a revocation with target, generation and future expiry denies and a clearance with none of them allows |
| RevocationOutcomes.AppliedReplyConcludes | src/revocation.rs:315-334 | A proper reply that is applied under a clock not behind the mark concludes the call as revoked exactly if the reply says so, as allowed otherwise, and stores that decision at the call's instant |
| RevocationOutcomes.ConclusionStands | src/revocation.rs:285-294 | What a call concluded is what it ends with |
| RevocationOutcomes.RevokedOnlyIfDenied | src/revocation.rs:275-334 | A call ends as revoked only on a denial of this very key by the authority no more than one budget earlier |
| RevocationOutcomes.RefreshRefusedExactly | src/revocation.rs:307-314 | A call ends as timed out, or as failed, exactly if its own call to the authority did |
| RevocationOutcomes.ClockRegressionExactly | src/revocation.rs:275-334 | A call ends as a clock regression exactly if one of its readings was behind the mark |
| RevocationOutcomes.ClockNeverGoesBack | src/revocation.rs:123-130 | Once some call's reading was accepted, every later reading behind it is refused, whoever makes it |
| RevocationProgress.LockHeldExactly | src/revocation.rs:283-292 | In every run a key lock is held exactly while some call is between taking it and dropping its guard |
| RevocationProgress.NoDeadlock | src/revocation.rs:275-294 | In every reachable state a call that is not over can move, or waits for a lock whose holder can move, whatever the authority does |
| RevocationProgress.CallsAreShort | src/revocation.rs:275-294 | No call makes more than ten steps, so with the above every call comes to an end once its turn always comes |
| RevocationProgress.ReleasedExactly | src/revocation.rs:283-294 | A call that acquired its key's lock and is over came to its release exactly if it has an outcome; a cancelled one never did |
| GateRuns.TakeLookup | src/revocation.rs:275-294 | A lookup of the cache object is the lookup step of the gate, and concludes the same |
| GateRuns.TakeRefreshStart | src/revocation.rs:296-305 | Advancing the object's mark is the gate's step to the authority |
| GateRuns.TakeApply | src/revocation.rs:315-334 | Storing the answer in the object is the gate's apply step, the evicted entry included |
| Percent.PercentDecode | src/routing.rs:171-199 | The index-driven loop computes the recursive decoding, stray percent signs kept and both digit cases accepted |
| Percent.EverySpellingDecodes | src/routing.rs:158-199 | Every way to write a byte string, each byte literally or as an escape in either case, and a space as `+` in a query, decodes to it |
| Percent.OddBytesDecode | src/routing.rs:171-199 | After any spelled text, a percent sign without two hex digits behind it stands for itself, and a plus sign for a space in a query and for itself in a path |
| Percent.EncodeDecode | src/routing.rs:158-199 | Decoding is a left inverse of every percent-encoding that escapes the syntax, for all byte strings in both modes |
| Routing.EverySpellingRoutesByItsKey | src/routing.rs:52-154 | A request of one of the literal shapes (rate limits, cron schedules, elections by path segment; `key` and `name` families by query; claims, completions, counters and `name` families by body) is routed by the key it spells there, as `\x01org\x01key` |
| Routing.CoordinatorsAreShared | src/routing.rs:66-95 | Locks and semaphores are routed by the lock coordinator's key and services by the discovery key, whatever the org |
| Routing.KeylessExactly | src/routing.rs:52-133 | A request has no routing key exactly if it has none of the shapes, or its query or body lacks the name its shape asks for |
| Routing.SegmentsLaws | src/routing.rs:57-62 | A slash separates segments and empty ones do not exist |
| Routing.ScopedKeysAreDistinct | src/routing.rs:8-13 | For org ids without control characters, scoped keys agree exactly if org and key agree |
| Routing.SpellingsMeet | src/routing.rs:52-133 | Two verified requests, on whatever of those shapes and in whatever spellings, have one routing key exactly if one org names one key, and then one shard |
| Routing.IdempotencyCallRoute | src/routing.rs:114-117 | Claim and complete are routed by the key in their body; abandon has no key and goes to any node |
| Splitting.SplitJoin | src/routing.rs:57-62 | Splitting on a separator is the only way to take a joined text apart |
| Splitting.SplitAtSeparator | src/routing.rs:57-62 | Each occurrence of the separator is a cut |
| DotSegments.RefusedExactly | src/proxy.rs:237-244 | The guard's six spellings, in any case, are exactly the segments of one or two dots each written plainly or percent-encoded |
| DotSegments.DoubleDotLaw | src/proxy.rs:224-236 | In the parser behind the guard a double dot takes the segment before it away and vanishes at the root; last, it leaves an empty segment |
| DotSegments.SingleDotLaw | src/proxy.rs:224-236 | There a single dot vanishes, or leaves an empty segment if it is last, and a path without dots stays |
| DotSegments.GuardIsExact | src/proxy.rs:224-244 | The parser leaves a slash-rooted path alone exactly if the guard finds no dot segment, so the authorized path is the requested path |

## Left out

- The bodies and headers of the error responses that the load balancer makes itself: only their kind, and for a forwarded mutation without a leader the status 502, are modelled.
- HTTP and TLS clients and servers, streaming, header copying and stripping, health endpoints, logging, environment variables: plumbing; of the timeouts only the 5-second hop deadline is kept.
- `forward_once` and `classify_upstream_response`: an attempt's outcome is an arbitrary value of the outcome type, so the parsing of status, headers and JSON that produces it is not modelled.
- SHA-256, FNV-1a and the `fiducia_routing` and `fiducia_interfaces` crates: external; replaced by a collision-free digest, an arbitrary hash into the shards and the scoped form that `src/routing.rs` documents. Distinctness of scoped keys is stated for verified org ids; without an org the raw key is used and is not kept apart from a scoped one.
- `normalize_node_url`, `str::trim` and lossy UTF-8: function parameters; keys are taken to be fixed points of the lossy decoding.
- Validation of the `Idempotency-Key` header (trimming, emptiness, length, control characters): easy members; a request carries the trimmed key.
- The record store itself: a remote node. Its contract is the test double's, to which leases that lapse at any time after their end and fresh tokens are added; like the double, complete checks owner and token, abandon checks the token and refuses completed records, and neither looks at the lease.
- A worker's forwarded mutation may still be applied by a node after the worker gave up or crashed; the model bounds what the load balancer sends, not what nodes do later.
- `record_region_request`, the `snapshot` debug view and the region metrics: counters that nothing else reads.
- The route-scope matrix and `src/auth.rs`: a finite table and library plumbing; only the fact that org ids hold no control characters is used.
- The URL parser's percent-encoding of other characters, backslashes, and its host and query states: only the dot-segment removal of its path state is modelled, on paths already split at slashes.
- The gate's lock registry and the `authorize` flow are modelled on values in a step system, one step per mutex section, instead of as a class: the interleavings are the point, and sequential methods would hide them.
- The worker side of the idempotency flow is a step system for the same reason; its forward calls appear as hops that may be retried, which `ForwardSteps.CallIsPath` justifies for calls during which the clock stands still; between hops it may move up to the deadline.
- Overlapping refreshes and two events at one clock reading are outside the table's runs: one background loop makes the refreshes, one after the other.
- No bound is put on how long a refused or rejected snapshot leaves stale leaders in place; such leaders are corrected by redirects only.
