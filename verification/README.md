# PingSIX: verified models of the gateway's stateful cores

PingSIX is an API gateway. Most of it is plumbing around a proxy library; what can go wrong quietly sits in a few
small algorithms that keep state: rate and concurrency limiters over a bounded, evicting map, a circuit breaker,
configuration fingerprints, node addresses, a single-flight DNS resolver, bounded writers, log rotation and the
readiness gate. This project models those algorithms in Dafny and proves what they are for.

`dafny verify dfyconfig.toml` checks everything.

## How it is laid out

| file | what it models |
|---|---|
| `LimiterShards.dfy`, `Limiting.dfy` | the recency index of two inverse maps, and the capacity-bounded shard over it |
| `LimitCount.dfy` | sliding-window counting over sharded, evicting histories |
| `LimitReq.dfy` | the leaky bucket, alone and over runs with eviction |
| `LimitConn.dfy` | the concurrency limiter as a protocol of any number of requests |
| `ApiBreaker.dfy` | status-code bit sets, the LRU of breakers, the breaker |
| `CanonicalJson.dfy`, `Fingerprint.dfy` | the hashed stream of a JSON value; upstream and route fingerprints |
| `Node.dfy` | node addresses, their order, and node maps |
| `Schema.dfy` | edit distance and typo suggestions |
| `ProxyMirror.dfy` | the single-flight resolver and the mirror body queue |
| `Logging.dfy`, `FileLogger.dfy` | log rotation; the log writer thread and body buffers |
| `Status.dfy`, `StatusHistory.dfy`, `EtcdSync.dfy` | the readiness store, the same read off its whole history, and the etcd sync loop that feeds it |
| `Sorting.dfy`, `Texts.dfy`, `Decimal.dfy`, `Arithmetic.dfy`, `Wrappers.dfy` | sorting, strings as UTF-8 bytes, decimals, options |

Objects that the program updates in place are classes whose methods are tied to functions on values
(`Shard.AdmitKey` to `Admit`, `StatusStore.SyncSucceeded` to `Next`, and so on); what the program promises is then
proved about those functions, over all runs. Concurrency is a step relation over atomic actions: `LimitConn.Step`,
`ProxyMirror.Next`, `FileLogger.Next`. Clocks, hash functions, digests, lookup results and cancellations are
arguments, so every statement holds for all of them. Seconds and excess of the leaky bucket are reals.

Where a bound in a statement comes from the program's own configuration checks it is written as a subset type or a
`requires`: a sliding `count` below 4096 (`src/plugins/limit_count.rs:384-397`), `rate > 0`, `conn >= 1`,
`failures >= 1`.

## Where the program falls short of its own documentation

* **Omitted port and explicit default port.** `src/config/resources.rs:641-643` promises that writing the scheme's
  default port explicitly never changes a fingerprint. Nodes are sorted by the configured port, an omitted one
  counting as 0, and only then projected with the effective port, so the promise fails: `DefaultPortCounterexample`.
  `FingerprintShowsDefaultPort` says exactly when it holds, `ExplicitDefaultPortAndHealth` says it for health checks
  in one line, and `DistinctHostsHideDefaultPorts` gives the simple case where it always does.
* **Deterministic node lists.** `src/config/node.rs:310-313` promises that sorting makes the map form deterministic.
  The sort key drops the brackets of an IPv6 host but the node keeps them, so `[::1]` and `[[::1]]` tie:
  `DoubleBracketsAlias`; `DeterministicIffNoAliases` says that such ties are the only exception. The sort keys, and
  so the fingerprints, are deterministic always (`OrderMetShowsNoKeys`, `NodeOrderDoesNotShow`).
* **Clock readings before the lock.** The limiters read the clock before they lock the shard
  (`src/plugins/limit_count.rs:826-829`, `src/plugins/limit_req.rs:209-215`), so a reading can be overtaken and arrive
  behind a later one. What they decide is stated for readings in any order, and each promise with the exact condition
  under which it survives:
  * limit-req: departures stay 1/rate apart, and the envelope `rate * elapsed + burst + 1` is kept from any point on,
    exactly when the readings of the *passed* requests ascend (`DeparturesAreSpaced`, `EnvelopeIffAscending`); the
    readings of rejected ones do not matter. `SpacingNeedsClockOrder` and `EnvelopeNeedsClockOrder` are inputs that
    break them; in the second, four requests pass at once where three may.
  * limit-count: the window a request is counted in is right exactly when no inverted pair of readings straddles the
    edge of the window and no live event has been dropped at a later reading (`ExactIff`, `RunExactIff`). The first
    error refuses too much (`AgreementNeedsClockOrder`, an inversion of one tick). The second lets too much through
    (`LimitNeedsClockOrder`, also one tick: four pass within a window that allows three); `OverAdmitsIffForgets` says
    when, and `WindowFillsTo` by how much.
* **Concurrency per key.** `src/plugins/limit_conn.rs:3-7` promises a limit for each key. A counter is fetched and only
  then incremented (lines 414-415); in between it counts as idle, and a sweep for another key can retire it, so that the
  next request for the key is given a second counter: `SweptOutExceedsCeiling`, a run in which two requests hold a key
  that allows one. `KeyStaysBelowCeiling` shows that nothing else breaks the promise.
* **Rotation without a log file** reports an error but has already moved every backup up and dropped the last one
  (`FailedRotationStillShifts`).
* **Readiness.** The reason `config_invalid` is never given (`ReadinessReasons`).

Two situations of the readiness store are possible for callers in general but not in etcd mode, where the sync loop alone
reports connections and the preparation worker beside it only reports rejected candidates and publications: a degraded
instance without a reason (`DegradedWithoutReason`; never under the loop, `SyncDegradationHasReason`) and a reconnect
that raises no fence because the connection flag was reported first (`FlagFirstRaisesNoFence`; never under the loop,
`SyncReconnectRaisesFence`).

## Model

| member | source | states |
|---|---|---|
| LimiterShards.MapsInverse | src/plugins/limiter_shards.rs:31-35 | token-to-key and key-to-token maps are inverse to one another |
| LimiterShards.KeysDistinct | src/plugins/limiter_shards.rs:37-55 | the recency order never lists a key twice |
| LimiterShards.TouchFacts | src/plugins/limiter_shards.rs:44-54 | a touch moves the key behind all others and replaces its token in both maps |
| LimiterShards.PopFacts | src/plugins/limiter_shards.rs:57-61 | the least token belongs to the least recently touched key, and removing it removes that key from both maps |
| LimiterShards.TouchOrder.Touch | src/plugins/limiter_shards.rs:44-54 | the two maps refine a duplicate-free sequence; touch moves the key to its end |
| LimiterShards.TouchOrder.PopOldest | src/plugins/limiter_shards.rs:57-61 | returns and removes the head of that sequence, or nothing |
| LimiterShards.TouchOrder.Restore | src/plugins/limiter_shards.rs:64-67 | puts a popped entry back in front with its former token |
| Limiting.EvictablePrefixIsLongest | src/plugins/limiting.rs:299-313 | the counted prefix is evictable throughout and cannot be extended within the cap |
| Limiting.SweepRestoreExact | src/plugins/limiting.rs:299-313 | a restoring sweep removes exactly the longest evictable prefix, up to the budget, and nothing else changes |
| Limiting.SweepPushBackExact | src/plugins/limiting.rs:299-313 | a push-back sweep removes exactly the evictable keys among those examined; survivors follow the unexamined keys in order, or rotate when the budget exceeds the shard |
| Limiting.SweepSound | src/plugins/limiting.rs:299-313 | no entry failing the predicate is removed and no value changes |
| Limiting.AdmitKeepsBounds | src/plugins/limiting.rs:323-341 | one admission keeps at most 255 regular keys and 256 entries, tracks exactly the stored keys, keeps residents in their slot, and makes the slot most recent |
| Limiting.OwnSlotIffRoom | src/plugins/limiting.rs:329-338 | a new key gets its own slot iff the shard is not full or its sweep takes out enough: the evictable prefix when restoring, the evictable ones of the first eight when pushing back |
| Limiting.TwoIdleMakeRoom | src/plugins/limiting.rs:315-341 | two evictable entries at the head of the order are always enough |
| Limiting.NeverOverflowsIffRoom | src/plugins/limiting.rs:315-341 | over any run a key never overflows iff there is room at each of its admissions |
| Limiting.OrderIsRecency | src/plugins/limiting.rs:299-341 | when misses are restored the order lists slots by their last admission, so sweeps look at the longest idle |
| Limiting.OtherSlot | src/plugins/limiting.rs:315-341 | admission leaves another slot's entry alone or evicts it, never alters it |
| Limiting.OwnSlot | src/plugins/limiting.rs:315-341 | a key admitted to its own slot finds its former entry |
| Limiting.FewKeysFit | src/plugins/limiting.rs:329-338 | while at most 255 distinct keys come up, each gets its own slot |
| Limiting.RunStaysWithinBounds | src/plugins/limiter_shards.rs:12-20 | after any sequence of admissions, with any predicates, the bounds hold |
| Limiting.Shard.EvictOldest | src/plugins/limiting.rs:290-294 | drops the least recently used entry from index and map, or does nothing |
| Limiting.Shard.ExamineOldest | src/plugins/limiting.rs:301-311 | one pass of the sweep loop, on either policy for misses |
| Limiting.Shard.SweepOldest | src/plugins/limiting.rs:299-313 | the budgeted loop over the two maps is the sweep of the recency sequence |
| Limiting.Shard.AdmitKey | src/plugins/limiting.rs:323-341 | the admission procedure over the two maps is the admission of the recency sequence |
| LimitCount.SlidingWindow.Prune | src/plugins/limit_count.rs:495-504 | drops the leading expired events and no others |
| LimitCount.SlidingWindow.Observe | src/plugins/limit_count.rs:507-514 | prunes, makes room under the cap, records, and returns the occupancy |
| LimitCount.CheckRateLimit | src/plugins/limit_count.rs:803-840 | decision, count and remaining quota for both window types, in the group's store or the plugin's own under the namespaced key, and the shard left behind |
| LimitCount.StorageKeysApart | src/plugins/limit_count.rs:734-747 | keys of one configuration stay apart under the group name, which a group's own store does not add |
| LimitCount.StaleIffNoWindowCares | src/plugins/limit_count.rs:517-527 | a history may be evicted iff no window that can be configured still counts its latest event |
| LimitCount.TraceStoresEnd | src/plugins/limit_count.rs:488-515 | in any order of readings, a slot, the overflow slot included, stores the end of the full history of what is sent to it |
| LimitCount.MissingIsExcused | src/plugins/limit_count.rs:495-527 | what pruning, the cap or a stale sweep has dropped is, at a reading not behind the shard, expired, before an expired event, or beyond the cap |
| LimitCount.RunIsTrace | src/plugins/limit_count.rs:532-543 | over every run, a slot changes only by recording what is sent to it and by stale eviction |
| LimitCount.ExactIff | src/plugins/limit_count.rs:495-514 | the window kept is that of the full history iff no inverted pair straddles its edge and no live event was dropped |
| LimitCount.RunExactIff | src/plugins/limit_count.rs:488-543 | the same for every request of every run, whatever slot it is sent to; for a reading not behind its shard, iff no inverted pair straddles the edge |
| LimitCount.AgreesWithUnbounded | src/plugins/limit_count.rs:488-543 | over every run with other keys, eviction, the cap and any order of readings, a request whose window is exact is limited exactly when the full history of its slot says so |
| LimitCount.OwnOccupancy | src/plugins/limit_count.rs:532-543 | for a key never sent to the overflow slot that is the full history of the key |
| LimitCount.InOrderIsExact | src/plugins/limit_count.rs:488-543 | in clock order every window is exact |
| LimitCount.NeverOverflowedIffRoom | src/plugins/limit_count.rs:532-543 | a key never overflows iff at each of its requests the shard has room or its oldest histories are stale |
| LimitCount.FewKeysNeverOverflow | src/plugins/limit_count.rs:532-543 | with at most 255 distinct keys in a shard no key overflows |
| LimitCount.OverAdmitsIffForgets | src/plugins/limit_count.rs:495-514 | with nothing straddling, a request passes under some limit that forbids it iff a live event was dropped, which takes a reading behind its shard |
| LimitCount.AtMostCountPerWindow | src/plugins/limit_count.rs:803-840 | at most `count` of the requests sent to one slot pass in any window, wherever it is placed, if none finds a live event dropped: one key, or all overflowed keys of a shard together |
| LimitCount.InOrderIsHeldTo | src/plugins/limit_count.rs:803-840 | clock order is enough for that |
| LimitCount.WindowFillsTo | src/plugins/limit_count.rs:803-840 | filling the window of a slot that ends at a reading brings the passes in it to exactly the limit, plus the live events in excess of those kept, less the events ahead, if none in it was refused before; the next is refused |
| LimitCount.AgreementNeedsClockOrder | src/plugins/limit_count.rs:826-829 | an inversion of one tick after which a request is refused that the full history allows |
| LimitCount.LimitNeedsClockOrder | src/plugins/limit_count.rs:826-829 | an inversion of one tick after which four requests pass in a window that allows three |
| LimitReq.Bucket.BucketIncoming | src/plugins/limit_req.rs:99-115 | one request against a bucket; only an accepted one moves the anchor |
| LimitReq.RequestFilter | src/plugins/limit_req.rs:198-254 | creation or step of the admitted bucket, and how long the request is held |
| LimitReq.StepIsVirtualScheduling | src/plugins/limit_req.rs:77-115 | a step is virtual scheduling against the drain line at the later of reading and anchor; a reading behind the anchor takes the level back |
| LimitReq.DelayReachesLevel | src/plugins/limit_req.rs:214-254 | a passed request, in any slot and creating its bucket or not, is held until the drain line reaches the level it leaves |
| LimitReq.DrainedIffBelow | src/plugins/limit_req.rs:217-221 | a bucket may be evicted iff nothing of it is left above the drain line |
| LimitReq.PassesIffConforms | src/plugins/limit_req.rs:77-115 | for readings in any order, a request passes iff no earlier passed one has seen more than rate times corrected time plus burst + 1 passes since |
| LimitReq.PassesIffEnvelopeAdmits | src/plugins/limit_req.rs:77-115 | with passed readings ascending, it passes iff the envelope on the clock as read admits it |
| LimitReq.ConsecutiveDepartures | src/plugins/limit_req.rs:77-115 | consecutive departures are 1/rate apart iff their readings are in order, and closer by exactly the inversion otherwise |
| LimitReq.DeparturesAreSpaced | src/plugins/limit_req.rs:77-115 | all departures are at least 1/rate apart iff the readings of passed requests ascend, whatever was rejected in between |
| LimitReq.EnvelopeIffAscending | src/plugins/limit_req.rs:77-115 | from every point on a bucket stays within rate times elapsed time plus burst + 1 iff the readings of passed requests ascend |
| LimitReq.RejectionsLeaveNoTrace | src/plugins/limit_req.rs:92-98 | deleting all rejected requests changes neither the bucket nor the next outcome |
| LimitReq.SpacedAcrossEvictions | src/plugins/limit_req.rs:214-243 | over any run of a shard, two passed requests of a slot, the overflow slot included, leave at least 1/rate apart for each pass between them that created no bucket, if no passed request of the slot is behind an earlier passed one or behind one that evicted the bucket |
| LimitReq.EnvelopeAcrossEvictions | src/plugins/limit_req.rs:214-243 | under the same condition the passes of a slot since any passed request, less bucket creations, stay within rate times elapsed time plus burst |
| LimitReq.OwnSlotServesKey | src/plugins/limit_req.rs:214-219 | a slot of its own serves the requests of its key and no others |
| LimitReq.ClockOrderIsSlotOrder | src/plugins/limit_req.rs:214-243 | clock order over the shard is enough for that |
| LimitReq.EvictionAheadBreaksEnvelope | src/plugins/limit_req.rs:219-227 | a bucket evicted at a reading ahead of its slot's own lets six pass where four may |
| LimitReq.NeverOverflowedIffRoom | src/plugins/limit_req.rs:219-227 | a key never overflows iff at each of its requests the shard has room or its oldest buckets have drained |
| LimitReq.FewKeysNeverOverflow | src/plugins/limit_req.rs:219-227 | with at most 255 distinct keys in the shard no key overflows |
| LimitReq.SpacingNeedsClockOrder | src/plugins/limit_req.rs:209-215 | an overtaken reading after which departures are not spaced |
| LimitReq.EnvelopeNeedsClockOrder | src/plugins/limit_req.rs:209-215 | an overtaken reading after which four requests have passed in no time where three may |
| LimitConn.DecisionCountsRounds | src/plugins/limit_conn.rs:97-107 | beyond the burst a request is rejected, with no full round of `conn` ahead it passes, else it waits one unit for each round |
| LimitConn.OwnDelayDoesNotShow | src/plugins/limit_conn.rs:147-153 | the latency fed back is the service time, whatever delay the limiter imposed, and never negative |
| LimitConn.ConnGuard.Release | src/plugins/limit_conn.rs:140-161 | gives the slot back once; averages the latency, without its own delay, into the unit delay when asked |
| LimitConn.ConnGuard.Drop | src/plugins/limit_conn.rs:168-173 | gives the slot back if still held, without a latency sample |
| LimitConn.ConnGuard.Leave | src/plugins/limit_conn.rs:163-165 | leaving and then going out of scope gives back one slot and samples once |
| LimitConn.StepKeeps | src/plugins/limit_conn.rs:394-468 | each counter equals unreleased guards plus undecided increments, after every action of every request |
| LimitConn.Run | src/plugins/limit_conn.rs:362-468 | the same after every run, with lookups that evict and overflow |
| LimitConn.CountsReturnToZero | src/plugins/limit_conn.rs:117-119 | once every request has ended, by pass, delay, cancellation, rejection or logging, every counter is 0 |
| LimitConn.RejectedIffFull | src/plugins/limit_conn.rs:97-107 | a request is rejected iff at least conn + burst other slots were taken when it incremented |
| LimitConn.DecisionTakesEffect | src/plugins/limit_conn.rs:418-446 | a rejected request gives its slot back at once, a delayed one sleeps holding it, the others go on with a guard |
| LimitConn.GuardsStayBelowCeiling | src/plugins/limit_conn.rs:412-446 | if all users of a counter keep conn + burst within a ceiling, no interleaving exceeds it in guards |
| LimitConn.LookupFindsStored | src/plugins/limit_conn.rs:362-382 | a lookup of a stored key finds the counter stored for it |
| LimitConn.OwnCounterIffRoom | src/plugins/limit_conn.rs:362-373 | a key gets a slot of its own iff it is stored, the shard is not full, or retiring what nobody holds of the oldest eight makes room |
| LimitConn.HeldCounterStays | src/plugins/limit_conn.rs:362-373 | while a counter is held it stays in its slot, whatever is looked up |
| LimitConn.LookupYieldsStored | src/plugins/limit_conn.rs:362-382 | so every lookup admitted to that slot, the overflow slot included, yields it |
| LimitConn.AdmittedHoldsEveryLimit | src/plugins/limit_conn.rs:412-446 | an admitted request holds one guard for every limit, on a counter of that limit's key or of the overflow slot |
| LimitConn.SlotStaysBelowCeiling | src/plugins/limit_conn.rs:362-446 | the same for all counters a slot has ever had, unless its counter is swept out between being fetched and being incremented |
| LimitConn.KeyStaysBelowCeiling | src/plugins/limit_conn.rs:1-7 | if every request allows a key at most a ceiling, then under that condition no interleaving leaves more guards in the slot of the key |
| LimitConn.SweptOutExceedsCeiling | src/plugins/limit_conn.rs:414-415 | a run without that condition in which every request allows one and two hold the key |
| LimitConn.EveryRequestEnds | src/plugins/limit_conn.rs:394-468 | a request that has not ended can act, and each action brings its end nearer |
| ApiBreaker.StatusCodeSet.FromStatuses | src/plugins/api_breaker.rs:53-62 | the bit words hold exactly the listed statuses below 640 |
| ApiBreaker.SetBitTests | src/plugins/api_breaker.rs:58-68 | setting a bit of a word adds that code and no other |
| ApiBreaker.BreakerStates.Entry | src/plugins/api_breaker.rs:106-112 | access by check, eviction, touch and insertion is one LRU access |
| ApiBreaker.ByLastUseAscends | src/plugins/api_breaker.rs:96-100 | the reference order lists keys by their last use |
| ApiBreaker.ExactLru | src/plugins/api_breaker.rs:94-113 | after any uses the residents are precisely the 1024 most recently used distinct keys, each as its last use left it |
| ApiBreaker.StateIsHistory | src/plugins/api_breaker.rs:388-414 | counters and trip time are those of the response history since the last reset |
| ApiBreaker.WindowDoubles | src/plugins/api_breaker.rs:125-131 | the window is 2 s through the first batch of failures and doubles with each further one, up to the bound or the largest exponent |
| ApiBreaker.OpenIffWithinWindow | src/plugins/api_breaker.rs:320-335 | open iff a batch of failures completed and its window min(2^k, max) still lasts |
| ApiBreaker.TrafficIsUses | src/plugins/api_breaker.rs:320-390 | checks and responses of many keys use the map as an exact LRU |
| ApiBreaker.OpenIffSeenHistory | src/plugins/api_breaker.rs:320-414 | over every run a key is open exactly when its responses since its breaker was last created say so, whatever other keys do |
| ApiBreaker.OpenIffOwnHistory | src/plugins/api_breaker.rs:320-414 | a key whose breaker is not evicted between its uses is open exactly when its own responses say so |
| ApiBreaker.NeverLostIffRecent | src/plugins/api_breaker.rs:94-113 | that holds exactly when at every later use the key is among the 1024 most recently used |
| ApiBreaker.FewKeysNeverLost | src/plugins/api_breaker.rs:94-113 | with at most 1024 keys no breaker is evicted between uses |
| ApiBreaker.ClosesIffResets | src/plugins/api_breaker.rs:403-413 | a tripped breaker closes iff the last `successes` healthy responses came with no unhealthy one between |
| ApiBreaker.Breaker.CheckOpen | src/plugins/api_breaker.rs:320-335 | the check over the shared map: its answer and the map it leaves |
| ApiBreaker.Breaker.ResponseFilter | src/plugins/api_breaker.rs:374-416 | the same for a response, which counts as unhealthy if it is on both lists |
| CanonicalJson.Decodable | src/config/resources.rs:788-822 | equal streams with any continuations come from equal values and equal continuations |
| CanonicalJson.SortedEnumeration | src/config/resources.rs:811-819 | sorting the keys gives one result for every enumeration of the map |
| CanonicalJson.HashCanonicalJson | src/config/resources.rs:788-822 | the recursive writer appends the canonical stream, whatever order the maps yield their keys in |
| Fingerprint.Fingerprint | src/config/resources.rs:644-705 | remove, insert and hash amount to the stream of the projection |
| Fingerprint.StreamsAgreeIffProjections | src/config/resources.rs:644-705 | two upstreams whose lengths fit a machine word share a stream iff their projections are equal |
| Fingerprint.ProjectionsAgree | src/config/resources.rs:644-703 | projections are equal iff plain fields, projected nodes and client identity agree |
| Fingerprint.NodeOrderDoesNotShow | src/config/resources.rs:639-640 | every permutation of the nodes projects alike |
| Fingerprint.FingerprintIgnoresNodeOrder | src/config/resources.rs:636-640 | reordering nodes changes no fingerprint, in either profile |
| Fingerprint.ProjectionShowsKey | src/config/resources.rs:668-688 | two nodes project alike iff bare host and effective port, and for the cache origin weight and priority, agree |
| Fingerprint.ExplicitDefaultPortShows | src/config/resources.rs:641-643 | writing default ports changes the projected nodes iff a rewritten node overtakes a visibly different node of its host |
| Fingerprint.FingerprintShowsDefaultPort | src/config/resources.rs:641-643 | the same for the fingerprint stream of two upstreams that differ in their nodes alone |
| Fingerprint.ExplicitDefaultPortAndHealth | src/config/resources.rs:641-643 | for health checks: iff a rewritten node shares its host with an explicit port below the default |
| Fingerprint.DistinctHostsHideDefaultPorts | src/config/resources.rs:641-643 | with distinct bare hosts the fingerprint stream keeps the promise, in both profiles |
| Fingerprint.DefaultPortCounterexample | src/config/resources.rs:641-643 | two https nodes of one host that break the promise |
| Fingerprint.HealthStreamsAgree | src/config/resources.rs:613-625 | health-check streams agree iff the lists of host and effective port and all fields but twelve named ones agree |
| Fingerprint.CacheOriginStreamsAgree | src/config/resources.rs:628-703 | cache-origin streams agree iff all fields but four named ones, the lists of host, effective port, weight and priority, and the client identities agree |
| Fingerprint.CacheNamespaceFingerprint | src/config/resources.rs:735-770 | remove, insert and hash amount to the stream of the namespace projection |
| Fingerprint.NamespacesAgree | src/config/resources.rs:717-770 | cache namespaces agree iff all route fields but six named ones and all fields but four of the bound services agree |
| NodeAddr.IsIpv4Shaped | src/config/node.rs:58-67 | the counting loop recognizes exactly four nonempty parts of digits |
| NodeAddr.CapturesAreMatches | src/config/node.rs:17-20 | the captured groups are those of the address expression, bracketed alternative first |
| NodeAddr.SplitReads | src/config/node.rs:77-108 | an address reads as a host and port iff it matches with them, the host is valid and the digits name a port from 1 to 65535 |
| NodeAddr.SplitRefuses | src/config/node.rs:81-108 | it is refused for its form, else for its host, else for its port |
| NodeAddr.ShapedIffDottedQuad | src/config/node.rs:58-67 | a host looks like an IPv4 address iff it is four nonempty runs of digits joined by dots |
| NodeAddr.LookalikesAreRefused | src/config/node.rs:45-49 | dotted digits that are no IPv4 address are refused, although they would do as a host name |
| NodeAddr.HostsAreRead | src/config/node.rs:28-56 | IPv4 addresses, other host names and bracketed IPv6 addresses are read |
| NodeAddr.WriteAddr | src/config/node.rs:220-230 | appends the host, bracketed if IPv6, and the port if any |
| NodeAddr.RoundTrip | src/config/node.rs:81-108 | parsing what a valid node prints gives back its bare host and port |
| NodeAddr.ShowIdentifies | src/config/node.rs:208-230 | printing is injective on bare host and port, and a node matches an address iff both agree |
| NodeAddr.MatchesIffReads | src/config/node.rs:208-215 | a node matches exactly the addresses that read as its bare host with its port |
| NodeAddr.MatchesOwnAddress | src/config/node.rs:208-215 | a node matches the address it was read from unless that put a bracketed host in brackets |
| NodeAddr.PrintParseIdempotent | src/config/node.rs:232-252 | printing after parsing is a normal form |
| NodeAddr.NodeKeyOrderIsTotal | src/config/node.rs:167-177 | the sort key is ordered totally |
| NodeAddr.TryFromMap | src/config/node.rs:294-321 | entries met in any order: all bad addresses, or one node for each entry, with its weight and no priority, by sort key |
| NodeAddr.OrderMetShowsNoKeys | src/config/node.rs:310-314 | neither errors nor sort keys depend on the order met |
| NodeAddr.DeterministicIffNoAliases | src/config/node.rs:310-314 | the node list is deterministic iff no two entries differ only in host brackets |
| NodeAddr.DoubleBracketsAlias | src/config/node.rs:17-20 | an IPv6 host in one and in two pairs of brackets are such entries |
| Schema.EditDistance | src/config/schema.rs:155-175 | the two swapped rows compute the Levenshtein distance |
| Schema.DistanceIsLeastCost | src/config/schema.rs:154-155 | that distance is attained by an edit script and undercut by none |
| Schema.LengthsBoundDistance | src/config/schema.rs:258 | the length difference never exceeds the distance |
| Schema.SuggestionIsFirstClosest | src/config/schema.rs:249-264 | the suggestion is the first field of least distance 1 or 2 among all fields; none iff there is none |
| ProxyMirror.KeepsSingleFlight | src/plugins/proxy_mirror.rs:161-170 | the flag is up exactly while one caller leads, under every step and cancellation |
| ProxyMirror.KeepsNobodyStranded | src/plugins/proxy_mirror.rs:190-194 | a waiter not yet woken is owed a notification |
| ProxyMirror.KeepsAllExplained | src/plugins/proxy_mirror.rs:151-239 | the cache is the latest address and error of the answers, and every outcome so far has its cause among them |
| ProxyMirror.RunKeepsInvariant | src/plugins/proxy_mirror.rs:113-239 | single flight, one lookup per caller, nobody stranded and explained outcomes, over every interleaving |
| ProxyMirror.WaitersAreReleased | src/plugins/proxy_mirror.rs:117-123 | once the flag is clear and the notification done, every waiter can go on |
| ProxyMirror.AlwaysProgress | src/plugins/proxy_mirror.rs:151-203 | while a call is open some caller can step or a lookup runs |
| ProxyMirror.StepsDescend | src/plugins/proxy_mirror.rs:151-203 | every step, answer or cancellation leaves less to do in a well-founded order |
| ProxyMirror.WorkIsBounded | src/plugins/proxy_mirror.rs:151-203 | without new callers a run takes at most a fixed number of them, under any scheduler |
| ProxyMirror.EveryCallEnds | src/plugins/proxy_mirror.rs:151-203 | a run can take no more of them exactly when every call has ended |
| ProxyMirror.NewCallIsServedOrLeads | src/plugins/proxy_mirror.rs:160-171 | whenever it comes, a new call with no flight up is served the latest address if that is younger than 60 s, and leads a lookup otherwise |
| ProxyMirror.AnswerEndsFlight | src/plugins/proxy_mirror.rs:172-191 | from any reached state, an answered lookup ends with its address or, after a failure, the latest one if younger than 360 s, and only else with the error; it frees the flag and every waiter |
| ProxyMirror.CancelledLeaderHandsOver | src/plugins/proxy_mirror.rs:113-123 | from any reached state, a cancelled leader leaves neither answer nor flight behind, and every waiter can go on |
| ProxyMirror.ServedAddressesAreFresh | src/plugins/proxy_mirror.rs:66-70 | a returned address is the latest known and was looked up less than 360 s before, less than 60 s before unless the caller waited or its own lookup failed; a successful lookup returns its own answer |
| ProxyMirror.FailuresHaveCause | src/plugins/proxy_mirror.rs:178-203 | a call fails only with every address 360 s old or older, with its own lookup's error or, having waited, the latest one |
| ProxyMirror.LookupsAreNeeded | src/plugins/proxy_mirror.rs:82-86 | a lookup is started only with no address younger than 60 s and, after waiting, none younger than 360 s and no error left by the flight |
| ProxyMirror.MirrorSender.TrySend | src/plugins/proxy_mirror.rs:455-473 | enqueues or gives up for good, so what the mirror gets is a prefix of what was offered |
| ProxyMirror.MirrorSender.RequestBodyFilter | src/plugins/proxy_mirror.rs:648-664 | offers each chunk, and the end if it came without one |
| Logging.RotateLogFile | src/logging/mod.rs:123-167 | clean-up and descending renames leave exactly the closed-form rotation, also when the log file is missing |
| Logging.RotationPushes | src/logging/mod.rs:156-166 | a rotation pushes the log on the stack of backups and cuts it to the limit |
| Logging.BackupsAreTheLatest | src/logging/mod.rs:123-167 | after any run, with changing limits, the backups are the stack of pushed contents |
| Logging.BackupIsIthMostRecent | src/logging/mod.rs:123-167 | under one limit m, backup i is the i-th most recent of k contents for i <= min(k, m), and there is no other |
| Logging.OnlyExcessAndReplacedAreLost | src/logging/mod.rs:148-166 | from any directory a backup moves up unless beyond the limit, or last and replaced |
| Logging.ExcessIffNumbered | src/logging/mod.rs:136-151 | the clean-up takes exactly the files numbered beyond the limit, with or without plus sign and leading zeros |
| Logging.RotationMovesFiles | src/logging/mod.rs:136-166 | each file left holds the content of one file before, no two of the same one; files that are neither a slot nor numbered beyond the limit are untouched |
| Logging.FailedRotationStillShifts | src/logging/mod.rs:158-166 | without a log file the last backup is lost and slot 1 is empty |
| FileLogger.RunWriter | src/plugins/file_logger.rs:368-395 | writes an in-order prefix of min(all, c + 256) lines when closing is first seen after line c, all of them when it is not seen |
| FileLogger.RunKeepsInvariant | src/plugins/file_logger.rs:317-414 | accepted lines are those written, in hand, queued or abandoned, and writes after closing are paid from the budget, over every interleaving |
| FileLogger.WritesAPrefix | src/plugins/file_logger.rs:342-358 | the file is always an in-order prefix of the accepted lines |
| FileLogger.DroppedIffFull | src/plugins/file_logger.rs:342-358 | every offered line is accepted or counted as dropped, the dropped ones are those that find the queue full, and while none does the accepted are the offered, in order |
| FileLogger.WriterCatchesUp | src/plugins/file_logger.rs:368-380 | from any reached state before the drop, the writer left alone writes all accepted lines and waits for more |
| FileLogger.WrittenAndAbandonedAreAll | src/plugins/file_logger.rs:362-367 | at the end written and abandoned lines are all accepted lines; abandoning takes an exhausted budget |
| FileLogger.DropWaitsForAtMostTheBudget | src/plugins/file_logger.rs:397-404 | at most 256 writes complete after the closing flag is set |
| FileLogger.JoinReturns | src/plugins/file_logger.rs:405-414 | with the sender gone the worker can always step and each step brings its end nearer |
| FileLogger.DropReturns | src/plugins/file_logger.rs:397-414 | from any state, after the flag is set and the sender released, 768 turns end the worker, whatever else is tried |
| FileLogger.BodyBuffer.AppendChunk | src/plugins/file_logger.rs:505-514 | the buffer after one more chunk |
| FileLogger.BufferHoldsTheFirstBytes | src/plugins/file_logger.rs:501-514 | for every chunking the buffer is the first min(max, total) bytes, exceeded iff total > max |
| FileLogger.ChunkingDoesNotShow | src/plugins/file_logger.rs:501-514 | two chunkings of one body leave the same buffer |
| Status.ReadinessReasons | src/core/status.rs:223-238 | with the clock read twice, a reason is given iff not ready, each exactly for its cause, never `config_invalid` |
| Status.DegradedWithoutReason | src/core/status.rs:240-262 | each reason is given exactly for its cause; degraded without one iff a transport error outlives a reconnect; the stale reason never shows |
| Status.StatusStore.SetEtcdConnected | src/core/status.rs:137-145 | the connection flag and the start of an outage |
| Status.StatusStore.Publish | src/core/status.rs:159-169 | a publication, which under etcd also opens the gate |
| Status.StatusStore.SyncSucceeded | src/core/status.rs:173-193 | list or watch progress, which raises the fence on a reconnect |
| Status.StatusStore.SyncFailed | src/core/status.rs:195-203 | a transport error, which starts an outage unless one is running |
| Status.OutageStartIsFirstDisconnect | src/core/status.rs:137-203 | while disconnected the recorded start is the first disconnect since the last connect |
| Status.StaleIffOutageTooLong | src/core/status.rs:309-322 | stale iff under etcd and that outage has lasted longer than allowed, whatever errors were repeated |
| StatusHistory.ReadyIff | src/core/status.rs:205-322 | ready iff put in service, no reconnect is unpublished, and no etcd outage outlasts a policy that fails stale instances, all read off the reports |
| StatusHistory.RecordIsHistory | src/core/status.rs:113-221 | source, policy, revisions, connection, last success and error are those of the last report of each kind |
| Status.AwaitingIffUnpublishedReconnect | src/core/status.rs:159-193 | the fence is up iff some reconnect of an initialized instance has had no publication under etcd since |
| Status.ClosedUntilPublished | src/core/status.rs:186-190 | until that publication no probe finds the instance ready |
| Status.FlagFirstRaisesNoFence | src/core/status.rs:137-145 | a reconnect reported by the flag first leaves the gate open, and degraded without a reason |
| EtcdSync.PhaseTellsConnection | src/config/etcd/sync.rs:94-140 | in the sync loop, past the list answer the store is connected; while resetting it is not |
| EtcdSync.SyncReconnectRaisesFence | src/config/etcd/sync.rs:92-95 | in the sync loop only a list answer reconnects, and it raises the fence |
| EtcdSync.OutageClosesUntilPublished | src/config/etcd/sync.rs:207-268 | after losing etcd the instance is ready only while disconnected and not stale, until something is published |
| EtcdSync.PublicationOpens | src/core/status.rs:159-169 | under the sync loop a publication opens the gate, unless a policy fails the stale outage that is running |
| EtcdSync.OnlyFailuresDisconnect | src/config/etcd/sync.rs:207-268 | in the sync loop only a transport failure loses the connection |
| EtcdSync.RejectionKeepsServing | src/config/etcd/sync.rs:222-227 | rejected data goes on record and changes neither connection nor readiness |
| EtcdSync.RelistNeedsReset | src/config/etcd/sync.rs:217-221 | after a transport failure the client is reset before etcd is listed again |
| EtcdSync.SyncTracksRevision | src/config/etcd/sync.rs:92-185 | the revision on record is that of the last list or watch answer |
| EtcdSync.StepsFollow | src/config/etcd/sync.rs:207-268 | a step of the sync loop can be taken iff it may follow the loop's last one in the program's order |
| EtcdSync.SyncRecovers | src/config/etcd/sync.rs:207-268 | from any reached state, failure, reset, list, watch and publication end in a ready instance on the listed revision |
| EtcdSync.SyncTracksSuccess | src/config/etcd/sync.rs:92-185 | the last success on record is the time of the last list or watch answer or publication |
| EtcdSync.TransportErrorMeansDisconnected | src/config/etcd/sync.rs:92-140 | under the sync loop a transport error is on record only while disconnected |
| EtcdSync.SyncDegradationHasReason | src/core/status.rs:240-262 | under the sync loop the page gives a reason iff the instance is degraded |

## Left out

- Sessions, headers, response writing, the async runtime, metrics, log messages, sockets: input and output, and other libraries.
- The fixed-window counter of limit-count, an external estimator whose answer is a parameter, and the registry that hands out the shared stores of groups.
- Plugin configuration parsing and validation, except as bounds on the inputs.
- LimiterShards.TouchOrder.Touch: tokens are unbounded, so the wrap-around after 2^64 touches is not modelled.
- LimitCount.AgreesWithUnbounded: with one window for all requests sent to a slot; overflowed keys of a shard share a slot and so a history by design.
- LimitCount.AtMostCountPerWindow: one direction only, because whether a dropped live event breaks the bound depends on what was refused before; where nothing was, WindowFillsTo gives the exact number.
- LimitReq.PassesIffConforms: over reals, so the rounding of floating point is not modelled.
- LimitReq.EnvelopeAcrossEvictions: re-creating an evicted bucket starts at excess 0 where the kept one could have carried up to one unit, so each creation is allowed one extra pass.
- LimitReq.EvictionAheadBreaksEnvelope: stated for the states of one bucket; filling a shard until it sweeps is not part of the input.
- ProxyMirror.EveryCallEnds: for a lookup that never answers nothing is stated, and callers that keep arriving can keep a run going.
- LimitConn.KeyStaysBelowCeiling: one direction only; a counter swept out between fetch and increment makes a second one possible, and whether the ceiling is then passed turns on who comes next.
- ApiBreaker.StateIsHistory: counters are unbounded, so overflow of their 32 bits is not modelled.
- CanonicalJson.Decodable: for values whose lengths fit a 64-bit word; the hash function behind the stream is not modelled.
- NodeAddr.RoundTrip: the parsers of IP addresses and of host names are parameters about which only character facts are assumed; digits outside ASCII and Unicode case folding are not modelled.
- ProxyMirror: peers, TLS, the limit on concurrent mirrors, and the tracking of running ones.
- Logging.RotateLogFile: errors other than a missing file, names that are not UTF-8, and a path with no directory part, whose listing fails.
- FileLogger.RunWriter: a failed write is reported and skipped by the program; it counts as made here.
- Status: the age that the status page derives from the last success is not computed; the test-only reset is not modelled.
- Fingerprint: serialization of the typed configuration is taken as given, and the digest of key material is a parameter.
- Schema: the walk over nested objects that collects warnings, which only applies the suggestion.
- Recovery from a poisoned lock.
