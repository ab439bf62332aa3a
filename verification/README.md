# Z-Courier: a verified model of its delivery core

Z-Courier is a gateway that keeps downlink messages for devices until they are delivered,
acknowledged, failed or discarded, reports final states through an outbox, limits traffic
with token buckets, routes between gateways, caches authentication and keeps an audit trail.
This project models that logic in Dafny and proves what it promises over whole runs.

How the model is laid out:

* `Messages`, `Identity`, `Ordering`, `Text`, `Chains`, `Overlays`: the records, Go's string order,
  white-space trimming, sorting as the unique ordered listing of a set, sequences of states, and
  entries of a map replaced in turn.
* `StoreModel` gives every locked operation of the message store as one step on a value
  (`Action`, `Step`, `Run`); `MemoryStores.MemoryStore` is the store with its maps updated in
  place, each method proved equal to its step. `Outbox`, `Races`, `Admission` prove what every
  run keeps, `OutboxRuns` that the outbox bound is reached.
* `Fairness`, `FairnessProperties`, `RetryQuery`: the fair retry selection, against the
  round-robin order and against the SQL query of the Postgres store.
* `ServiceModel`, `Batches`, `Services`: the decisions of the delivery service, its batches as
  runs of the store, and the service as an object over the store.
* `Attempts`, `AttemptRuns`, `LeasedAttempts`: the interleaved system in which sending and
  recording are separate steps of any number of concurrent workers, runs that reach its bounds,
  and how leases keep workers apart.
* `DeliveryPolicies`, `TrafficPolicies`, `UpstreamRoutes`: validation and resolution of rules, and
  of the routes that traffic policies name.
* `Quota`, `QuotaStores`, `RedisQuota`: token buckets as a reference, as the evicting local
  store, and as the Redis script.
* `Cursors`, `Paging`, `AuditTrail`: positions in lists, their text form, and pages.
* `AuthCache`, `CachedVerifiers`, `RouteRegistry`, `MemoryRegistries`, `ClusterPush`: the
  verifier cache, the online registry, and the cluster pushes that look routes up in it.

Modelling conventions: times are integers (nanoseconds since the Unix epoch) and 0 stands for
Go's zero time; strings are byte sequences; SHA-256 is a free constructor, so equal digests
mean equal inputs; floating-point amounts are reals; clock readings, fresh IDs, jitter, the
outcome of a send or publication and the delegate's answer are parameters; each critical
section is one atomic step, and a call that takes two critical sections is two steps.

Statements that the code does not meet as its documentation suggests are stated exactly:

* A terminal event is enqueued at most once per message and status *per creation* of the message:
  after cleanup an ID may be created again, and for every number of creations there is a run that
  enqueues the event each time (`Outbox.EnqueuedAtMostOnce`, `OutboxRuns.ReportedEachTime`).
* An acknowledgement can be undone, exactly by an operator's requeue or discard whose status
  check ran before the acknowledgement; such a discard always undoes it and such a requeue
  whenever the queue has room (`Races.AckUndoneExactly`, `Races.OperatorRaceUndoesAck`).
* The attempt limit holds while one worker at a time handles a message. With `k` at once it is
  passed by at most `k - 1`, and overlapping flushes, which take no lease, do pass it by that
  (`Attempts.AttemptsBoundedBy`, `AttemptRuns.BoundAttained`). Leases bring about the first case:
  where messages are taken up by submission and claim alone, no flight outlasts its lease and
  nobody requeues or resubmits what someone holds, no message has two holders
  (`LeasedAttempts.LeasesKeepApart`).
* Eviction of idle buckets is unobservable for a key, and its rate bound holds, exactly when its
  idle bucket refills before it is dropped, whatever the other keys do
  (`Quota.EvictionUnobservable`, `Quota.EvictionObservable`, `Quota.RateBound`,
  `Quota.RateBoundExceeded`).
* The identity fingerprint is exact for fields shorter than 2^32 bytes, and from that length on
  no length is safe (`Identity.FingerprintExact`, `Identity.TruncatedLengthCollides`). The HTTP
  handlers cap their request bodies far below (`http.MaxBytesReader`), so only a caller inside
  the process could pass such an ID.
* Message paging partitions the list of every reachable store when IDs carry no surrounding
  white space; for every other ID there is a store of two messages it gets wrong
  (`Paging.ReachablePagesPartition`, `Paging.UntrimmedIdMispages`).
* Stale-route cleanup is fenced by the session ID alone. A binding outlives every cleanup for
  another session, but not one for an earlier binding of the same session ID
  (`RouteRegistry.FencedLookup`, `RouteRegistry.ReusedSessionRemoved`). Cluster pushes unbind it
  exactly when one that found this very session's route gives it up as stale, as a push started
  after the binding may (`ClusterPush.PushUnbindsExactly`, `ClusterPush.ReconnectSurvivesPushes`).
* The traffic-policy check by itself misses no conflict if and only if every message that resolves
  to a named route lies in the range indexed under that name, and rejects nothing but conflicts if
  and only if every message in such a range resolves to that route
  (`TrafficPolicies.MissesNothingExactly`, `TrafficPolicies.InventsNothingExactly`). Duplicate
  names and overlapping ranges can break this, but no configuration that loads has them, so for
  those the check is exact (`UpstreamRoutes.LoadedRoutesFit`, `UpstreamRoutes.LoadsWith`).
* The plain retry listing of the memory store without a limit lists everything that is due, the
  Postgres query at most 100 (`RetryQuery.ListingMatchesQueryExactly`).

## Model

| member | source | states |
|---|---|---|
| Messages.EventIdInjective | internal/downlink/terminal.go:125-127 | different (message, status) pairs have different event IDs, even when the message ID contains colons |
| Identity.FingerprintExact | internal/downlink/identity.go:12-48 | fingerprints agree if and only if client, device, message type, acknowledgement flag and body agree, for fields below 2^32 bytes |
| Identity.TruncatedLengthCollides | internal/downlink/identity.go:43-48 | for every length from 2^32 bytes on and every device some client ID of that length shares its fingerprint with a different message |
| StoreModel.ApplyWellFormed | internal/downlink/memory_store.go:30-730 | every store operation keeps map keys in agreement with the records under them |
| Outbox.StepKeepsUnpublished | internal/downlink/memory_store.go:598-742 | one step: an outbox record leaves only through cleanup, published, together with its message |
| Outbox.StepKeepsRecord | internal/downlink/memory_store.go:598-680 | one step: a record's event never changes and a published record does not change at all |
| Outbox.StepEnqueues | internal/downlink/memory_store.go:385-416 | a record appears only through a terminal transition of a stored message |
| Outbox.RunNoOrphans | internal/downlink/memory_store.go:682-742 | in every reachable state each outbox record belongs to a stored message |
| Outbox.UnpublishedSurvives | internal/downlink/memory_store.go:682-742 | over every run an unpublished event stays, with its message, until it is published |
| Outbox.PublishedIsAbsorbing | internal/downlink/memory_store.go:598-640 | over every run a published record stays as it is while its message is retained |
| Outbox.EnqueuedAtMostOnce | internal/downlink/memory_store.go:367-418 | over every run each terminal status is enqueued at most once per creation of the message, however often it fails and is requeued |
| OutboxRuns.ReportedEachTime | internal/downlink/memory_store.go:367-742 | for every message, terminal status, capacity and TTL and every n a run creates the message n times and enqueues its event n times, so the bound is reached |
| Outbox.OutboxMirror | internal/downlink/memory_store.go:385-416 | in every reachable state a failed or discarded message has the record for that status and mirrors its publication fields, or publishing is off and there is none |
| Races.AckUndoneExactly | internal/downlink/memory_store.go:281-418 | one step undoes an acknowledgement if and only if it is an operator's requeue or discard of that message |
| Races.AckSurvives | internal/downlink/memory_store.go:296-301 | over every run in which operators check after the acknowledgement, the message stays delivered while retained |
| Races.OperatorRaceUndoesAck | internal/downlink/service.go:292-392 | check, acknowledgement, operator write in this order: a discard always undoes the acknowledgement, a requeue exactly when it is not refused for capacity |
| Races.NoMessageVanishes | internal/downlink/memory_store.go:682-730 | over every run an accepted message leaves only through cleanup, when finished, past its TTL and fully reported |
| Races.StepKeepsLease | internal/downlink/memory_store.go:179-216 | one step that neither marks nor requeues the message keeps it leased at least as long, whatever the scanners' clocks read |
| Races.LeaseExcludes | internal/downlink/memory_store.go:228-279 | before the lease ends no scan selects the message and no bind-time flush lists it |
| Races.ClaimIsExclusive | internal/downlink/memory_store.go:179-216 | over every run after a claim, with no mark or requeue of the message, no scan or flush before the lease ends returns it |
| Races.SubmissionIsExclusive | internal/downlink/service.go:435-441 | the same for the lease a first submission takes out |
| Admission.AdmittedWithinLimits | internal/downlink/memory_store.go:30-72 | a create or requeue into pending that succeeds leaves the global and the device count within their limits |
| Admission.QueueBounded | internal/downlink/memory_store.go:341-365 | in every run the pending counts exceed their limits by at most the failed attempts recorded on a message no longer pending |
| Admission.ReplayExact | internal/downlink/memory_store.go:30-72 | in every reachable state a known ID is answered as a replay exactly when the submission repeats the stored one, as a conflict otherwise, and nothing changes |
| Admission.IdentityImmutable | internal/downlink/memory_store.go:30-730 | over every run the identity fields of a retained message are those it was created with |
| Fairness.FairRetrySelection | internal/downlink/fairness.go:62-94 | the loop over rounds selects the first `limit` candidates in round-robin order and summarises them |
| Fairness.RetrySelectionFromMessages | internal/downlink/fairness.go:96-112 | device count and largest share of a selection are those of its messages |
| FairnessProperties.PicksDistinct | internal/downlink/fairness.go:62-94 | exactly min(limit, n) different candidates are selected |
| FairnessProperties.FifoPerDevice | internal/downlink/fairness.go:62-94 | of each device a first-in-first-out prefix is selected |
| FairnessProperties.TrailingDeviceIsExhausted | internal/downlink/fairness.go:62-94 | a device that trails another by two or more has no candidate left |
| FairnessProperties.ServedIsDepthSum | internal/downlink/fairness.go:62-94 | the candidates a choice serves within depth k number the sum over devices of min(share, k) |
| FairnessProperties.MaxMinOptimal | internal/downlink/fairness.go:62-94 | no choice of at most limit candidates has a larger sum over devices of min(share, k), for any k |
| RetryQuery.SelectionMatchesQuery | internal/downlink/postgres_store.go:587-638 | for every table a fair scan of the memory store returns the rows of the claim query, in its order: WHERE clause with NULL times, candidate window, ranking and limit |
| RetryQuery.ListingMatchesQueryExactly | internal/downlink/postgres_store.go:447-487 | the memory store's plain listing equals the query's rows if and only if a positive limit is given or at most 100 messages are due |
| FairnessProperties.CandidateLimit | internal/downlink/fairness.go:21-47 | on 64-bit integers it never overflows and equals min(maxInt, max(scan times multiplier, per-device plus scan)) |
| FairnessProperties.ReachesTwoDevices | internal/downlink/fairness.go:62-94 | a limit of two or more selects two devices if and only if the candidates hold two |
| FairnessProperties.NoMonopoly | internal/downlink/memory_store.go:158-177 | if no device has more than its limit due and two are due, a scan with limit two or more selects at least two devices |
| MemoryStores.MemoryStore.SaveWithCapacity | internal/downlink/memory_store.go:30-72 | reply and new state are those of the save step |
| MemoryStores.MemoryStore.CheckQueueCapacity | internal/downlink/memory_store.go:470-493 | the counting loop gives the verdict on the sets of pending messages |
| MemoryStores.MemoryStore.ListByStatusPage | internal/downlink/memory_store.go:101-138 | the page of the listing after the cursor, with total, more flag and next cursor |
| MemoryStores.MemoryStore.ListDueRetry | internal/downlink/memory_store.go:144-156 | the first due messages by creation time and ID |
| MemoryStores.MemoryStore.ListDueRetryFair | internal/downlink/memory_store.go:158-177 | the fair choice among the due messages, unchanged store |
| MemoryStores.MemoryStore.ClaimDueRetryFair | internal/downlink/memory_store.go:179-216 | the claim step, the messages returned as they are stored after it, and their mode, device count and largest share |
| MemoryStores.MemoryStore.ListPendingByClientDevice | internal/downlink/memory_store.go:252-279 | the device's unclaimed pending messages in order |
| MemoryStores.MemoryStore.MarkSent | internal/downlink/memory_store.go:281-313 | new state of the sent step; not found exactly when there is no such message |
| MemoryStores.MemoryStore.MarkDelivered | internal/downlink/memory_store.go:315-339 | new state of the acknowledgement step; not found unless addressed to that client and device |
| MemoryStores.MemoryStore.MarkAttemptFailed | internal/downlink/memory_store.go:341-365 | new state of the failed-attempt step |
| MemoryStores.MemoryStore.MarkFailed | internal/downlink/memory_store.go:367-418 | new state of the failure step, outbox included |
| MemoryStores.MemoryStore.RequeueWithCapacity | internal/downlink/memory_store.go:424-468 | reply and new state of the requeue step |
| MemoryStores.MemoryStore.Discard | internal/downlink/memory_store.go:495-543 | new state of the discard step, outbox included |
| MemoryStores.MemoryStore.ClaimDueTerminal | internal/downlink/memory_store.go:545-596 | new state of the outbox claim, and the records returned as stored after it |
| MemoryStores.MemoryStore.MarkTerminalPublished | internal/downlink/memory_store.go:598-640 | new state of the publication step |
| MemoryStores.MemoryStore.MarkTerminalPublishFailed | internal/downlink/memory_store.go:642-680 | new state of the failed-publication step |
| MemoryStores.MemoryStore.DeleteExpired | internal/downlink/memory_store.go:682-742 | new state of the cleanup step and the number removed |
| DeliveryPolicies.NewDeliveryPolicySet | internal/downlink/policy.go:43-115 | sort and check of neighbours accept exactly the valid rule sets in which no message type is claimed twice |
| DeliveryPolicies.AdjacentIsEnough | internal/downlink/policy.go:85-108 | sorted ranges are pairwise disjoint if and only if neighbours are apart |
| DeliveryPolicies.Resolve | internal/downlink/policy.go:117-130 | the scan with its early break gives the unique covering rule, else the default |
| DeliveryPolicies.ResolvesAsConfigured | internal/downlink/policy.go:117-130 | the answer is the one, and the only one, the configured rules name |
| DeliveryPolicies.AcceptedInAnyOrder | internal/downlink/policy.go:43-115 | every permutation of the rules is accepted or refused alike |
| DeliveryPolicies.OrderOfRulesIrrelevant | internal/downlink/policy.go:43-130 | every permutation of the rules builds the same set and resolves alike |
| DeliveryPolicies.ValidDeliveryPolicyName | internal/downlink/policy.go:185-197 | the loop accepts exactly the well-formed names |
| DeliveryPolicies.BackoffBounded | internal/downlink/service.go:915-927 | every wait lies between the initial and the maximal delay and waits never shrink |
| ServiceModel.PublishPutOff | internal/downlink/service.go:642-654 | a failed publication is put off by at least the initial delay (or the largest, if that is less) and at most the largest delay and jitter |
| ServiceModel.PolicyForValid | internal/downlink/service.go:233-238 | whatever was stored with a message, it is handled under a valid policy |
| ServiceModel.ScanMakesProgressExactly | internal/downlink/service.go:837-895 | a selected message is left alone exactly when it waits for an acknowledgement without a deadline of its own inside the policy's timeout |
| ServiceModel.HandleProgress | internal/downlink/service.go:837-895 | each handling of a selected message changes nothing, uses up one attempt or ends in failure |
| ServiceModel.ScansBounded | internal/downlink/service.go:812-895 | whatever the sends do, at most the attempts left plus one of the scans that select a message do anything about it |
| ServiceModel.TimedScansBounded | internal/downlink/service.go:812-895 | and at most that many scans select it at all if it carries its own deadline whenever it waits for an acknowledgement |
| ServiceModel.FailingSendsEnd | internal/downlink/service.go:837-895 | a pending or sent message whose sends always fail is failed after at most maxAttempts scans, counted from the first that does not leave it alone |
| Attempts.RunInvariant | internal/downlink/service.go:435-514 | every state of every interleaving of submissions, workers, acknowledgements and operators meets the attempt accounting |
| Attempts.AttemptsBoundedBy | internal/downlink/service.go:812-895 | in every run in which at most k workers hold a message at once, attempts pass the limit by less than k and equal the delivery calls since creation or last requeue, save those in the air |
| Attempts.AttemptsBounded | internal/downlink/service.go:812-895 | with one worker at a time attempts never pass the limit |
| AttemptRuns.BoundAttained | internal/downlink/service.go:753-895 | for every configuration, every request with an ID and every k a run from the empty store with k overlapping flushes reaches that bound |
| LeasedAttempts.LeasesKeepApart | internal/downlink/service.go:707-751 | in every run in which a message is taken up only by a leased submission or from a claim, every claim comes before the leases of its flights under way end, and it is neither requeued nor submitted anew while held, at most one worker holds it |
| LeasedAttempts.LeasedAttemptsBounded | internal/downlink/service.go:812-895 | in those runs attempts never pass the limit, with no assumption on the number of holders |
| Services.Service.PushReliable | internal/downlink/service.go:435-514 | the store takes exactly the save and, if created, the outcome step, and the reply tells which; a replay is never sent |
| Services.Service.RetryMessage | internal/downlink/service.go:837-895 | the decision and its single store step |
| Services.Service.RetryMessages | internal/downlink/service.go:812-835 | each message of a batch is handled once, in order, and counted once; the batch ends early exactly at a message that is gone |
| Batches.HandledIsRun | internal/downlink/service.go:812-895 | handling a batch is a run of the store, of the marks its messages' decisions ask for |
| Services.Service.ListRetryMessages | internal/downlink/service.go:707-751 | a fair claim, a fair listing or the oldest due, as configured, with the summary of what was selected |
| Services.Service.RetryDue | internal/downlink/service.go:547-574 | in every configuration the selected messages are handled once each and counted, and the state is a run of the claim and their marks |
| Services.Service.FlushClientDevice | internal/downlink/service.go:753-770 | missing client and device are refused; otherwise the device's unclaimed pending messages are handled once each, and the state is a run of their marks |
| Services.Service.Requeue | internal/downlink/service.go:292-337 | delivered and discarded messages are refused, otherwise the requeue step; the reply is the stored message with the policy in force |
| Services.Service.Discard | internal/downlink/service.go:361-392 | delivered messages are refused, otherwise the discard step; the reply is the stored message with the policy in force |
| Services.Service.Ack | internal/downlink/service.go:772-810 | missing client, device and ID, other codes and messages for someone else are refused in that order without change; otherwise the stored message is delivered and returned with the policy in force |
| Services.Service.PublishTerminalDue | internal/downlink/service.go:576-630 | with publishing off nothing happens; otherwise the state is a run of the claim and one report per event, each event is published or due again after its backoff as its own answer says, and no other event changes |
| Batches.BatchReported | internal/downlink/service.go:598-628 | every event of a batch ends as its own answer says, whatever happened to the others, and no event outside it changes |
| Services.Service.CleanupExpired | internal/downlink/service.go:656-705 | the counts are the messages removed and the state is a run of the three sweeps |
| Batches.CleanupActionsObeyPolicy | internal/downlink/service.go:656-705 | the sweeps the service asks for are those the retention theorem supposes |
| Batches.DeletedCount | internal/downlink/memory_store.go:682-730 | a sweep reports exactly as many messages as it removes |
| Quota.EvictionUnobservable | internal/pipeline/quota_store_local.go:63-149 | in every run, for a key whose idle bucket refills before it is dropped, every decision other than Overloaded is that of a store that never evicts, whatever the other keys' limits |
| Quota.EvictionObservable | internal/pipeline/quota_store_local.go:98-149 | for every configuration that does not, a run exists in which the store allows what the reference refuses |
| Quota.ProbeExists | internal/pipeline/quota_store_local.go:98-149 | for every request and idle TTL there is such a run, at any starting time |
| Quota.RateBound | internal/pipeline/quota_store_local.go:111-133 | in every window of every run such a key is allowed at most its capacity plus the refill of the elapsed time |
| Quota.RateBoundExceeded | internal/pipeline/quota_store_local.go:98-149 | for every configuration that does not refill while idle, a run breaks that bound |
| Quota.TokensWithinCapacity | internal/pipeline/quota_store_local.go:111-133 | at every point of every run the tokens of a key limited alike throughout stay between zero and its capacity |
| QuotaStores.LocalQuotaStore.constructor | internal/pipeline/quota_store_local.go:44-61 | an empty table with the given limits |
| QuotaStores.LocalQuotaStore.RemoveIdleBuckets | internal/pipeline/quota_store_local.go:135-149 | table and list stay in bijection, nothing live is dropped, and on an ordered list the sweep that stops early drops exactly the idle buckets |
| QuotaStores.LocalQuotaStore.Admit | internal/pipeline/quota_store_local.go:63-122 | at most maxKeys buckets always; on a clock that does not go back the decision and the whole table are the specification's and the list stays ordered |
| RedisQuota.TokensInRange | internal/pipeline/quota_store_redis.go:51-76 | for every sequence of clock readings, backward ones included, tokens stay between zero and the capacity and the refill time is the latest reading |
| RedisQuota.GrantsBounded | internal/pipeline/quota_store_redis.go:51-76 | in every window of every such sequence the grants stay within capacity plus refill between the latest readings at its start and its end |
| RedisQuota.DecidesAsLocal | internal/pipeline/quota_store_redis.go:22-77 | on forward readings the script decides every call as the token bucket that is never dropped |
| RedisQuota.CeilDuration | internal/pipeline/quota_store_redis.go:236-242 | the least positive number of units that covers the duration |
| RedisQuota.RoundingNeverFaster | internal/pipeline/quota_store_redis.go:148-187 | rounding the interval up to microseconds never refills more than configured |
| TrafficPolicies.ResolveRoute | internal/pipeline/traffic_policy.go:93-104 | the first route whose range holds the message ID |
| TrafficPolicies.IndexRoutes | internal/config/traffic_policy.go:82-98 | the map holds a route for every nonblank name, under its name, and of several of one name the last |
| TrafficPolicies.Intervals | internal/config/traffic_policy.go:450-485 | the intervals hold exactly the message IDs the policy claims |
| TrafficPolicies.IntervalsOverlap | internal/config/traffic_policy.go:487-496 | true if and only if some message ID lies in both |
| TrafficPolicies.ClientSelectorsOverlap | internal/config/traffic_policy.go:434-448 | true if and only if some client is selected by both |
| TrafficPolicies.ValidateAmbiguity | internal/config/traffic_policy.go:410-432 | accepts exactly when no two policies clash; where what resolves is indexed, acceptance means no packet is matched by two policies of one priority, and where what is indexed resolves, a reported pair conflicts |
| TrafficPolicies.NewTrafficPolicySelector | internal/pipeline/traffic_policy.go:26-61 | the policies sorted by priority and name, and the default of that name |
| TrafficPolicies.Select | internal/pipeline/traffic_policy.go:63-130 | a matching policy of the highest matching priority, else the default |
| TrafficPolicies.SelectionDetermined | internal/pipeline/traffic_policy.go:46-91 | after acceptance two selectors of the same policies in any order have the same default and answer every packet alike |
| TrafficPolicies.MissesNothingExactly | internal/config/traffic_policy.go:410-496 | for all policies the check misses no conflict if and only if every message that resolves to a named route is in the range indexed under that name |
| TrafficPolicies.InventsNothingExactly | internal/config/traffic_policy.go:410-496 | and it rejects nothing but conflicts if and only if every message in such a range resolves to the route of that name |
| UpstreamRoutes.ValidateUpstreamRouteConflicts | internal/config/validation.go:228-290 | names, sizes, reserved IDs, sort and comparison of neighbours find no problem if and only if no name is used twice, no range is too large or reserved and no two ranges meet |
| UpstreamRoutes.ToPolicyRoutes | internal/config/traffic_policy.go:82-98 | the enabled routes (selected and checked as in config.go lines 1803-1865) with trimmed names and the upper end filled in, or none if the range of one is invalid |
| UpstreamRoutes.LoadedRoutesFit | internal/config/validation.go:228-290 | the routes of a configuration that passes are uniquely named and disjoint |
| UpstreamRoutes.LoadsWith | internal/config/validation.go:68-113 | routes and policies are accepted if and only if the routes are valid and free of conflicts and no packet is matched by two policies of one priority |
| Cursors.Base64RoundTrip | internal/downlink/message_cursor.go:58-66 | decoding undoes encoding for every byte string |
| Cursors.IntRoundTrip | internal/downlink/message_cursor.go:58-80 | parsing undoes formatting for every 64-bit integer |
| Cursors.CursorRoundTrip | internal/downlink/message_cursor.go:58-91 | reading a cursor's text gives its normal form exactly for the start and for instants after the epoch, and is refused otherwise |
| Paging.ResumesAfter | internal/downlink/message_cursor.go:42-56 | after a message's cursor come exactly the messages listed after it |
| Paging.WalkShowsPrefix | internal/downlink/memory_store.go:101-138 | after any number of pages the first pages-times-limit messages were shown in order, and there is more exactly when there are more messages |
| Paging.PagesPartition | internal/downlink/memory_store.go:101-138 | following the cursors ends and the pages together are the whole list, each message once |
| Paging.RunStamps | internal/downlink/memory_store.go:30-730 | every message of every reachable store has an ID and a time |
| Paging.ReachablePagesPartition | internal/downlink/memory_store.go:101-138 | the pages of every reachable store whose IDs of that status carry no surrounding white space are the whole list |
| Paging.UntrimmedIdMispages | internal/downlink/message_cursor.go:22-29 | for every ID with surrounding white space saving one more message gives a store whose pages are not the list |
| AuditTrail.RingHoldsLast | internal/adminaudit/store.go:111-139 | after any recordings the trail holds exactly the last of them, consecutively numbered |
| AuditTrail.PagesStable | internal/adminaudit/store.go:111-176 | for pages taken from the trail after any numbers of recordings, none is repeated and no matching entry retained throughout is skipped |
| AuditTrail.AuditStore.RecordAdminAudit | internal/adminaudit/store.go:111-139 | new state of the recording step and the stamped entry |
| AuditTrail.AuditStore.List | internal/adminaudit/store.go:141-176 | the downward loop gives the newest matching entries below the cursor, total, more flag and next cursor |
| AuditTrail.ParseCursor | internal/adminaudit/store.go:302-322 | on digits min(value, 2^63-1) without overflow; on other text 2^63-1 exactly when the digits before it already overflow, else zero |
| AuthCache.ApplyWellFormed | internal/auth/cache.go:125-187 | no interleaving of loads and stores exceeds maxEntries or repeats a sequence number |
| AuthCache.HitsJustified | internal/auth/cache.go:103-171 | every hit repeats the latest stored answer of the delegate for that token, within its TTL and before the principal expires; only an invalid token is refused from the cache |
| AuthCache.AnswerKept | internal/auth/cache.go:140-187 | a stored answer stays while fewer than maxEntries tokens have had one stored since, unless it expires or is replaced |
| CachedVerifiers.CachedVerifier.Load | internal/auth/cache.go:125-138 | the entry if not expired; an expired one is dropped |
| CachedVerifiers.CachedVerifier.Store | internal/auth/cache.go:140-154 | new state of the store step |
| CachedVerifiers.CachedVerifier.EvictOldest | internal/auth/cache.go:173-187 | drops the entry with the least sequence number |
| CachedVerifiers.CachedVerifier.Verify | internal/auth/cache.go:103-123 | a hit answers without the delegate, a miss answers what the delegate says and stores it |
| RouteRegistry.LazyExpiryUnobservable | internal/cluster/memory_registry.go:35-183 | on a clock that does not go back every call after every run is answered as by a map that drops entries the instant they expire |
| RouteRegistry.CleanupExact | internal/cluster/memory_registry.go:56-88 | unbinding removes the key's route if and only if the live one belongs to that session, and no other route |
| RouteRegistry.BindingSurvives | internal/cluster/memory_registry.go:35-88 | a binding outlives every cleanup in the name of another session until the end the registry's TTL or the route itself gave it |
| RouteRegistry.FencedLookup | internal/cluster/memory_registry.go:90-115 | so a lookup before that end still finds that session, whatever stale cleanups fell between |
| RouteRegistry.ReusedSessionRemoved | internal/cluster/memory_registry.go:56-88 | a rebinding that reuses the session ID is removed by the earlier session's cleanup |
| ClusterPush.PushRemovesExactly | internal/downlink/service.go:988-1035 | the end of a push removes a live route if and only if it judged the route it had found stale and the live one still belongs to that session, and no other route |
| ClusterPush.PushUnbindsExactly | internal/downlink/service.go:988-1035 | before a binding's end the start or end of a push unbinds it if and only if the push had found that session's route and gives it up as stale |
| ClusterPush.ReconnectSurvivesPushes | internal/downlink/service.go:988-1035 | a route bound while any pushes to the device are under way on any gateways, and more are started, is found until its end as long as none of them gives up this session's route |
| MemoryRegistries.MemoryRegistry.Bind | internal/cluster/memory_registry.go:35-54 | reply and new state of the bind step |
| MemoryRegistries.MemoryRegistry.Unbind | internal/cluster/memory_registry.go:56-88 | reply and new state of the unbind step |
| MemoryRegistries.MemoryRegistry.Lookup | internal/cluster/memory_registry.go:90-115 | reply and new state of the lookup step |
| MemoryRegistries.MemoryRegistry.List | internal/cluster/memory_registry.go:117-149 | reply and new state of the list step: expired routes dropped in the pass, matching ones sorted, counted and cut |
| MemoryRegistries.MemoryRegistry.Touch | internal/cluster/memory_registry.go:151-183 | reply and new state of the touch step, with its two clock readings |

## Left out

- HTTP handlers, JSON and YAML encoding, authentication headers, metrics, logging and tracing.
- The Postgres stores: transactions, row locks (`FOR UPDATE SKIP LOCKED`) and retries; only the selections of the fair claim query and of the plain listing query are modelled, with text compared in byte order whatever the collation, and with the order of the inner `selected` query, since `UPDATE … RETURNING` promises none.
- The wire protocol codec, connection and session management, and the sending of frames; a send is an outcome given to the service.
- Context cancellation, nil receivers and start-up failures of the constructors.
- The peer dispatch of a cluster push beyond its registry calls and whether the peer calls the route stale.
- `ClaimDueRetry`, the claim without fairness: only the Postgres store offers it.
- Message statuses other than the five the store assigns, and trace fields, which are carried along.
- Parsing of durations and of the traffic-policy section; `TrafficPolicies` starts from what it establishes.
- The targets of upstream routes, and the ranges a reloaded routes file has to stay inside.
- Rounding of floating-point token counts and delays: they are exact reals here, and the wrap-around of 64-bit times, sequence numbers and entry IDs is not modelled.
- Expiry of a Redis key: the bound of `RedisQuota` is for the time the key lives.
- Entry details, HTTP status and request fields of the audit trail, which no query looks at, and `parseLimit`.
- Quota.EvictionUnobservable: supposes that calls take the store's lock in the order of their clock readings; the source reads the clock before it takes the lock, so concurrent calls may come out of order.
- Quota.RateBound: supposes the same order of readings, and is for a key that is limited alike throughout the run, because a policy's bucket is fixed while the gateway runs.
- AuditTrail.PagesStable: supposes fewer than 2^63 entries, the largest cursor the store accepts.
