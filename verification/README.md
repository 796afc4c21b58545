# Host Monitoring server: a verified model

A Dafny model of the parts of the Host Monitoring server whose correctness depends on many steps or many
functions at once, with proofs. `dafny verify dfyconfig.toml` checks everything with Dafny's default limits;
`dafny verify --resource-limit 2000000 --verification-time-limit 0 dfyconfig.toml` does so with a limit that does
not depend on the speed of the machine.

**The telemetry database** (`Schema`, `Ingest`, `Lifecycle`, `Retention`, `Cycle`, `Runs`, `Reachable`,
`Guarantees`, `Replay`, `Selection`, `Authority`, `Pairings`, `Enrolment`, `Views`, `Listing`, `Invisible`,
`Database`). Six tables are maps keyed by primary key. Each committed
transaction is one atomic step; a crash, a timeout or a failed commit is no step. `Runs` adds a history of
what was accepted, what went into each hourly bucket and what expired, so that refinement and conservation can
be stated over every interleaving of ingestion, retention, pairing, activation and deletion. `Selection`, `Authority`,
`Enrolment` and `Listing` say in the columns of the tables what each transaction takes, writes and answers, apart from
the functions the transactions are built from. `Database` is the
same thing updated in place, statement by statement, and is proved to follow those steps and to keep the
invariant. `Aggregation` is the arithmetic of the hourly buckets over real numbers; `Tally` and `Basics` are
the small collection theory underneath.

**The telemetry writer** (`Writer`, `WriterBatch`, `Receipts`): submitters, the batching consumer and the shutdown
owner around a bounded channel, as interleaved steps over the database the batches are stored in; and the answers
it hands out, counted against the life of a row.

**Token buckets** (`Limiter`, `Bounded`, `RateLimit`, `BackOff`, `PairedCalls`): one bucket and the limiter that never
forgets; the bounded map with expiry and eviction; when it keeps its rate; and the delays it advertises, alone and when
two are asked in turn.

**Release manifests** (`Paths`, `Release`, `Manifest`, `Accepted`, `ManifestWriter`, `Spelling`): the tree walk with its
set of seen paths, what it decides about the tree, what an accepted release looks like, the script that writes the manifests, and how paths may be spelt.

**Counters in JSON** (`JsonU64`).

## Where the code does less than it says

- The canonical-path test of the release verifier compares a text with itself. `web//assets` is accepted for
  `web/assets` (`Paths.DoubledSlashIsAccepted`), in a whole release too (`Spelling.NonCanonicalIsAccepted`). A manifest
  with the components and fields of an accepted one is accepted exactly if its texts are short enough, strictly
  ascending and exact for the server binary (`Manifest.SpellingAccepted`), and it is canonical exactly when no path has
  an empty or `.` part (`Manifest.AcceptedCanonicalExactly`).
- The rate of a bounded map holds in all runs whose readings go back by at most `slack` exactly when `slack` is 0 and
  entries are kept for at least the time a bucket takes to fill (`RateLimit.RateHoldsExactly`, for every policy and
  capacity). `check_create`, `check_poll` and `check_activation` read the clock before taking the lock, so they do not
  ensure it. `RateLimit.MapBoundInAnyOrder` is what the maps keep whatever the readings.
- The seconds advertised when the second of two limiters refuses are enough, whatever calls came before, if a source
  gains a token within one second. Where the first limiter has room for two sources and a source may ask as often at
  once as the target admits, they are enough only then (`PairedCalls.SecondsSufficeExactly`); a first limiter that
  admits too little for the second ever to refuse is an exception (`PairedCalls.OneSlotSuffices`). So polling advertises
  enough, creating and activating a pairing do not (`PairedCalls.OnlyPollingAdvertisesEnough`), not even to a source
  that is alone (`PairedCalls.AloneRetryIsRefused`). `BackOff.SecondRefusalRetry` says when a repeated call is admitted.
- A report deleted by retention and sent again is accepted again, and an expired hour of which a row arrives late is
  created again: `Replay.AcceptedAndFoldedTwice` is a run that does both, for every report followed by a newer one. A
  report is accepted exactly when its id is not stored (`Ingest.StoreAcknowledges`, `Guarantees.RowsComeFromAcceptance`),
  and a bucket is created exactly when a row of its hour is folded (`Replay.NewBucketExactly`). The history therefore
  counts per stored row, and `Guarantees.ScheduleDoesNotMatter` compares runs that expired the same samples of an hour.

## Model

| member | source | states |
|---|---|---|
| Aggregation.RecordValue | host-monitoring-server/src/retention.rs:457-470 | updating count, minimum, maximum and mean field by field gives the next running summary |
| Aggregation.RecordIsExact | host-monitoring-server/src/retention.rs:458-469 | the running update of an exact summary is the exact count, minimum, maximum and sum/count of the values with the new one |
| Aggregation.MergeIsExact | host-monitoring-server/src/retention.rs:676-686 | the weighted SQL merge of two exact metric summaries is the exact summary of both value lists together, empty sides included |
| Aggregation.CombineIsExact | host-monitoring-server/src/retention.rs:664-695 | upserting an exact bucket into an exact bucket gives the direct summary (samples, interval, nine metrics) of all rows of both |
| Aggregation.ExtendIsExact | host-monitoring-server/src/retention.rs:496-503 | recording one row in an exact accumulator gives the direct summary of the rows with it |
| Aggregation.DirectPermuted | host-monitoring-server/src/retention.rs:538-568 | a bucket depends only on the multiset of rows folded into it, not on their order |
| Aggregation.DescribeInOrder | host-monitoring-server/src/retention.rs:457-470 | minimum, maximum and mean are absent exactly when the count is 0; otherwise min <= mean <= max |
| Aggregation.DirectAccepted | schema/product.sql:171-184 | the summary of rows of one hour passes every CHECK, and its interval ends before the next hour |
| Aggregation.HourlyAggregate.constructor | host-monitoring-server/src/retention.rs:483-494 | a new accumulator is the exact summary of its first row |
| Aggregation.HourlyAggregate.Record | host-monitoring-server/src/retention.rs:496-503 | the accumulator stays the exact summary of the rows recorded, in order, with the new one |
| Aggregation.HourlyAggregate.RecordFields | host-monitoring-server/src/retention.rs:497-502 | the new field values, metric by metric, from the old ones and the row |
| Basics.PageIsFirst | host-monitoring-server/src/retention.rs:527-528 | ORDER BY with LIMIT: the page is strictly sorted and every row left out comes after every row in it |
| Basics.PageHolds | host-monitoring-server/src/retention.rs:527-528 | a row is on the page of an ORDER BY with LIMIT exactly if fewer rows than the limit come before it |
| Basics.PageAt | host-monitoring-server/src/store.rs:724-724 | the row at a place of the page has exactly that many rows before it |
| Schema.TrimExactly | host-monitoring-server/src/store.rs:305-309 | a trimmed text is the one text with no space at either end that is left between spaces |
| Schema.ViewDependsOnLatest | host-monitoring-server/src/store.rs:679-750 | the host list and the host detail depend only on the host table and the rows the latest pointers name |
| Ingest.StoreAcknowledges | host-monitoring-server/src/store.rs:566-652 | an acknowledged report has its row, host and time in the new tables; a refusal changes nothing; rows are never lost or altered; accepted exactly when the id was not stored |
| Ingest.BatchAcknowledges | host-monitoring-server/src/store.rs:528-564 | every answer of a batch is true of the state it commits, and of all submissions of one new report id exactly one is answered accepted if any stuck |
| Ingest.UseIsRecorded | host-monitoring-server/src/store.rs:646-650 | a token's last use becomes the received time of a newly accepted report, and nothing else about any credential changes |
| Authority.OnlyTheOwnTokenStores | host-monitoring-server/src/store.rs:574-580 | a report is stored only for a host its token authenticates; otherwise the answer is Unauthorized, and only then |
| Authority.StoreAnswers | host-monitoring-server/src/store.rs:572-616 | the answer to every submission whose statements succeed: malformed, unauthorized, conflict, stored before with its time, or accepted |
| Authority.FaultsOnlyRefuse | host-monitoring-server/src/store.rs:577-650 | a failing statement refuses the report and changes nothing exactly if the submission comes to it, and otherwise has no effect |
| Authority.StoreWrites | host-monitoring-server/src/store.rs:581-645 | an accepted report is a new row with its own columns and carries its payload exactly if it is newer than what the host shows, whose payload it then replaces; no other row changes |
| Authority.BatchNeedsTokens | host-monitoring-server/src/store.rs:533-564 | every report a batch answers as stored came with the token of its host |
| Authority.StoresForItsPairing | host-monitoring-server/src/store.rs:574-580 | in every reachable state a report is stored for a host only with the token of the pairing that created it, and with that token a new report is accepted |
| Retention.PendingBatch | host-monitoring-server/src/retention.rs:513-531 | the fetched rows are distinct, unmarked, older than the cutoff and not pointed to by any host |
| Retention.PendingBatchIsOldest | host-monitoring-server/src/retention.rs:527-528 | the batch is as large as the limit allows, and every eligible row it leaves is younger than all it takes |
| Retention.GroupedIsOneByOne | host-monitoring-server/src/retention.rs:538-568 | grouping rows by host and hour and upserting each group once equals merging the rows one at a time |
| Retention.BatchIsRowByRow | host-monitoring-server/src/retention.rs:506-585 | a whole batch leaves exactly the tables that folding its rows one by one leaves |
| Selection.BatchExactly | host-monitoring-server/src/retention.rs:513-531 | a row is folded exactly if it is unmarked, older than the cutoff, no host's latest report, and fewer than `limit` such rows come before it in (collected_at, report_id) |
| Selection.FoldMarksExactly | host-monitoring-server/src/retention.rs:570-584 | a fold marks exactly these rows with its own time and changes no other row and no other table but the buckets |
| Selection.FoldWritesExactly | host-monitoring-server/src/retention.rs:538-568 | a fold writes exactly the buckets of the host and hour of a row it takes, with its own time, and lets none end earlier |
| Selection.DeleteExactly | host-monitoring-server/src/retention.rs:587-616 | exactly the first `limit` folded rows that no host shows are deleted, in (aggregated_at, report_id) |
| Selection.ExpireExactly | host-monitoring-server/src/retention.rs:618-644 | exactly the first `limit` buckets that end before the cutoff are deleted, in (interval_end, host_id, bucket_start) |
| Retention.RollUpWork | host-monitoring-server/src/retention.rs:506-585 | a fold uses up at least as much work as it reports rows; none found means none eligible and nothing changed |
| Retention.DeleteMarkedWork | host-monitoring-server/src/retention.rs:587-616 | the same for deleting folded rows |
| Retention.DeleteExpiredWork | host-monitoring-server/src/retention.rs:618-644 | the same for deleting expired buckets |
| Cycle.CycleBounded | host-monitoring-server/src/retention.rs:371-407 | a run stays within its transaction budget, uses up the work it reports, and stopping short of the budget means nothing is left to do |
| Cycle.IdleExactlyWhenFinished | host-monitoring-server/src/retention.rs:401-405 | a run reports no rows exactly when none of the three transactions would find one, and then it changes nothing |
| Cycle.RepetitionFinishes | host-monitoring-server/src/retention.rs:354-408 | repeating a run at a fixed time reaches the fixpoint within 3 * eligible rows + deletable rows + expired buckets runs |
| Cycle.AdmittedRun | host-monitoring-server/src/retention.rs:54-118 | for every configuration that is admitted, a run makes at most 30 transactions and handles at most 30 * 512 rows |
| Selection.RunHonoursRetention | host-monitoring-server/src/retention.rs:354-408 | a run marks and deletes only rows older than now - raw retention (or marked already) that no host shows, deletes only buckets that end before now - aggregate retention, and if it stops short of its budget leaves none of either |
| Selection.RunCounts | host-monitoring-server/src/retention.rs:371-399 | the counters of a run are the rows it marked and the rows it deleted |
| Selection.RunCountsBuckets | host-monitoring-server/src/retention.rs:393-399 | every bucket a run deletes is counted |
| Lifecycle.CreateInviteKeeps | host-monitoring-server/src/store.rs:102-144 | creating an invite keeps the one-to-one binding of hosts, active invites, active pairings and credentials |
| Lifecycle.CancelInviteKeeps | host-monitoring-server/src/store.rs:163-200 | cancelling keeps it; only pending invites are cancelled |
| Lifecycle.CleanupExact | host-monitoring-server/src/store.rs:262-271 | the opportunistic cleanup removes only expired or long-denied requests, the oldest first, as many as there are up to 512 |
| Lifecycle.CreatePairingKeeps | host-monitoring-server/src/store.rs:224-327 | a pairing request and its cleanup of old rows keep it |
| Lifecycle.ActivateNeverViolates | host-monitoring-server/src/store.rs:432-464 | under the binding no insert or update of an activation meets a PRIMARY KEY or UNIQUE constraint |
| Lifecycle.ActivateKeeps | host-monitoring-server/src/store.rs:382-470 | an activation keeps the binding, adding exactly the new host with its invite, pairing and credential |
| Lifecycle.RenameHostKeeps | host-monitoring-server/src/store.rs:816-844 | renaming a host keeps the binding |
| Lifecycle.DeleteHostKeeps | host-monitoring-server/src/store.rs:846-877 | deleting a host with its rows keeps the binding of all the others |
| Reachable.StepKeeps | host-monitoring-server/src/retention.rs:506-644 | every transaction keeps the whole invariant: latest pointers, payloads, exact buckets, conservation and bindings |
| Reachable.ReachableHolds | host-monitoring-server/src/store.rs:508-652 | the invariant holds after every run of transactions from the empty database |
| Guarantees.BucketsSatisfySchema | schema/product.sql:122-184 | in every reachable state each bucket is the direct summary of the rows folded into it and passes every CHECK |
| Guarantees.GroupsSatisfySchema | host-monitoring-server/src/retention.rs:552-568 | what a batch inserts for one host and hour, before any conflict is resolved, passes every CHECK at its own key |
| Guarantees.ScheduleDoesNotMatter | host-monitoring-server/src/retention.rs:506-585 | hour by hour: runs that accepted, left unfolded and expired the same reports of an hour both have no bucket for it or the same summary, whatever batches, order, crashes and other hours |
| Guarantees.HourIsComplete | host-monitoring-server/src/retention.rs:506-585 | an hour of which nothing expired holds exactly its accepted rows without those not folded yet, and has a bucket exactly if there are any |
| Guarantees.CountsBalance | host-monitoring-server/src/retention.rs:513-643 | rows accepted for a host = unfolded rows + sample counts of its live buckets + samples of its expired buckets |
| Guarantees.ExpiryHonoursCutoff | host-monitoring-server/src/retention.rs:618-644 | every sample of a bucket that expires is older than the aggregate cutoff |
| Guarantees.RowLife | host-monitoring-server/src/retention.rs:570-616 | while its host lives a row is removed only after the batch that folded it marked it, and a marked row is never folded again |
| Guarantees.LatestRowIsPinned | host-monitoring-server/src/retention.rs:594-604 | the latest pointer names a live, unfolded row of its own host, and a live row has a payload exactly when it is the latest |
| Guarantees.ViewShowsMaximum | host-monitoring-server/src/store.rs:581-645 | read in one state, the host detail shows the report with the greatest (collected_at, report_id) ever accepted for the host, or none if none was |
| Guarantees.RowsComeFromAcceptance | host-monitoring-server/src/store.rs:590-616 | a step answers accepted for an id exactly when it creates the row |
| Guarantees.AcceptedOncePerLife | host-monitoring-server/src/store.rs:604-616 | over a run, acceptances of an id = removals of its row, plus one if it is stored now |
| Replay.NewBucketExactly | host-monitoring-server/src/retention.rs:506-585 | a step creates a bucket exactly when it folds a row of that host and hour and there is none |
| Replay.AcceptedAndFoldedTwice | host-monitoring-server/src/retention.rs:587-644 | for every report followed by a newer one of its host, a run that accepts it, folds it, deletes its row and expires its hour, after which the same submission is accepted and folded again |
| Views.ViewAfterSubmit | host-monitoring-server/src/store.rs:617-645 | an accepted newest report replaces exactly what its host's page shows, with the later of the two last-seen times; any other submission changes no page |
| Views.ViewAfterActivation | host-monitoring-server/src/store.rs:432-464 | the new host shows its invite's name and its pairing's device, no report, and its token authenticates it alone |
| Views.ViewAfterRename | host-monitoring-server/src/store.rs:816-844 | a renamed host shows the new name and otherwise what it showed |
| Views.RemovalIsComplete | host-monitoring-server/src/store.rs:846-877 | after a deletion no table and no token names the host |
| Views.OnlyTheseChangeAView | host-monitoring-server/src/store.rs:734-750 | apart from a newest report, its activation, its renaming and its deletion, no transaction of the model, retention included, changes the page of a host |
| Views.SplitRead | host-monitoring-server/src/store.rs:734-750 | get_host reads twice: each half is that of its own state, a host deleted in between is the only error, and if nothing that can change the page commits in between the halves are one page |
| Listing.ListHostsExact | host-monitoring-server/src/store.rs:714-732 | a page has min(limit, active - offset) entries, the i-th shows the active host with exactly offset + i active hosts before it in (registered_at, host_id), and the total is the number of active hosts |
| Listing.EveryHostListedOnce | host-monitoring-server/src/store.rs:714-732 | read page after page, every active host is shown exactly once |
| Invisible.RetentionIsInvisible | host-monitoring-server/src/store.rs:679-750 | if report ids keep their host and time, every host page and detail is the same as on a server where retention never does anything, over every interleaving |
| Pairings.PendingStaysBounded | host-monitoring-server/src/store.rs:262-294 | with a clock that does not go back, live pending requests never exceed 4096, nor 4 for one device |
| Pairings.PairingRetry | host-monitoring-server/src/store.rs:232-259 | repeating an answered request at any later point while its row lives gives the same id and expiry, exactly until it expires, and changes no table |
| Pairings.ActivationRetry | host-monitoring-server/src/store.rs:411-424 | activating an active request again changes no table and answers with its host exactly for its own code |
| Pairings.ActivationCommits | host-monitoring-server/src/store.rs:432-469 | in every reachable state an activation ends in an answer, never in a constraint violation |
| Pairings.LinksAreOneToOne | host-monitoring-server/src/store.rs:382-470 | every host, active invite, active pairing and credential is part of a link, and each of the four determines the other three |
| Pairings.InviteEndsOnce | host-monitoring-server/src/store.rs:163-200 | no invite is both activated and cancelled, and an invite is activated exactly when its host exists |
| Pairings.InviteOutcomeIsFinal | host-monitoring-server/src/store.rs:163-200 | over any run an invite keeps its code and instance, and once activated or cancelled it never changes |
| Pairings.TokenNamesOneHost | host-monitoring-server/src/store.rs:472-479 | a token authenticates at most one host: the one whose pairing brought it |
| Enrolment.CreateInviteDecides | host-monitoring-server/src/store.rs:102-144 | when an invite is created, in conflict or a duplicate; a new one is pending with the instance, code and name it was given |
| Enrolment.CancelDecides | host-monitoring-server/src/store.rs:163-200 | an invite is cancelled exactly if it is there and pending; its status and time are written and nothing else changes |
| Enrolment.CancelledStaysCancelled | host-monitoring-server/src/store.rs:183-189 | over every run, while the row of a cancelled invite lives its code activates nothing |
| Enrolment.ActivationDecides | host-monitoring-server/src/store.rs:382-433 | an activation changes the tables if and only if request and invite are pending and the request has not expired; when each answer is given |
| Enrolment.ActivationWrites | host-monitoring-server/src/store.rs:434-469 | the columns of the invite, request, credential and host it writes; no other row changes |
| Enrolment.ActivatedInTime | host-monitoring-server/src/store.rs:429-433 | in every reachable state an active request was activated before it expired, a quarter of an hour after its creation |
| Enrolment.KnownRequestDecides | host-monitoring-server/src/store.rs:232-259 | a request with a known secret is answered from its row: conflict if the device id, one of the five device columns or the token differs, expired, or ready; nothing changes |
| Enrolment.NewRequestDecides | host-monitoring-server/src/store.rs:260-327 | a request with a new secret: the answer in the order of the tests, the first 512 stale rows cleaned up, and a row with the columns of the request exactly if it is ready |
| Enrolment.EnrolsAsRequested | host-monitoring-server/src/store.rs:382-470 | over every run: activating a live request with a live invite's code gives a host that shows the invite's name and the request's device and is authenticated by the request's token alone |
| Enrolment.RemovalIsExact | host-monitoring-server/src/store.rs:846-877 | a deletion takes exactly the rows of its host out of all six tables |
| Database.GroupRows | host-monitoring-server/src/retention.rs:538-550 | the accumulators built by the loop hold, per host and hour, exactly the rows of the batch in that hour, in order |
| Database.Database.constructor | schema/product.sql:1-187 | the empty database satisfies the invariant |
| Database.Database.StoreReportInTransaction | host-monitoring-server/src/store.rs:566-652 | statement by statement, with a failure after any prefix, the answer and on success the tables are those of the one-step form |
| Database.Database.StoreReport | host-monitoring-server/src/store.rs:508-526 | a single submission is one step of the transaction system; a refusal restores every table |
| Database.Database.StoreReportBatch | host-monitoring-server/src/store.rs:533-564 | a batch equals storing its reports one by one, skipping failures; if a savepoint statement or the outer commit fails nothing is answered and nothing changes |
| Database.Database.AggregateRawBatch | host-monitoring-server/src/retention.rs:506-585 | the batch is one step of the transaction system and reports the rows it folded |
| Database.Database.FoldRows | host-monitoring-server/src/retention.rs:537-584 | group, upsert, mark: the tables of the row-by-row form, and the marker count always equals the batch size |
| Database.Database.MarkRows | host-monitoring-server/src/retention.rs:570-579 | exactly the unmarked rows among the ids are marked, and they are what is counted |
| Database.Database.UpsertAll | host-monitoring-server/src/retention.rs:552-568 | one upsert per accumulator, in any order, merges each group into its bucket and leaves the others |
| Database.Database.DeleteAggregatedRawBatch | host-monitoring-server/src/retention.rs:587-616 | one step of the transaction system; the guarded delete removes exactly the page its subquery selected |
| Database.Database.DeleteExpiredAggregateBatch | host-monitoring-server/src/retention.rs:618-644 | one step of the transaction system, removing the oldest expired buckets |
| Database.Database.RunCycle | host-monitoring-server/src/retention.rs:354-408 | the loop over a mutable outcome gives the tables and counters of the round-by-round form, and keeps the invariant; in the times of its configuration, it marks, deletes and leaves what `Selection.RunHonoursRetention` says |
| Database.Database.CreateInvite | host-monitoring-server/src/store.rs:102-144 | one step of the transaction system with its answer |
| Database.Database.CancelInvite | host-monitoring-server/src/store.rs:163-200 | one step of the transaction system with its answer |
| Database.Database.CreatePairing | host-monitoring-server/src/store.rs:224-327 | one step of the transaction system with its answer |
| Database.Database.Activate | host-monitoring-server/src/store.rs:382-470 | one step of the transaction system with its answer, which is never a constraint violation |
| Database.Database.WriteActivation | host-monitoring-server/src/store.rs:432-469 | four writes each checked against its own table's constraints succeed together or change nothing |
| Database.Database.HostForToken | host-monitoring-server/src/store.rs:472-479 | the answer is the set of hosts the token authenticates, which has at most one member |
| Database.Database.UpdateRemark | host-monitoring-server/src/store.rs:816-844 | one step of the transaction system, changing the name of an existing host only |
| Database.Database.DeleteHost | host-monitoring-server/src/store.rs:846-877 | one step of the transaction system; the host goes with all its rows |
| Limiter.RateBound | host-monitoring-server/src/pairing_admission.rs:201-228 | in the limiter that never forgets, for every key and window [s, t] of a run in order, admitted calls <= burst + (t - s) / refill interval |
| Limiter.BoundInAnyOrder | host-monitoring-server/src/pairing_admission.rs:210-228 | the limiter that never forgets, whatever the order of readings: admitted calls <= burst + refilled time / refill interval |
| Bounded.BoundedBuckets.constructor | host-monitoring-server/src/pairing_admission.rs:242-251 | a new map is empty |
| Bounded.BoundedBuckets.CheckAt | host-monitoring-server/src/pairing_admission.rs:253-265 | one step of the map whatever reading it brings: the answer and the entries left are decided by the unexpired entries, and there are never more than the capacity |
| Bounded.BoundedBuckets.MakeRoom | host-monitoring-server/src/pairing_admission.rs:267-293 | refuses exactly when the map is at capacity with no full entry, with the shortest wait; otherwise evicts at most the full entry seen longest ago |
| Bounded.EvictsOldest | host-monitoring-server/src/pairing_admission.rs:267-293 | a call evicts at most one unexpired entry, only for a new key at capacity, and it is full and the full one seen longest ago |
| Bounded.NeverAboveCapacity | host-monitoring-server/src/pairing_admission.rs:267-279 | over every run, in any order of readings, the map never exceeds its capacity |
| Bounded.ExpiryAgrees | host-monitoring-server/src/pairing_admission.rs:253-256 | expiry drops only entries whose ideal bucket is full |
| Bounded.SafeExactlyWhenKeptLongEnough | host-monitoring-server/src/pairing_admission.rs:254-255 | expiry never forgets a bucket that is not full exactly when the time to live is at least burst * refill interval |
| Bounded.SameCheck | host-monitoring-server/src/pairing_admission.rs:257-264 | a key the map has lost is answered as if it had been kept |
| Bounded.BoundedIsIdeal | host-monitoring-server/src/pairing_admission.rs:253-293 | over every run in order with entries kept long enough, each answer but a capacity refusal is that of the limiter that never forgets, and what the map dropped is full there |
| RateLimit.RateHoldsExactly | host-monitoring-server/src/pairing_admission.rs:201-265 | for every policy, capacity and time to live: all runs of the map whose readings go back by at most slack stay within burst + (t - s) / refill interval in every window, if and only if slack is 0 and entries are kept long enough |
| RateLimit.EarlierReadingOverAdmits | host-monitoring-server/src/pairing_admission.rs:101-112 | for every policy and every positive slack, a run of the map that exceeds the rate |
| RateLimit.ShortMemoryOverAdmits | host-monitoring-server/src/pairing_admission.rs:253-256 | for every policy whose entries expire too early, a run in order that exceeds the rate |
| RateLimit.MapBoundInAnyOrder | host-monitoring-server/src/pairing_admission.rs:201-265 | whatever the readings, a key of the map is admitted at most burst times its renewals plus the time its entries were refilled for / refill interval |
| BackOff.ThrottledDelayExact | host-monitoring-server/src/pairing_admission.rs:216-228 | after a refusal by an empty bucket the repeated call is admitted exactly from the moment the delay has passed |
| BackOff.NoRoomDelayExact | host-monitoring-server/src/pairing_admission.rs:281-293 | after a capacity refusal the repeated call is admitted exactly from the shortest wait on |
| BackOff.RetryAfter | host-monitoring-server/src/pairing_admission.rs:310-318 | the whole-second value is the ceiling of the delay, at least 1 |
| BackOff.RefusedExact | host-monitoring-server/src/pairing_admission.rs:216-293 | over entries a run leaves, a refused call would be admitted from the returned delay on, and not before unless that is the least delay of a capacity refusal |
| BackOff.BackOffSuffices | host-monitoring-server/src/pairing_admission.rs:310-318 | after any refusal by one limiter, waiting the advertised seconds with no call in between is enough for that limiter |
| BackOff.SecondRefusalRetry | host-monitoring-server/src/pairing_admission.rs:101-138 | a call the second limiter refused, repeated after its delay, is admitted if and only if the source's own wait after the spent token has passed as well |
| BackOff.FirstRefusalRetry | host-monitoring-server/src/pairing_admission.rs:101-138 | a call the first limiter refused, repeated after its delay, passes it and is admitted if and only if the second would admit it then |
| BackOff.ReportBucketsAreTheSame | host-monitoring-server/src/http.rs:140-178 | the report limiter's tokens, delay and wait are those of a policy of 64 tokens and a sixteenth of a second |
| BackOff.ProductionKeepsLongEnough | host-monitoring-server/src/pairing_admission.rs:14-40 | every limiter in service keeps entries at least as long as a bucket takes to fill |
| BackOff.CheckBoth | host-monitoring-server/src/pairing_admission.rs:101-138 | the second limiter is asked only if the first admits, a call it refuses has spent its source token, and the seconds returned are those of the limiter that refused |
| PairedCalls.SecondsSufficeExactly | host-monitoring-server/src/pairing_admission.rs:101-138 | over all runs of paired calls that end in a refusal by the second limiter: the advertised seconds are always enough if a source gains a token within one second; with room for two sources and a source burst of at least the target's, only then |
| PairedCalls.OneSlotSuffices | host-monitoring-server/src/pairing_admission.rs:101-138 | with a single source slot of a single token that refills no faster than a target fills, the second limiter never refuses, so they are enough however slow it is |
| PairedCalls.OnlyPollingAdvertisesEnough | host-monitoring-server/src/pairing_admission.rs:27-40 | with the production policies the seconds are always enough for polling, and not for creating and activating |
| PairedCalls.AloneRetryIsRefused | host-monitoring-server/src/pairing_admission.rs:101-138 | for creating and for activating, a run of calls by one source for one device or request after which a call is refused, told one second, and refused again after it |
| Writer.ReachableHolds | host-monitoring-server/src/telemetry.rs:312-378 | conservation, bounds and the shutdown handshake hold in every reachable state |
| Writer.NothingLost | host-monitoring-server/src/telemetry.rs:248-378 | sent reports = finished batches ++ batch being built ++ queue; queue + permits <= capacity; batch sizes within 1..batch_size; completed + failed = items of finished batches |
| Writer.ExitIsComplete | host-monitoring-server/src/telemetry.rs:341-343 | on normal exit everything ever sent has been in a finished batch, queue and permits are empty and nothing can be sent any more |
| Writer.AnsweredAtMostOnce | host-monitoring-server/src/telemetry.rs:418-430 | no submission is in two batches or twice in one |
| Writer.CountersAreExact | host-monitoring-server/src/telemetry.rs:380-430 | over every run: batches, stored reports, failed reports and the largest batch are those of the finished batches |
| Writer.NoLostShutdown | host-monitoring-server/src/telemetry.rs:291-343 | after the request is stored and notified the writer never blocks without a closed channel or a pending permit, and no notification is ever seen unrequested |
| Writer.ShutdownProgresses | host-monitoring-server/src/telemetry.rs:319-375 | after the request every writer step, and every send on the closed channel, leaves strictly less to do, and no other step leaves more |
| Writer.DrainingTerminates | host-monitoring-server/src/telemetry.rs:291-303 | from the request on the writer makes at most 9 * capacity + 10 steps, whatever submitters do |
| Writer.BatchWasEnded | host-monitoring-server/src/telemetry.rs:380-416 | every finished batch was ended by one step of the run, from the tables of that moment and leaving the tables of the next |
| Writer.AnswersAreTrue | host-monitoring-server/src/telemetry.rs:392-430 | over every run with other transactions in between, an answer that says stored has its row, same host and returned time, in the tables its batch committed; a batch that does not commit changes nothing |
| Receipts.AcceptedOnceEach | host-monitoring-server/src/telemetry.rs:380-431 | over every run of the writer with the server's other transactions in between, the accepted answers handed out for a report id = removals of its row, plus one if it is stored |
| WriterBatch.WriterCounters.PersistBatch | host-monitoring-server/src/telemetry.rs:380-431 | stores the batch in the database; every submitter receives exactly its own answer, or that nothing committed; counters follow, and abandoned counts those no longer waiting |
| JsonU64.ParseIsPrintBackwards | protocol/src/json_u64.rs:66-74 | parsing succeeds exactly on the decimal text of a u64, and printing the result gives the text back |
| JsonU64.ParseErrors | protocol/src/json_u64.rs:66-74 | which error a refused text gets: not a decimal of any number, or of one above the u64 range |
| JsonU64.RoundTrip | protocol/src/json_u64.rs:10-26 | decoding the encoding gives every u64 back |
| JsonU64.NumbersAreExact | protocol/src/json_u64.rs:37-56 | values above 2^53 - 1 are never written as numbers nor accepted as numbers |
| JsonU64.DecodesExactly | protocol/src/json_u64.rs:37-64 | the complete list of JSON values that decode to a given value |
| JsonU64.OptionRoundTrip | protocol/src/json_u64.rs:76-122 | absent and present counters survive the round trip, and null is written exactly for absent |
| Paths.JoinIsValidated | host-monitoring-server/src/release_bundle.rs:457-479 | the text of valid names is read back as those names |
| Paths.CanonicalExactly | host-monitoring-server/src/release_bundle.rs:474-477 | an accepted text is the canonical spelling exactly when it has no empty and no "." part |
| Paths.DoubledSlashIsAccepted | host-monitoring-server/src/release_bundle.rs:474-477 | a doubled slash is accepted although it is not canonical |
| Release.ParseEntries | host-monitoring-server/src/release_bundle.rs:186-227 | succeeds exactly on well-formed, strictly sorted entries with distinct paths, and gives the map from paths to entries |
| Release.PairedHas | host-monitoring-server/src/release_bundle.rs:221-224 | the map has exactly one entry per listed path, each under its own path |
| Release.ValidateExactLayout | host-monitoring-server/src/release_bundle.rs:229-296 | accepts exactly the fixed directories and files plus compiled assets with at least one script |
| Release.Walk.ValidateDirectory | host-monitoring-server/src/release_bundle.rs:305-406 | the recursive walk accepts exactly when everything below matches, nothing was seen before and both limits hold; the seen set and counters then are exactly what lies below |
| Release.Walk.ValidateChild | host-monitoring-server/src/release_bundle.rs:343-398 | the same for one child and everything below it, skipping the root manifest |
| Manifest.ItemsAreTree | host-monitoring-server/src/release_bundle.rs:341-353 | the walk visits exactly the nodes paths lead to, apart from the root manifest |
| Manifest.WalkDecides | host-monitoring-server/src/release_bundle.rs:134-142 | a finished walk with as many seen paths as entries means exact agreement of manifest and tree in both directions |
| Manifest.VerifyRelease | host-monitoring-server/src/release_bundle.rs:81-152 | a release is accepted if and only if root, manifest file, entries and layout are as demanded and the tree without the manifest agrees with the entries exactly in paths, kinds, modes, sizes and digests, within the size limit; the counts are those of the tree |
| Accepted.NothingElseInside | host-monitoring-server/src/release_bundle.rs:229-400 | everything in an accepted tree but its manifest is a directory or file of the layout with its exact mode and one link, and the manifest states it exactly once with mode, size and digest |
| Accepted.NothingMissing | host-monitoring-server/src/release_bundle.rs:134-142 | every entry of an accepted manifest is in the tree, and so are the fixed directories and files and some script |
| Accepted.EntriesArePlain | host-monitoring-server/src/release_bundle.rs:186-227 | entries of an accepted manifest ascend strictly, have at most 1024 characters, and between their slashes is nothing, a single dot or a plain name, so that none leaves the release |
| Accepted.RootLooksLike | host-monitoring-server/src/release_bundle.rs:154-184 | root and manifest file of an accepted release have exactly the demanded modes, link count and size limits |
| Accepted.ModeTexts | host-monitoring-server/src/release_bundle.rs:498-504 | each of the two modes has exactly one spelling |
| Manifest.SpellingAccepted | host-monitoring-server/src/release_bundle.rs:186-227 | a manifest with the components and fields of an accepted one is accepted if and only if its texts are at most 1024 long, strictly ascending and exact for the server binary |
| Spelling.CanonicalAccepted | host-monitoring-server/src/release_bundle.rs:81-152 | a release of the fixed files and one script, accepted with the entries the script's sort and format give for its tree |
| Spelling.NonCanonicalIsAccepted | host-monitoring-server/src/release_bundle.rs:474-477 | an accepted release whose manifest is not canonical |
| Manifest.AcceptedCanonicalExactly | host-monitoring-server/src/release_bundle.rs:474-477 | an accepted manifest is canonical exactly when no path text has an empty or "." part |
| ManifestWriter.WriteManifest | scripts/write-server-release-manifest.py:110-148 | fails exactly on what the script refuses, and otherwise writes one entry per path in text order |
| ManifestWriter.SortAscends | scripts/write-server-release-manifest.py:112-112 | sorting by path text gives strictly ascending texts |
| ManifestWriter.WrittenIsAccepted | scripts/write-server-release-manifest.py:110-181 | every manifest written for a tree with the fixed layout is accepted, given the mode of the root and a manifest file within 8 MiB |

## Left out

- Floating point: means and tokens are real numbers; f64 rounding, infinities and NaN, and the rounding of durations to nanoseconds, are not modelled.
- Timestamps are integers; their RFC 3339 text and its comparison inside SQLite are not modelled. UUIDs and digests are integers compared for equality and order; SHA-256 is a field of the file node.
- Fresh identifiers: UUID generation is the assumption (`Runs.Enabled`) that a drawn instance, request or credential id is not in use.
- Database.Database.CreateInvite: that the instance id is fresh is a precondition; the conflict and duplicate-code branches are modelled all the same.
- Bounded.BoundedIsIdeal: a clock that does not go back is a precondition; what holds and what fails otherwise is in `RateLimit`.
- PairedCalls.SecondsSufficeExactly: the "only then" is for maps with room for two sources whose burst is at least the target's, as all in service are; `PairedCalls.OneSlotSuffices` shows that it fails without.
- Receipts.AcceptedOnceEach: reports are stored by the writer alone, as in the product; other transactions are those of `Runs` except submissions.
- Pairings.PendingStaysBounded: the wall clock is assumed not to go back between pairing requests.
- Invisible.RetentionIsInvisible: assumes that one report id always carries the same host and collection time, as clients send it.
- Writer.DrainingTerminates: bounds the writer's steps; that the runtime schedules them, and the real time they take before the drain deadline aborts it, are not modelled.
- Writer: which branch a `select!` takes, timers, failing statements and what other transactions do to the tables (but in `Receipts`) are arbitrary; a send whose submitter has given up is a step like any other. The run loop is a state machine because its meaning lies in the interleaving; the imperative form is kept for `persist_batch`.
- Manifest.VerifyRelease: header fields, binary identity and the running executable are one boolean; the root's position in the file system, device and inode re-reads and files that change during the walk are left out, and a file's content is its size and digest.
- Manifest.ItemsAreTree: distinct names within one directory are assumed of the file system.
- SQLite itself: WAL, locking, pragmas, type affinity and timeouts are replaced by atomic transactions and failures; ties of equal `created_at` in the pairing cleanup are broken by request id.
- The text checks of model.rs, Unicode trimming beyond ASCII spaces, capabilities and the derived host status are carried as opaque values or left out.
- audit_events, invite listing, history paging, administrator sessions, HTTP routing and error envelopes: no state that the properties above depend on.
- Schema.ViewDependsOnLatest: the total and the page of `list_hosts`, two statements in the code, are read in one state.
- Guarantees.ViewShowsMaximum: is about one state; `Views.SplitRead` says what two statements in two states of a run give.
- `denied` pairings, revoked credentials and inactive hosts exist as values, but no product code sets them; reachable states have none.
- The retention and writer counters that only report (saturating sums, enqueued time) apart from those named above.
