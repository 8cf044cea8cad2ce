# Verification model

A Dafny model of the stateful cores of the repository, and proofs of what they
keep. It covers the database acquisition budget, the S3 transcript store and
its keyspace prefix, the desktop replay cutoff and masking, the shared analytics
session, url redaction and its persistence sweeps, the content security policy
of the local path, and Storybook's sort order. `dafny verify dfyconfig.toml`
checks all of it.

## Structure

| file | subject |
|---|---|
| `Sequences.dfy`, `Optional.dfy`, `Text.dfy`, `Json.dfy`, `Redaction.dfy` | shared vocabulary: distinct sequences, options, splitting and joining, JSON objects in key order, the redaction marker |
| `AcquisitionBudget.dfy` | the permit semaphore, as a step system and as the class that updates it in place |
| `PermitBinding.dfy` | permits bound to reused pool clients, over every interleaving of release, done, remove and connect failure |
| `BudgetProgress.dfy` | deadlock freedom and termination of finite workloads |
| `BudgetScopes.dfy` | which budget a connect in a tree of scopes is charged to, idempotent gating, and the ceiling this puts on the tree's connections |
| `CopySource.dfy` | the copy-source header: encoding, prefixing, S3's reading |
| `S3Store.dfy` | an abstract S3: objects, open multipart uploads, listings, what each command does, and the laws that make it a store |
| `KeyspacePrefix.dfy` | the prefix middleware as a refinement of a private bucket |
| `KeyspaceLimits.dfy` | for each kind of command, exactly when that refinement holds |
| `TranscriptAppend.dfy` | copy-append over interleaved uploads, guarded or not |
| `TranscriptBatches.dfy` | the paginated part listing and the batched delete |
| `FormDecoding.dfy` | strict and lenient percent-decoding over UTF-8 |
| `RedactUrl.dfy` | the url query redaction and the reader it protects against |
| `DeepRedaction.dfy` | the depth-bounded walk of event payloads |
| `PersistenceRepair.dfy` | the two sweeps of the persisted person-info records |
| `DesktopReplay.dfy` | the discard cutoff and the wait for batches in flight |
| `AttributeMasking.dfy` | attribute text and record-id masking of snapshots |
| `SharedSession.dfy` | choosing and writing the most recent session |
| `SessionCandidates.dfy` | the same from outside: which sessions cookies and storage hold, and which one is loaded |
| `CspPolicy.dfy` | merging, printing and reading the policy |
| `StorySort.dfy` | the flat tree encoding, its walk, and the sidebar order |

Where the source updates an object, the model has a class with those fields
whose methods are proved equal to a step of a specification, and the laws are
lemmas about every run of that specification. Where the source loops, a method
loops, proved against a function.

## What the code does not promise

These come from proving the laws exactly. Each has a lemma with a condition in
both directions or a concrete run.

- A checkout's `finish` deletes the registration of its client whoever has the
  client by then. If it runs again after the client was lent anew, the new
  checkout's permit is no longer returned when that client is destroyed. The
  permit comes back exactly when no such call happened
  (`PermitBinding.RemoveFreesPermitExactlyWhenNotStale`, `StaleCallExample`).
  The comment at `packages/database/acquisition-budget.ts:286` says wrapping
  cannot stack across checkouts; the registration map is shared across them all
  the same.
- A budget serves a caller that holds everything until all has arrived exactly
  when it asks for no more than the limit (`BudgetProgress.AllAtOnce`).
- A command on one key, whether object, upload or copy, agrees with the private
  bucket exactly when S3 accepts the keys it looks at both with and without the
  prefix, or in neither form; a copy source that names no key is refused on both
  sides (`KeyspaceLimits.KeyCommandExactly`). A batch delete agrees exactly when S3
  refuses the batch in both forms or in neither
  (`KeyspaceLimits.DeleteObjectsExactly`). An empty key, which S3 refuses, becomes
  the prefix itself (`KeyspaceLimits.EmptyKeyReachesThePrefix`).
- `ListObjects` is treated as a listing, but its `Marker` is not rewritten. For any
  prefix, delimiter and page size the listing agrees over all stores exactly when
  there is no marker, when no keys are asked for, or when the marker comes before
  all of the listed prefix, or after all of it, in the same way with and without the
  tenant's prefix (`KeyspaceLimits.MarkerIsNotRewritten`).
- A delete that returns normally has removed all its keys exactly when each one that
  was stored is dropped by a batch that asked for it. With keys that are given once
  and all stored that means that no batch answered an error: errors without a key
  are skipped (`TranscriptBatches.NormalReturnExactly`, `DistinctKeysGoneExactly`,
  and `SilentErrorExample` for a key that stays).
- A listing of parts ends early at a truncated page that names no next marker
  (`TranscriptBatches.WholeExactly`, `CutShortExample`).
- `ifMatchEtag` is optional. An accepted append extends the object if the object
  still has the ETag the append was planned on, and only then when ETags tell
  contents apart; over whole runs no accepted change is lost under the same
  condition. Two appenders of which one completes without its `If-Match` lose an
  update (`TranscriptAppend.AppendExtendsTheObject`, `NothingLostExactlyWhenTimely`,
  `UnguardedAppendLosesUpdate`).
- Colliding payload keys keep every array element exactly when no array with
  elements is followed by a value of another kind under the same key
  (`DeepRedaction.CollisionsKeepElementsExactly`).
- `none` absorbs the other values only when the caller spells it with both quotes or
  neither. A default `none`, or a caller's half-quoted `'none`, prints beside the
  other values of the merged directive (`CspPolicy.NoneStandsAloneExactly`,
  `HalfQuotedNoneIsNotAbsorbed`).
- The load rule ends with the newest session except for a local tuple that is
  neither resumable nor replaceable (`SharedSession.LoadsTheNewestExactly`,
  `NotComparableExample`).
- A second call writes although the first did not exactly when the local tuple is
  cleared and the newest cookie session, idle by the first call's clock, is active by
  the second's, so only when the clock went back
  (`SharedSession.SecondCallWritesExactly`, `ClockSetBackExample`).

## Model

| member | source | states |
|---|---|---|
| AcquisitionBudget.ClampBudgetLimit | packages/database/acquisition-budget.ts:231-236 | a limit is at least 1, the floor of a finite one from 1 up |
| AcquisitionBudget.Fates | packages/database/acquisition-budget.ts:238-278 | granted, queued and rejected calls are disjoint and together are all calls |
| AcquisitionBudget.AcquireKeepsInv | packages/database/acquisition-budget.ts:238-262 | a call keeps the semaphore invariant |
| AcquisitionBudget.FireKeepsInv | packages/database/acquisition-budget.ts:244-252 | a timer that runs finds its own waiter in the queue, takes out that one only and keeps the invariant |
| AcquisitionBudget.StepKeepsInv | packages/database/acquisition-budget.ts:238-278 | every step keeps it |
| AcquisitionBudget.StepEffects | packages/database/acquisition-budget.ts:264-278 | grants are never withdrawn, and only a permit's own releaser gives it back |
| AcquisitionBudget.RunKeepsInv | packages/database/acquisition-budget.ts:98-106 | every run keeps it |
| AcquisitionBudget.EveryRun | packages/database/acquisition-budget.ts:231-278 | in every reachable state `inUse` is the number of granted and unreleased permits, at most the limit, and equal to it while anyone waits; each call is settled at most once; armed timers are those of the queued waiters |
| AcquisitionBudget.GrantedInArrivalOrder | packages/database/acquisition-budget.ts:264-278 | of two calls that did not time out, the earlier is granted first |
| AcquisitionBudget.SettledForGood | packages/database/acquisition-budget.ts:238-278 | a grant, rejection or release is never undone, and the limit never changes |
| AcquisitionBudget.WillQueueForPermitPredicts | packages/database/acquisition-budget.ts:399-409 | the prediction holds exactly when the call then queues under a timer; a call granted at once overtakes nobody |
| AcquisitionBudget.DbAcquisitionBudget.constructor | packages/database/acquisition-budget.ts:98-106 | a new budget is the initial state under the clamped limit |
| AcquisitionBudget.DbAcquisitionBudget.AcquirePermit | packages/database/acquisition-budget.ts:238-262 | updates the fields as the Acquire step and grants at once exactly when it was not predicted to queue |
| AcquisitionBudget.DbAcquisitionBudget.TimerFires | packages/database/acquisition-budget.ts:244-252 | the index search and splice are the Fire step |
| AcquisitionBudget.DbAcquisitionBudget.CallReleaser | packages/database/acquisition-budget.ts:264-278 | the flag test, decrement, shift and grant are the Release step, and releasing again does nothing |
| PermitBinding.StepKeepsInv | packages/database/acquisition-budget.ts:146-178 | every pool or budget event keeps permits, registrations and lent clients linked |
| PermitBinding.RunKeepsInv | packages/database/acquisition-budget.ts:293-360 | so does every run, client reuse and repeated releases included |
| PermitBinding.LentExactly | packages/database/acquisition-budget.ts:293-360 | in every run a client is lent under a permit if and only if the events say so: it was lent under it, and neither given back through that checkout nor destroyed since |
| PermitBinding.OpenedLimit | packages/database/acquisition-budget.ts:98-106 | in every run a scope's budget has the limit it was opened with: the floor, at least one, and five for a limit that is not finite |
| PermitBinding.CheckoutsNeverExceedLimit | packages/database/acquisition-budget.ts:293-360 | in every run, stale and double releases included, no more clients are out under a scope's permits than the limit the scope was opened with, and no permit is returned twice |
| PermitBinding.GivingBackAgainReleasesNothing | packages/database/acquisition-budget.ts:298-311 | `release` and `done` of one checkout, any number of times and with any run in between, other checkouts of the client included: the first returns its permit, no later one moves a budget |
| PermitBinding.RemoveFreesPermitExactlyWhenNotStale | packages/database/acquisition-budget.ts:158-162 | destroying a lent client returns its permit if and only if no other checkout's `finish` ran since it was lent |
| PermitBinding.RunKeepsConserved | packages/database/acquisition-budget.ts:293-360 | without stale calls, a bound permit is out if and only if its client is lent under it |
| PermitBinding.PermitsOutAreCheckoutsOrConnects | packages/database/acquisition-budget.ts:313-360 | without stale calls, held permits are exactly the connects in progress and the lent clients |
| PermitBinding.RemovedClientHoldsNothing | packages/database/acquisition-budget.ts:158-162 | without stale calls, a destroyed client leaves none of the permits it ever carried held |
| PermitBinding.StaleCallLeaksPermit | packages/database/acquisition-budget.ts:298-302 | one stale call, and the client's destruction no longer returns its permit |
| PermitBinding.StaleCallExample | packages/database/acquisition-budget.ts:298-302 | a run of eight steps in which that happens |
| PermitBinding.GatedPool.BindPermitToClient | packages/database/acquisition-budget.ts:293-311 | registers the `finish` of the checkout, as the Connected step |
| PermitBinding.GatedPool.RunFinishClosure | packages/database/acquisition-budget.ts:298-301 | `finish` deletes by client and releases its own permit |
| PermitBinding.GatedPool.ReleaseClient | packages/database/acquisition-budget.ts:306-309 | the wrapped `release`, and the wrapped `done`, as the GivenBack step |
| PermitBinding.GatedPool.OnRemove | packages/database/acquisition-budget.ts:158-162 | the listener, as the Removed step |
| BudgetProgress.StepDecreases | packages/database/acquisition-budget.ts:46-55 | every step of a workload lowers a measure, at most three steps an acquisition |
| BudgetProgress.RunKeepsInv | packages/database/acquisition-budget.ts:46-55 | held permits belong to holding tasks and queued calls to waiting ones, in every run |
| BudgetProgress.SomeoneCanMove | packages/database/acquisition-budget.ts:46-55 | in every reachable state that is not final some step other than a timer is enabled, for any limit |
| BudgetProgress.WaiterMayGiveUp | packages/database/acquisition-budget.ts:238-262 | in every reachable state a waiting task's timeout can run, and it ends its wait only |
| BudgetProgress.EveryWorkloadSettles | packages/database/acquisition-budget.ts:46-55 | a run is bounded by the workload, and when no task has work left nothing is held or queued |
| BudgetProgress.AllAtOnce | packages/database/acquisition-budget.ts:46-48 | acquisitions that are all held until the last arrives are all served if and only if they are no more than the limit |
| BudgetScopes.ChargedToOutermost | packages/database/acquisition-budget.ts:115-127 | in any tree of nested and detached scopes each connect sees the outermost scope's budget |
| BudgetScopes.OneCallPerConnect | packages/database/acquisition-budget.ts:146-178 | however often a pool is gated, each connect of a tree calls for a permit exactly once, on the budget it is charged to, and not at all outside every scope |
| BudgetScopes.PoolObject.GateDbAcquisitions | packages/database/acquisition-budget.ts:146-178 | the stamp is set and the gate installed in place, once; every connect then calls for one permit in a scope and none outside |
| BudgetScopes.OneBudgetForTheTree | packages/database/acquisition-budget.ts:94-127 | work under one scope, or under sibling scopes given one budget, is charged to that budget alone |
| BudgetScopes.OneCeilingForTheTree | packages/database/acquisition-budget.ts:108-178 | in every run of such a pool whose permit calls are connects of the tree, all its clients out together number at most the limit the outermost scope was opened with |
| PermitBinding.LentWasCalled | packages/database/acquisition-budget.ts:293-360 | in every run a client is out under a permit only if that permit was called for |
| CopySource.ReadEncodedCopySource | packages/aws/transcript-storage.ts:77-80 | S3 reads an encoded source back as the bucket and the very key, for every key |
| CopySource.PrefixEncodedCopySource | packages/aws/s3-keyspace-prefix.ts:191-200 | prefixing an encoded source is encoding the prefixed key |
| CopySource.ReadPrefixedCopySource | packages/aws/s3-keyspace-prefix.ts:191-200 | for any header, S3 reads the prefixed one as the same source with the prefix before its key |
| CopySource.PrefixGoesBehindTheBucket | packages/aws/s3-keyspace-prefix.ts:191-200 | with a leading slash or without, the encoded prefix goes in behind the bucket's slash and nothing else moves |
| CopySource.ThrowsExactly | packages/aws/s3-keyspace-prefix.ts:193-197 | it throws if and only if there is no slash, a leading one aside |
| CopySource.PathByteExactly | packages/aws/transcript-storage.ts:77-80 | a byte of a key stands for itself if it is a slash or one that `encodeURIComponent` leaves alone, else for its escape in capitals |
| KeyspacePrefix.OverrideInput | packages/aws/s3-keyspace-prefix.ts:130-159 | the overrides, field by field, give the prefixed input or the thrown error |
| KeyspacePrefix.OnlyKeysArePrefixed | packages/aws/s3-keyspace-prefix.ts:130-159 | only the fields that name keys are prefixed and only those that are there, but a listing always gets a prefix |
| KeyspacePrefix.OverrideOutput | packages/aws/s3-keyspace-prefix.ts:161-185 | and the stripped output |
| KeyspacePrefix.FailingResolverRejects | packages/aws/s3-keyspace-prefix.ts:112-121 | while the resolver fails, every call of a sequence is rejected and the store stays as it was |
| KeyspacePrefix.MalformedPrefixRejectsExactly | packages/aws/s3-keyspace-prefix.ts:122-127 | every call of a sequence is rejected for its prefix, the store as it was, if and only if the prefix is not empty and lacks the final slash or has a leading one |
| KeyspacePrefix.NoResolverIsPlain | packages/aws/s3-keyspace-prefix.ts:101-120 | without a resolver the answers and the store are those of the plain calls |
| KeyspacePrefix.ListThroughView | packages/aws/s3-keyspace-prefix.ts:140-145 | a listing of the prefixed keys, stripped, is the listing of the view, for any two markers that cut alike: order, paging and common prefixes included |
| KeyspacePrefix.CopyThroughView | packages/aws/s3-keyspace-prefix.ts:146-148 | a copy through the middleware reads what a copy in the view reads |
| KeyspacePrefix.DeleteThroughView | packages/aws/s3-keyspace-prefix.ts:149-157 | a batch delete removes and reports in the view what the plain one would, and touches nothing outside |
| KeyspacePrefix.KeyCommandAgrees | packages/aws/s3-keyspace-prefix.ts:137-139 | every command on one key, those on open uploads included, does to the view what the plain one would and answers alike, and moves nothing outside |
| KeyspacePrefix.OneCallRefines | packages/aws/s3-keyspace-prefix.ts:94-110 | one call answers and changes the view as the unprefixed call on the view does |
| KeyspacePrefix.PrivateBucket | packages/aws/s3-keyspace-prefix.ts:94-185 | for every sequence of calls, uploads and part copies included: same answers, same final view, nothing outside the prefix moved |
| KeyspaceLimits.KeyCommandExactly | packages/aws/s3-keyspace-prefix.ts:137-148 | any command on one key, copies included, agrees with the private bucket if and only if S3 accepts the keys it looks at in both forms or in neither, or its copy source names no key |
| KeyspaceLimits.DeleteObjectsExactly | packages/aws/s3-keyspace-prefix.ts:149-157 | a batch delete agrees if and only if S3 refuses the batch in both forms or in neither |
| KeyspaceLimits.EmptyKeyReachesThePrefix | packages/aws/s3-keyspace-prefix.ts:137-139 | an empty key writes the object named by the prefix |
| KeyspaceLimits.SameCutExactly | packages/aws/s3-keyspace-prefix.ts:81-86 | which markers select the same keys with and without the prefix |
| KeyspaceLimits.MarkerIsNotRewritten | packages/aws/s3-keyspace-prefix.ts:81-86 | for any prefix, delimiter and page size, a `ListObjects` agrees over all stores if and only if it has no marker, asks for no keys, or has such a marker |
| TranscriptAppend.SortedKeeps | packages/aws/transcript-storage.ts:283-291 | sorting keeps the supplied parts and is strictly ascending exactly when no number repeats |
| TranscriptAppend.AppendIsCopyThenDelta | packages/aws/transcript-storage.ts:123-158 | a completed append is the copied bytes followed by the delta |
| TranscriptAppend.StepKeepsInv | packages/aws/transcript-storage.ts:102-158 | every step of every program, guarded or not, keeps an appender's part 1 what its planned ETag stands for |
| TranscriptAppend.RunKeepsInv | packages/aws/transcript-storage.ts:102-158 | so does every interleaving |
| TranscriptAppend.AppendExtendsTheObject | packages/aws/transcript-storage.ts:292-306 | an accepted append, under any `If-Match` or none, extends the object if the object has the planned ETag, and only then when ETags tell contents apart; an `If-Match` under that ETag sees to it |
| TranscriptAppend.NothingLostExactlyWhenTimely | packages/aws/transcript-storage.ts:123-158 | in every interleaving of appenders, writers and deletes no accepted change is ever missing from the object if each accepted append found its planned ETag, and only then when ETags tell contents apart |
| TranscriptAppend.NoLostUpdate | packages/aws/transcript-storage.ts:268-311 | with every append completed under its planned ETag, every interleaving ends with what the accepted changes, in their order, describe |
| TranscriptAppend.AppendersOnly | packages/aws/transcript-storage.ts:274-311 | with such appenders only, the object is the initial bytes and the deltas of those that succeeded, in completion order |
| TranscriptAppend.EachAppendCommitsOnce | packages/aws/transcript-storage.ts:274-311 | no upload commits twice |
| TranscriptAppend.CompletionCommits | packages/aws/transcript-storage.ts:292-306 | a completion is logged exactly when S3 accepts it, with its own delta |
| TranscriptAppend.AcceptedExactly | packages/aws/transcript-storage.ts:283-306 | a completion is accepted if and only if its upload is open, its parts are held and named once, and the object meets the condition; a refused one changes nothing |
| TranscriptAppend.StepsOnUpload | packages/aws/transcript-storage.ts:130-158 | what each step does to an upload: the copy is part 1 only under the planned ETag, an upload of a part is that part, an abort closes it, and no step touches another one's |
| TranscriptAppend.AbortedNeverCommits | packages/aws/transcript-storage.ts:353-366 | an aborted append never takes effect afterwards, whatever follows |
| TranscriptAppend.AppendMakes | packages/aws/transcript-storage.ts:283-306 | a completion under no condition or one that is met succeeds for any number of parts in any order, and makes the object their bytes in part order; of an append exactly the new bytes are logged |
| TranscriptAppend.SupplyOrderIsIrrelevant | packages/aws/transcript-storage.ts:283-291 | the outcome does not depend on the order the parts are supplied in |
| TranscriptAppend.UnguardedAppendLosesUpdate | packages/aws/transcript-storage.ts:304-304 | a run of eight steps from a fresh object in which both appends are accepted and the first one's byte is gone |
| TranscriptBatches.ListTranscriptParts | packages/aws/transcript-storage.ts:234-266 | for every way S3 cuts the pages the loop ends and returns the usable parts of the one unpaged listing, up to the first truncated page that names no next marker |
| TranscriptBatches.WholeExactly | packages/aws/transcript-storage.ts:261-264 | the pages reach the end of the listing if and only if every truncated one on the way names its next marker |
| TranscriptBatches.TranscriptsBucket.TryBatch | packages/aws/transcript-storage.ts:392-409 | a failed batch adds all its keys to the failed list, an answered one the keys its errors name |
| TranscriptBatches.TranscriptsBucket.DeleteTranscriptObjects | packages/aws/transcript-storage.ts:381-416 | the loop's batches, what they leave in the bucket, and the return or throw with its counts, are those specified, whatever becomes of each batch |
| TranscriptBatches.AllBatches | packages/aws/transcript-storage.ts:390-391 | those batches are every key, in order, the cap at a time but for a shorter last one |
| TranscriptBatches.EndsAs | packages/aws/transcript-storage.ts:385-415 | the call returns normally if and only if no key was given, or the bucket is configured and every batch was answered with no named error; it ends unconfigured exactly without a bucket; when it throws it counts the keys of failed batches and the named errors, out of those given |
| TranscriptBatches.LeftByExactly | packages/aws/transcript-storage.ts:389-410 | the call leaves exactly the keys that were stored and that every batch spared |
| TranscriptBatches.NormalReturnWithNamedErrors | packages/aws/transcript-storage.ts:399-415 | a call that returns normally has left none of its keys in the bucket, when every error names its key |
| TranscriptBatches.LeftExactly | packages/aws/transcript-storage.ts:389-410 | whatever becomes of the batches, a key is left if and only if it was stored and every batch spared it |
| TranscriptBatches.NormalReturnExactly | packages/aws/transcript-storage.ts:399-415 | for any keys, repeated or not stored: a call that returns normally has left none of them in the bucket if and only if each one that was stored is dropped by a batch that asked for it |
| TranscriptBatches.DistinctKeysGoneExactly | packages/aws/transcript-storage.ts:399-403 | with keys given once and all stored, a call that returns normally has left none of them if and only if no batch answered an error |
| TranscriptBatches.SilentErrorExample | packages/aws/transcript-storage.ts:399-403 | a call that returns normally and leaves its key |
| TranscriptBatches.CutShortExample | packages/aws/transcript-storage.ts:261-264 | a listing of two parts that ends after the first |
| FormDecoding.StrictAgainstLenient | packages/analytics/redact-analytics-url.ts:76-84 | where `decodeURIComponent` succeeds the reader's decoding agrees; where it throws, the reader's result shows a percent sign or a replacement character |
| FormDecoding.StrictWithoutPercent | packages/analytics/redact-analytics-url.ts:78-83 | strict decoding fails only on strings with a percent sign |
| FormDecoding.LenientNonEmpty | packages/analytics/redact-analytics-url.ts:65-69 | a nonempty raw value is a nonempty value to the reader |
| RedactUrl.KeyTestIsTheReaders | packages/analytics/redact-analytics-url.ts:76-84 | the key test agrees with what `URLSearchParams` reads, for every spelling, malformed ones included |
| RedactUrl.ReaderFindsThePairs | packages/analytics/redact-analytics-url.ts:12-18 | the reader that the redaction is measured against finds every pair of a query, decoded, in order |
| RedactUrl.RewrittenExactly | packages/analytics/redact-analytics-url.ts:58-74 | a part is rewritten if and only if its name is sensitive to the reader and its value nonempty and not the marker |
| RedactUrl.EarlyReturnIsRebuild | packages/analytics/redact-analytics-url.ts:43-55 | returning the input early equals rebuilding it |
| RedactUrl.StructureIsKept | packages/analytics/redact-analytics-url.ts:25-56 | base, fragment, and the order and number of query parts stay |
| RedactUrl.ReadersSeeMaskedPairs | packages/analytics/redact-analytics-url.ts:25-56 | a reader of the redacted url gets the original's pairs with nonempty sensitive values replaced by the marker |
| RedactUrl.NothingSensitiveLeft | packages/analytics/redact-analytics-url.ts:25-56 | no sensitive name has a value other than the marker |
| RedactUrl.RedactIdempotent | packages/analytics/redact-analytics-url.ts:65-69 | redacting again changes nothing, whatever the names |
| RedactUrl.UnchangedExactly | packages/analytics/redact-analytics-url.ts:20-23 | the url comes back as it was if and only if no part had anything to redact |
| DeepRedaction.FillRedacted | packages/analytics/posthog-url-redaction.ts:154-175 | the map filled in a loop is the specified record |
| DeepRedaction.WalkUnknown | packages/analytics/posthog-url-redaction.ts:177-193 | the walk is the specified value |
| DeepRedaction.RedactedIsClean | packages/analytics/posthog-url-redaction.ts:177-193 | no key or string at any depth is one the rewriting would still change |
| DeepRedaction.RedactedIsFixed | packages/analytics/posthog-url-redaction.ts:177-193 | walking again changes nothing |
| DeepRedaction.WalkIsPlainExactly | packages/analytics/posthog-url-redaction.ts:154-193 | where no keys collide, the walk is rewriting every string in place, all else unchanged, if and only if nothing but strings lies past the depth bound |
| DeepRedaction.CollidingValue | packages/analytics/posthog-url-redaction.ts:158-171 | what a key ends up with when several keys redact to it |
| DeepRedaction.CollisionsKeepElementsExactly | packages/analytics/posthog-url-redaction.ts:163-170 | whatever the colliding values, the elements under their key are all of their arrays' elements, in order, if and only if no array with elements is overwritten by a value of another kind |
| DeepRedaction.ArraysWithinTheBound | packages/analytics/posthog-url-redaction.ts:183-188 | an array stays one of the same length exactly within the depth bound |
| DeepRedaction.WalkByParts | packages/analytics/posthog-url-redaction.ts:154-194 | the walk at any depth, keys colliding or not: strings are rewritten, past depth 12 all else is the marker, elements are walked in place one level down, and an object holds under every key, once, what its colliding values end as |
| DeepRedaction.EventKeepsOtherProperties | packages/analytics/posthog-url-redaction.ts:290-298 | with a payload or without, every other key holds exactly what the other properties redact to |
| DeepRedaction.PlainEventIsRewritten | packages/analytics/posthog-url-redaction.ts:290-298 | where no keys collide and nothing but strings is past the bound, the event is its other properties in order with every string rewritten, and the payload as it was |
| DeepRedaction.EventIsCleanBesidesPayload | packages/analytics/posthog-url-redaction.ts:290-298 | the replay payload is untouched and every other property is clean |
| DeepRedaction.ShortcutIsFullRewrite | packages/analytics/posthog-url-redaction.ts:196-198 | skipping strings without `?` changes nothing |
| DeepRedaction.DeepRedactionIsComplete | packages/analytics/posthog-url-redaction.ts:154-198 | with the url redaction itself: nothing at any depth is left to change, and the walk is idempotent |
| PersistenceRepair.SweepPersonInfoFields | packages/analytics/posthog-persistence-repair.ts:117-143 | the loop over the two fields is the specified repair |
| PersistenceRepair.Persistence.RepairPersonInfo | packages/analytics/posthog-persistence-guard.tsx:72-84 | sweeps both sites, reports and writes exactly those that needed it |
| PersistenceRepair.Persistence.RemaskPersistedUrls | packages/analytics/posthog-url-redaction.ts:225-259 | the re-masking, with one write if either record changed and none otherwise |
| PersistenceRepair.RecordIsRepaired | packages/analytics/posthog-persistence-repair.ts:117-143 | a record is rewritten exactly when a field is no string or has something to redact; afterwards none has, and other fields stay |
| PersistenceRepair.InitialIsRepaired | packages/analytics/posthog-persistence-repair.ts:150-161 | the same for the initial person info |
| PersistenceRepair.SessionIsRepaired | packages/analytics/posthog-persistence-repair.ts:164-218 | the same for the session record, hazardous `props` included |
| PersistenceRepair.RepairLeavesNoWork | packages/analytics/posthog-persistence-repair.ts:117-218 | after one repair both records are healthy, all else is as it was, a second repair reports nothing, and the independent re-masking writes nothing |
| PersistenceRepair.RepairedStoreExactly | packages/analytics/posthog-persistence-repair.ts:117-218 | the store after a repair, key by key: in both records exactly the two fields are scrubbed or gone, a hazardous `props` is gone, and nothing else moves |
| PersistenceRepair.ReportExactly | packages/analytics/posthog-persistence-repair.ts:120-142 | the report names exactly the fields that were no strings, each with its `typeof`, and exactly those rewritten, in order |
| PersistenceRepair.HazardIsReported | packages/analytics/posthog-persistence-repair.ts:203-218 | a hazardous `props` is reported under its `typeof` |
| PersistenceRepair.CaptureIsRevived | packages/analytics/posthog-persistence-repair.ts:186-202 | what posthog-js reads no longer throws |
| PersistenceRepair.DroppedExactlyWhenReadThrows | packages/analytics/posthog-persistence-repair.ts:96-101 | a field is dropped if and only if reading the record threw |
| PersistenceRepair.RemaskAgreesWithRepair | packages/analytics/posthog-url-redaction.ts:311-325 | the re-masking writes exactly the fully shaped records the repair would write, with the same fields |
| PersistenceRepair.RemaskedStoreExactly | packages/analytics/posthog-url-redaction.ts:225-259 | the store after a re-masking, key by key: in records of the full shape exactly the two fields are scrubbed, and every other record is as it was |
| PersistenceRepair.RepairWithUrlRedaction | packages/analytics/posthog-persistence-repair.ts:133-137 | all of it for the url redaction itself |
| DesktopReplay.LeavingIsKept | packages/analytics/desktop-session-replay.ts:318-330 | for a single event or a batch, exactly the kept events leave, in order |
| DesktopReplay.SentExactly | packages/analytics/desktop-session-replay.ts:318-330 | nothing is sent exactly when there are events and all are discarded; otherwise the same request, its transport and the form of its data kept |
| DesktopReplay.BeforeExactly | packages/analytics/desktop-session-replay.ts:268-277 | ids compare by the first code unit that differs, a proper prefix first |
| DesktopReplay.RunKeepsInv | packages/analytics/desktop-session-replay.ts:234-285 | in every run no captured snapshot is above the running maximum and everything captured up to the flip is covered by the cutoff |
| DesktopReplay.DiscardedNeverLeaves | packages/analytics/desktop-session-replay.ts:204-210 | for ids in any order, no later request carries a snapshot captured up to a discard, the stop's flush included |
| DesktopReplay.CutoffNeverDecreases | packages/analytics/desktop-session-replay.ts:237-242 | the cutoff never goes down |
| DesktopReplay.OnlyDiscardedAreHeldBack | packages/analytics/desktop-session-replay.ts:318-339 | snapshots above the cutoff and all other events leave in their place |
| DesktopReplay.HeldBackExactlyWhenCapturedBefore | packages/analytics/desktop-session-replay.ts:252-258 | without a clock rollback a snapshot is held back if and only if it was captured before the flip |
| DesktopReplay.WaitResolvesExactly | packages/analytics/desktop-session-replay.ts:221-223 | in any run, a wait has resolved or can resolve if and only if every batch that was on the network and unanswered when it was called has been answered since; later sends do not hold it |
| DesktopReplay.ResolvedExactly | packages/analytics/desktop-session-replay.ts:221-223 | a wait has resolved if and only if it took that step |
| DesktopReplay.InFlightExactly | packages/analytics/desktop-session-replay.ts:279-315 | a batch is in flight if and only if some send put it on the network, neither as a beacon nor rate-limited, and no answer has come |
| DesktopReplay.Replay.OnEventCaptured | packages/analytics/desktop-session-replay.ts:268-277 | the listener, as the Capture step |
| DesktopReplay.Replay.DiscardReplay | packages/analytics/desktop-session-replay.ts:204-210 | the discard, and nothing when the library is not loaded |
| DesktopReplay.Replay.SendRequest | packages/analytics/desktop-session-replay.ts:278-315 | what is sent, and the batch tracked if it will be answered |
| DesktopReplay.Replay.WaitForSentBatches | packages/analytics/desktop-session-replay.ts:221-223 | begins a wait for the batches in the set, as the Waits step |
| DesktopReplay.Replay.OnAnswer | packages/analytics/desktop-session-replay.ts:309-313 | an answer takes its batch out of the set and out of what the waits still lack |
| AttributeMasking.MaskTextAt | packages/analytics/desktop-session-replay.ts:177-182 | length and white space stay, every other character is a star, and masking again changes nothing |
| AttributeMasking.OnlyWhiteSpaceIsTold | packages/analytics/desktop-session-replay.ts:130-182 | of a masked text only its length and the 25 white space characters of the pattern are readable |
| AttributeMasking.FindRoute | packages/analytics/desktop-session-replay.ts:355-361 | the first matching route, or none exactly when no route matches |
| AttributeMasking.MaskedRoute | packages/analytics/desktop-session-replay.ts:348-371 | every id segment of the first matching route is the marker; other segments, what precedes the path and the query stay |
| AttributeMasking.HashRouteExactly | packages/analytics/desktop-session-replay.ts:345-371 | read off a link's own text: what precedes the route and the query stay, and the path loses exactly the ids of the first route that fits it |
| AttributeMasking.NoHash | packages/analytics/desktop-session-replay.ts:349-352 | a link without a hash is recorded as it is |
| AttributeMasking.SameRouteAgain | packages/analytics/desktop-session-replay.ts:355-361 | a masked path matches the same route first, overlapping routes included |
| AttributeMasking.RouteMaskingIdempotent | packages/analytics/desktop-session-replay.ts:348-371 | masking record ids again changes nothing, if no route spells the marker |
| AttributeMasking.ChildInPlace | packages/analytics/desktop-session-replay.ts:151-170 | one step down the tree: shape and keys stay, the child is masked for its place |
| AttributeMasking.MaskedAtEveryPath | packages/analytics/desktop-session-replay.ts:151-187 | for every JSON value and every path: same paths, shapes and keys; a string changes only as a named attribute |
| AttributeMasking.MaskingIdempotent | packages/analytics/desktop-session-replay.ts:151-187 | masking a masked recording changes nothing |
| SharedSession.LatestIsFirstMaximum | packages/analytics/posthog-shared-session.ts:226-236 | the latest session is the first of those with the greatest activity time |
| SharedSession.LatestSession | packages/analytics/posthog-shared-session.ts:226-236 | the loop computes it |
| SharedSession.SessionOfExactly | packages/analytics/posthog-shared-session.ts:244-266 | exactly the tuples that are adopted, a two-element one completed with its activity time |
| SharedSession.ResumableExactly | packages/analytics/posthog-shared-session.ts:244-266 | a record is resumable if and only if its times are positive safe integers and its id is not empty |
| SharedSession.ReadCookieValues | packages/analytics/posthog-shared-session.ts:293-306 | the loop over the header's pairs |
| SharedSession.CookiesReadBack | packages/analytics/posthog-shared-session.ts:293-306 | from a browser's header, exactly the values of the cookies of that name, in their order |
| SharedSession.SanitizedHasNoEquals | packages/analytics/posthog-shared-session.ts:88-94 | a persistence name has no `=`, so the prefix test is a name test |
| SharedSession.SanitizedExactly | packages/analytics/posthog-shared-session.ts:88-94 | each `+`, `/` and `=` of a token is spelled out wherever it is, every other character stays |
| SharedSession.ConsentDecides | packages/analytics/posthog-shared-session.ts:273-285 | the first consent cookie decides if it decodes, else the storage; without consent nothing is written |
| SharedSession.WriteChangesOnlyTheSession | packages/analytics/posthog-shared-session.ts:207-220 | a write changes the session key and removes entry properties that name another session, nothing else |
| SharedSession.WrittenIsRead | packages/analytics/posthog-shared-session.ts:207-262 | a written session reads back as it was |
| SharedSession.LoadsTheNewest | packages/analytics/posthog-shared-session.ts:101-152 | with consent and a resumable or absent local session, the load rule then picks a session none of the candidates is more recent than |
| SharedSession.ClearedTakesTheNewestActive | packages/analytics/posthog-shared-session.ts:164-192 | a cleared tuple adopts the newest cookie session if and only if that one is not idle |
| SharedSession.LoadsTheNewestExactly | packages/analytics/posthog-shared-session.ts:101-184 | the exact condition under which the load rule ends with the newest session |
| SharedSession.AlreadyCurrentExactly | packages/analytics/posthog-shared-session.ts:125-147 | nothing is written as current if and only if the load rule already picks the newest |
| SharedSession.SecondCallWritesExactly | packages/analytics/posthog-shared-session.ts:101-192 | a second call writes if and only if the local tuple is cleared and the newest cookie session was idle at the first call and is active at the second |
| SharedSession.SecondCallWritesNothing | packages/analytics/posthog-shared-session.ts:101-192 | a second call at the same time or later writes nothing, whatever the consent and the record; after a write no call does, at any time |
| SharedSession.NotComparableExample | packages/analytics/posthog-shared-session.ts:164-184 | a local tuple over which a cookie's session is never loaded |
| SharedSession.ClockSetBackExample | packages/analytics/posthog-shared-session.ts:164-192 | a second call, by a clock set back, that writes although the first did not |
| SharedSession.ResumedStorageStays | packages/analytics/posthog-shared-session.ts:101-192 | the same over storage and cookie strings |
| SharedSession.ResumedStorageLoadsTheNewest | packages/analytics/posthog-shared-session.ts:101-152 | end to end over storage and cookie strings: with consent and a resumable or absent local session the newest is then loaded, no second call touches the storage, and other storage keys stay |
| SessionCandidates.CookieCandidates | packages/analytics/posthog-shared-session.ts:117-119 | a session is read from a browser's cookies if and only if one of the token's name decodes and parses to an object with that tuple |
| SessionCandidates.NoCookieSessionExactly | packages/analytics/posthog-shared-session.ts:117-123 | with consent, no session is found if and only if no cookie of the token holds one |
| SessionCandidates.NewestCandidateIsLoaded | packages/analytics/posthog-shared-session.ts:101-152 | with consent and an item that is absent or readable, what the library then loads is a session that a cookie of the token or the item held, none of which is more recent; and one is loaded if there is any |
| SessionCandidates.OutcomeExactly | packages/analytics/posthog-shared-session.ts:121-184 | for cookies and an item of any text, each outcome with its exact condition on what those texts hold |
| SessionCandidates.WrittenExactly | packages/analytics/posthog-shared-session.ts:151-220 | the storage is as it was unless the call resumes; then its item is what it held with a newest cookie session in it and no entry properties of another one |
| SharedSession.ResumeSharedSession | packages/analytics/posthog-shared-session.ts:101-152 | outcome and storage are those specified |
| SharedSession.ResumeOverCleared | packages/analytics/posthog-shared-session.ts:164-184 | likewise for a local tuple that is not resumable |
| CspPolicy.MergeValues | packages/auth/local-trusted-csp.ts:160-169 | the loop over both sides' values |
| CspPolicy.FormatTwice | packages/auth/local-trusted-csp.ts:171-174 | formatting again changes nothing |
| CspPolicy.KeywordPrintsQuoted | packages/auth/local-trusted-csp.ts:171-174 | each of the six keywords prints in quotes, quoted at either end or not |
| CspPolicy.OthersPrintAsTheyAre | packages/auth/local-trusted-csp.ts:171-174 | a value that spells no keyword prints as it is |
| CspPolicy.MergedFrom | packages/auth/local-trusted-csp.ts:160-169 | every merged source is the printed form of a value of one side |
| CspPolicy.MergedHas | packages/auth/local-trusted-csp.ts:160-169 | and every value of either side is there |
| CspPolicy.MergedIsASet | packages/auth/local-trusted-csp.ts:160-169 | no merged source repeats |
| CspPolicy.NoneStandsAloneExactly | packages/auth/local-trusted-csp.ts:160-174 | when `'none'` absorbs all others: exactly when fully quoted or bare, or trivially |
| CspPolicy.HalfQuotedNoneIsNotAbsorbed | packages/auth/local-trusted-csp.ts:160-174 | a half-quoted value that prints as `'none'` beside another source |
| CspPolicy.StrictHolds | packages/auth/local-trusted-csp.ts:135-143 | a strict policy trusts the script sources but for the two schemes, and `strict-dynamic` and the nonce |
| CspPolicy.OwedExactly | packages/auth/local-trusted-csp.ts:126-174 | whether a source is owed under a name, from the defaults, the caller's values, the nonce and strictness alone |
| CspPolicy.BuildDirectives | packages/auth/local-trusted-csp.ts:126-158 | under every name the default, strict edits included, with the caller's values merged in, and no name twice |
| CspPolicy.OrderIsIrrelevant | packages/auth/local-trusted-csp.ts:176-183 | the text does not depend on the order directives were given in |
| CspPolicy.PolicyReadsBack | packages/auth/local-trusted-csp.ts:176-183 | the standard's parser, which skips tokens that are not ASCII, reads the printed policy as exactly the directives, sorted |
| CspPolicy.BuildPolicy | packages/auth/local-trusted-csp.ts:104-183 | the policy of a call, read by that parser, has under every name exactly what is owed there, and no source twice under a name the caller gives or where the defaults are apart |
| CspPolicy.OwedPrintsOnce | packages/auth/local-trusted-csp.ts:160-183 | no source is printed twice in a directive |
| StorySort.DecodeEncode | apps/storybook/story-group-order.ts:136-138 | the flat form loses nothing |
| StorySort.Collect | apps/storybook/story-group-order.ts:411-421 | the walk adds exactly the specified paths |
| StorySort.CollectsThePaths | apps/storybook/story-group-order.ts:403-424 | for any node list, the paths of the tree it stands for |
| StorySort.StorySortOrderPaths | apps/storybook/story-group-order.ts:407-424 | those paths as strings |
| StorySort.WalkOfAForest | apps/storybook/story-group-order.ts:403-424 | for any forest of names without `/`, a string is in the result if and only if it spells a root-to-node path |
| StorySort.BuildStorySortOrder | apps/storybook/story-group-order.ts:426-471 | Start Here, then the current release's nodes, then the baseline's |
| StorySort.ChildrenOf | apps/storybook/story-group-order.ts:445-453 | each group followed by its subgroups |
| StorySort.SidebarTree | apps/storybook/story-group-order.ts:426-471 | for any level table the order stands for Start Here, every current root, then one baseline root a level with its groups and subgroups |
| StorySort.BaselineIsEncoded | apps/storybook/story-group-order.ts:438-462 | the baseline is its trees in flat form |
| StorySort.BaselineHasNoEmptyArray | apps/storybook/story-group-order.ts:438-462 | for any level table, no name of the baseline is followed by an empty array, at any depth |
| StorySort.BaselinePaths | apps/storybook/story-group-order.ts:454-462 | the paths under baseline roots are the roots, their groups and subgroups, and no others |

## Left out

- AWS transport, presigning, checksums, credentials and bucket configuration: foreign calls; S3 is an abstract store.
- Object versions, continuation tokens and the `NextMarker` of `ListObjects`: the listings are one page of current keys.
- `ListObjectVersions` and `ListMultipartUploads`, which no caller in the repository sends: the code neither rewrites their markers nor strips the keys they list. The `Location` of a completed upload is not stripped either.
- Checksums and the minimum size of a part: an ETag stands for the bytes it was given to.
- Real time, the scheduling of promises and the process-wide storage slot: timers and resolutions are steps, the ambient scope is a parameter.
- The order of callbacks within one pool event: each event is one step.
- `DB_ACQUISITION_BUDGET_MAX` is taken as 5; it is computed from the pool size in a file of constants.
- JavaScript strings are sequences of Unicode scalar values: lone surrogates, the length of a masked character outside the basic plane and UTF-16 string order beyond it are not modelled.
- The enumeration of integer-like keys of a JavaScript object before its other keys: objects keep their insertion order.
- Objects that are not plain, which the deep walk returns as they are: payloads are JSON.
- `$set` and `$set_once` of an event, which are the same walk at depth 0, and the re-sweep when the session id rolls.
- The masking of the page url of a recording (`maskCapturedNetworkRequestFn`) and of request bodies: single expressions.
- Tabs and line breaks inside a url: the `URL` parser drops them before it reads the query, the redaction does not, so `sta<TAB>te=secret` comes back unchanged although that reader then sees `state`. The reader modelled is `URLSearchParams` on the query as given.
- The concrete sensitive names: any set of names without a percent sign or a replacement character.
- A single value of a custom directive, which the code makes a list of one, is given as that list.
- The concrete default directives, and the `report-to` suffix of the policy: the defaults are a parameter.
- Property lookups that reach `Object.prototype`, as for a directive named `constructor`.
- `JSON.parse`, `JSON.stringify` and `decodeURIComponent` in the shared session: parameters, with the round trip of the written record as a hypothesis.
- Exceptions of the browser's storage.
- The concrete level table and page tree of the sidebar: parameters.
- PermitBinding.GatedPool.BindPermitToClient: the class holds its budgets as values rather than as shared objects, so two scopes sharing one budget object are not aliased through it.
- TranscriptBatches.ListTranscriptParts: promises the whole listing only when every truncated page it meets names the next marker, which is when the code returns it.
- KeyspacePrefix.PrivateBucket: holds for keys that fit, for copy sources on copies alone, and for `ListObjects` with no marker or one that fits; the exact conditions are in `KeyspaceLimits`.
- KeyspaceLimits.MarkerIsNotRewritten: speaks of listings without a copy source, which no listing has.
- AttributeMasking.MaskingIdempotent: assumes no route spells the marker as a literal part.
- CspPolicy.BuildPolicy: assumes names and sources are ASCII tokens, names in lower case, and that the order of names is a strict total order.
