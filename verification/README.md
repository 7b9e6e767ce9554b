# Verified model of the agent core's reliability mechanisms

A Dafny model of the parts of the agent core that promise something about every run: the circuit breaker, the
crash-tolerant ingest queue, the strict tool-schema rewrite, the public-key cache, the re-embed migration, the
ledger carry-over, the exactly-once tool guard and submission dedup, the chunker and its index, and the end-user
id. `dafny verify dfyconfig.toml` checks the whole project.

## How it is organised

Code that works by changing things step by step is modelled that way: a class with the source's fields, or a
method with the source's loop, each proved against a specification function. Where calls interleave or processes
die, a second layer takes those same functions as the steps of a system, and the theorems quantify over every
finite run of it: every interleaving, every clock reading, every answer of a remote service, crashes anywhere.

| module | models |
|---|---|
| `Resilience`, `BreakerRuns` | the breaker's three locked sections and its retry loop; all interleavings of calls |
| `ToolSchema` | the strict-mode rewrite, four readings of a schema document, filling omitted arguments |
| `ToolNotes` | what the descriptions say instead of the bounds and defaults the rewrite removes |
| `IngestQueue` | the request stream with its pending list, retries and dead letters; all runs with crashes |
| `Chunking`, `Windows`, `Ingestor` | paragraphs to parents to windows to points; point names; repeated attempts |
| `KeyCache` | the public-key cache; all interleavings of `key_for` |
| `Reembed` | copy, verify, swap |
| `CarryOver` | the batched ledger transfer |
| `ToolIdempotency`, `Submissions`, `PollLoop` | claim/run/store; claim/publish/release; poll/handle/persist |
| `Utf8`, `EndUserId` | the end-user id printer and strict parser |
| `Routing` | the tier decision |
| `Wrappers`, `Decimals`, `Separators` | shared helpers |

## What the code does that its documentation does not say

- The breaker's documentation says a HALF_OPEN breaker admits exactly one trial until it resolves. A call admitted
  while CLOSED can fail during the trial, re-open the breaker, and a second trial is admitted one cooldown later
  (`TwoTrialsInFlight`). The trial is alone exactly when no other call is in flight (`HalfOpenRejectsExactlyWhile`).
- A trial that ends with an exception the caller did not list leaves the breaker HALF_OPEN; with nobody else in
  flight it then rejects every call for ever, and that is the only way it can (`StuckExactlyWhen`).
- The ingest worker's documentation says shutdown never interrupts a job in flight. `process_job` acks in a `finally`
  and turns only `Exception` into an error event, so a job that is cancelled while it runs, or whose error event cannot
  be published, is acked with no event. A cancellation can happen when another task in the final `gather` raises (an
  unreadable payload does), which ends `run` and cancels the rest. Such an end makes it possible to lose the job exactly
  when nothing else is left of it but entries a reclaimer has republished and is about to ack
  (`CancelLosesExactlyWhen`); a run whose cancellations all avoid that loses nothing (`NoJobIsLost`).
- `_split_into_parents` fails on a zero limit and silently drops the whole text on a negative one, and windows with
  a negative overlap leave characters in no window; neither argument is checked (`SplitIntoParents`,
  `WindowsKeepTheTextExactlyWhen`).
- Deleting null-valued optional keys undoes the schema rewrite on the documents `Faithful` describes, which is a
  sufficient condition. Two families outside it never come back: documents that require a key they do not declare
  (`UndeclaredRequiredKeyNeverReturns`), and documents where a property that only a null default made optional is
  required all the same, by its own node or by every branch of an `anyOf` beside it
  (`DemandedNullDefaultNeverReturns`, with `MixedNodeNeverReturns` as an instance).
- A union of two branches of one type is described as if both bounds applied (`BranchesOfOneTypeOverstate`); for every
  document whose branches differ in type the descriptions say exactly the bounds taken out (`DescriptionsTellTheBounds`).
- A point name is shared with another pair of tenant and source exactly when the tenant or the source contains a bar,
  and upload file names put any character into the source (`NameIsSharedExactlyWhen`). Tenants without bars are kept
  apart all the same (`BarFreeTenantsAreKeptApart`).
- Submission dedup documents one race as harmless: the key expiring between the refused SET and the GET. Two repeats
  that hit it together both set the key and both publish (`RacingTakersPublishTwice`).

## Assumptions

Stated as hypotheses of the theorems that need them: SHA-256 hexadecimal digests contain no bar and uuid5 does not
collide (`CollisionFree`); the bot server numbers updates upwards and answers with the oldest pending ones first;
ledger ids are generated from 1; the stale grace is not negative, which the settings enforce. Redis, Postgres and
Qdrant commands are atomic. A publish that raises landed nothing.

## Model

| member | source | states |
|---|---|---|
| `Resilience.CircuitBreaker.Admit` | app/core/resilience.py:159-209 | the gate's verdict and new state, as one atomic section |
| `Resilience.CircuitBreaker.RecordSuccess` | app/core/resilience.py:211-218 | any success resets the breaker completely, while CLOSED too |
| `BreakerRuns.FailuresAreConsecutive` | app/core/resilience.py:211-239 | over every run: the count is the number of failures recorded since the last success |
| `BreakerRuns.OpenExactlyAtTheStreak` | app/core/resilience.py:211-239 | over every run: with a positive threshold the breaker is not CLOSED if and only if that many calls failed in a row |
| `Resilience.CircuitBreaker.RecordFailure` | app/core/resilience.py:220-239 | a failure counts, and opens with a fresh timestamp at the threshold or on a trial |
| `Resilience.Retry` | app/core/resilience.py:127-157 | stops at the first outcome not listed or at the last try; one jittered, capped sleep between tries; no try at all for a bad count |
| `Resilience.Delay` | app/core/resilience.py:144-145 | every sleep lies between the backoff and 1.25 times it, whatever its sign, and never above 1.25 times a non-negative cap |
| `Resilience.BackoffDoubles` | app/core/resilience.py:144-145 | the backoff is the base delay doubled after each try, or the cap once that is less |
| `BreakerRuns.NotClosedIsOneFact` | app/core/resilience.py:159-239 | over every run: not CLOSED, a set timestamp and a reached threshold coincide, if and only if the threshold is positive |
| `BreakerRuns.HalfOpenTestIsRedundant` | app/core/resilience.py:220-233 | in every reachable state recording a failure by the count alone gives the same result |
| `BreakerRuns.OneTrialPerOutcome` | app/core/resilience.py:159-209 | between two admissions while not CLOSED some outcome was recorded, from any state |
| `BreakerRuns.TrialWaitsOutTheCooldown` | app/core/resilience.py:178-202 | a trial comes at least one cooldown after every failure recorded before it |
| `BreakerRuns.HalfOpenHasItsTrial` | app/core/resilience.py:116-125 | if every call ends recorded, HALF_OPEN means its latest trial is still in flight |
| `BreakerRuns.IdleBreakerAdmits` | app/core/resilience.py:116-125 | if every call ends recorded, an idle breaker past its cooldown admits |
| `BreakerRuns.HalfOpenRejectsExactlyWhile` | app/core/resilience.py:172-177 | HALF_OPEN rejects everyone while given calls stay in flight if and only if nobody else is in flight |
| `BreakerRuns.StuckExactlyWhen` | app/core/resilience.py:116-125 | the breaker rejects every call of every future if and only if it is HALF_OPEN with nobody in flight |
| `BreakerRuns.AbortedTrialSticks` | app/core/resilience.py:116-125 | a reachable run gets it stuck: a trial that ends unrecorded |
| `BreakerRuns.TwoTrialsInFlight` | app/core/resilience.py:220-233 | a reachable run with two trials in flight at once |
| `ToolSchema.Strictify` | app/core/tool_schema.py:83-116 | the recursive procedure with its loops leaves exactly the strict form and appends exactly the notes |
| `ToolSchema.PreparedIsNoLarger` | app/core/tool_schema.py:104-105 | wrapping a property in a nullable node does not enlarge it in the measure the recursion decreases |
| `ToolSchema.WrappedExactlyWhen` | app/core/tool_schema.py:104-130 | a property gets a null branch around it if and only if it has a null default and states null nowhere; otherwise it keeps its shape |
| `ToolSchema.StrictIsNormal` | app/core/tool_schema.py:83-116 | every node reached has no default or length bound, and every object is closed and requires all its properties in order |
| `ToolSchema.StrictIsIdempotent` | app/core/tool_schema.py:83-116 | a second pass changes nothing and adds no note |
| `ToolSchema.StrictMeans` | app/core/tool_schema.py:83-130 | the rewritten document accepts exactly the values it is meant to, told in terms of the original document, for any meaning of the other keywords on any value |
| `ToolNotes.DescriptionsTellTheBounds` | app/core/tool_schema.py:83-116 | an object of arguments is valid for the original document if and only if it is valid but for the lengths and heeds every description of the rewritten one, at every depth |
| `ToolNotes.NotesTellTheBounds` | app/core/tool_schema.py:86-98 | the same for any value, with the notes handed to the caller |
| `ToolNotes.BranchesOfOneTypeOverstate` | app/core/tool_schema.py:93-94 | with two branches of one type the notes of both are told: every string is valid and none heeds them |
| `ToolNotes.DefaultIsToldExactlyWhen` | app/core/tool_schema.py:89-94 | a default is told, with its value, if and only if the node or a branch has it and it is not null |
| `ToolNotes.DescriptionIsKept` | app/core/tool_schema.py:106-112 | the author's text and earlier notes stay, followed by the notes of the property's schema and the hint to pass null |
| `ToolNotes.NullIsHintedExactlyWhen` | app/core/tool_schema.py:108-110 | the hint is there, and last, if and only if the property was not required and null is valid for it afterwards |
| `ToolSchema.RewriteKeepsFullyKeyedValues` | app/core/tool_schema.py:83-130 | a value valid before with every declared key and no others is valid after |
| `ToolSchema.RewriteIsUndoneByPruning` | app/core/tool_schema.py:83-130 | a value valid after is valid before, length bounds aside, once its null-valued optional keys are deleted; nothing but null-valued keys is deleted |
| `ToolSchema.UndeclaredRequiredKeyNeverReturns` | app/core/tool_schema.py:114-115 | with an undeclared required key no deletion from any rewritten object is valid before |
| `ToolSchema.DemandedNullDefaultNeverReturns` | app/core/tool_schema.py:93-105 | for every document: a property made nullable by its default, required by its node or by every anyOf branch beside it, accepts null after, and no object with it null or absent was valid before |
| `ToolSchema.MixedNodeNeverReturns` | app/core/tool_schema.py:93-105 | an instance with a key declared beside anyOf: the rewrite accepts a value of which no deletion was valid before |
| `ToolSchema.FillOmittedArguments` | app/core/tool_schema.py:60-73 | what was sent stays; an absent required field gets its stated default or null, and nothing else is added |
| `ToolSchema.FillingRestoresNulls` | app/core/tool_schema.py:60-73 | leaving nullable arguments out of a complete call and filling gives the complete call back |
| `IngestQueue.IngestStreams.ProcessJob` | app/ingestion/ingest_worker.py:95-148 | a job with an id always gets a terminal event and an ack; a payload without a readable id gets neither |
| `IngestQueue.IngestStreams.HandleReclaimed` | app/ingestion/ingest_worker.py:164-232 | what parses is retried with one more attempt below the cap and archived at it, with an error event if it has a job id; what does not parse is archived; acked in each case |
| `IngestQueue.NoJobIsLost` | app/ingestion/ingest_worker.py:95-232 | with crashes anywhere, and cancellations that each leave their job something else, every published job always has an unacked entry, a terminal event or a dead-letter record, and keeps one in every future without cancellations |
| `IngestQueue.NoCancelIsSpare` | app/ingestion/ingest_worker.py:95-232 | a run without cancellations is such a run |
| `IngestQueue.AnchoredStep` | app/ingestion/ingest_worker.py:206-232 | every step but a cancellation keeps a job covered by something no ack under way will take away |
| `IngestQueue.LosableExactlyWhen` | app/ingestion/ingest_worker.py:206-232 | some future without cancellations loses the job if and only if all that is left of it are entries republished and about to be acked |
| `IngestQueue.CoveredCanBeSettled` | app/ingestion/ingest_worker.py:95-232 | from every state, a job of which any entry is left can still be brought to an event or a record |
| `IngestQueue.WorkerOnItsOwn` | app/ingestion/ingest_worker.py:95-148 | the steps of an uninterrupted worker do to the store what `process_job` does |
| `IngestQueue.ReclaimerOnItsOwn` | app/ingestion/ingest_worker.py:164-232 | the steps of an uninterrupted reclaimer do to the store what `_handle_reclaimed_job` does |
| `IngestQueue.AttemptsStayCapped` | app/ingestion/ingest_worker.py:206-210 | no entry ever carries more attempts than the cap |
| `IngestQueue.CancelLosesExactlyWhen` | app/ingestion/ingest_worker.py:133-148 | over every run: a cancellation lets some cancel-free future lose the job if and only if there is no event, no record, and every other unacked entry of the job is republished and about to be acked |
| `IngestQueue.CancelledJobIsLost` | app/ingestion/ingest_worker.py:133-148 | a reachable run in which a cancelled job is gone without a trace |
| `IngestQueue.EachEntryStartsOnce` | app/ingestion/ingest_worker.py:306-324 | no delivered entry starts twice |
| `IngestQueue.RunsAreBounded` | app/ingestion/ingest_worker.py:206-210 | at most one run plus one per permitted retry, if no reclaimer dies between republish and ack and no live task's entry is reclaimed |
| `IngestQueue.CarelessRunsExceedTheBound` | app/ingestion/ingest_worker.py:206-210 | without that hypothesis a job with one permitted retry runs three times |
| `Chunking.SplitJoin` | app/ingestion/chunking.py:44-44 | joining the pieces of a split gives the text back |
| `Chunking.SplitPieces` | app/ingestion/chunking.py:44-44 | no piece holds a separator, and none but the last ends in a newline: every cut is the earliest possible |
| `Chunking.StripKeeps` | app/ingestion/chunking.py:44-44 | stripping takes spaces off both ends and nothing else |
| `Chunking.ParagraphsArePieces` | app/ingestion/chunking.py:44-44 | the paragraphs are the stripped pieces of the text, in order, less those that are all spaces |
| `Chunking.Slices` | app/ingestion/chunking.py:56-58 | consecutive slices of exactly the limit, but for the last, that concatenate to the paragraph |
| `Chunking.SplitIntoParents` | app/ingestion/chunking.py:38-69 | the parents are the texts of the greedy packing; a zero limit fails, a negative one drops everything |
| `Chunking.PackParagraphs` | app/ingestion/chunking.py:48-69 | the loop with its running length computes the greedy packing |
| `Chunking.ParentsAreLossless` | app/ingestion/chunking.py:38-69 | every stripped paragraph once, in order, joined or as slices; every parent has 1 to limit characters |
| `Chunking.ParentsKeepTheText` | app/ingestion/chunking.py:38-69 | from text to parents: the characters of the parents that are not spaces are exactly those of the text, in order |
| `Chunking.GreedyIsOptimal` | app/ingestion/chunking.py:51-69 | no packing of the same paragraphs within the limit has fewer groups |
| `Chunking.RunsAreIndependent` | app/ingestion/chunking.py:52-59 | an oversized paragraph separates the runs around it, so each run is packed optimally on its own |
| `Windows.SlidingWindow` | app/ingestion/chunking.py:72-87 | the loop computes the windows |
| `Windows.EveryPassageIsInSomeWindow` | app/ingestion/chunking.py:72-87 | every passage of at most overlap + 1 characters lies whole inside some window |
| `Windows.WindowsRebuildTheText` | app/ingestion/chunking.py:72-87 | the first window and the new part of each later one rebuild the text |
| `Windows.WindowCount` | app/ingestion/chunking.py:79-86 | 1 + ceil((n - size) / step) windows for a text longer than one |
| `Windows.WindowsKeepTheTextExactlyWhen` | app/ingestion/chunking.py:72-87 | for every size, negative ones too: each character of the text is in the window that reaches its position, if and only if the overlap is not negative, the text fits one window, or there is no text |
| `Windows.ChunkText` | app/ingestion/chunking.py:90-111 | refused when the overlap is not smaller than the window; otherwise one chunk per parent with its windows |
| `Ingestor.NameDetermines` | app/ingestion/ingestor.py:68-69 | two point names are equal exactly when index, digest and the text tenant-bar-source are |
| `Ingestor.NameIsSharedExactlyWhen` | app/ingestion/ingestor.py:62-69 | another tenant and source share the name if and only if the tenant or the source has a bar |
| `Ingestor.BarFreeTenantsAreKeptApart` | app/ingestion/ingestor.py:62-69 | among tenants without bars a name has one tenant, source, index and digest |
| `Ingestor.EmbedAll` | app/ingestion/ingestor.py:146-150 | batching keeps every vector at its own text's place |
| `Ingestor.IngestText` | app/ingestion/ingestor.py:134-180 | refused without an owner, otherwise exactly the points of the attempt |
| `Ingestor.PointsDescribeTheDocument` | app/ingestion/ingestor.py:152-176 | every point is a window of a parent, with that parent's text and drawn id, under the id of its own tenant, source, place and text, with its own text's vectors and the job's topic if it has one |
| `Ingestor.EveryPassageIsIndexed` | app/ingestion/ingestor.py:138-178 | every passage of up to 151 characters of a parent lies whole inside some point's text |
| `Ingestor.AttemptsAgree` | app/ingestion/ingestor.py:51-69 | every attempt at a job has the same ids and documents whatever it draws at random |
| `Ingestor.IdsAreDistinct` | app/ingestion/ingestor.py:51-69 | chunks of one document never share an id |
| `Ingestor.CrashTolerantIngestRefinesOne` | app/ingestion/ingestor.py:129-180 | any sequence of partial and repeated attempts with one complete leaves the documents of a single clean ingest, and touches no other id |
| `KeyCache.InternalKeys.Refresh` | app/core/internal_identity.py:165-184 | the attempt is noted first; the keys change only when a usable set came back |
| `KeyCache.InternalKeys.KeyFor` | app/core/internal_identity.py:145-158 | a fresh hit, else at most one fetch, else the held keys if recent enough |
| `KeyCache.OneFetchAtATime` | app/core/internal_identity.py:150-158 | in every reachable state a call is fetching or checking if and only if it holds the lock, so at most one is |
| `KeyCache.EveryCallCanBeAnswered` | app/core/internal_identity.py:150-158 | in every reachable state each call in progress can still be brought to its reply: the lock is never lost with a cancelled call |
| `KeyCache.FetchesAreSpaced` | app/core/internal_identity.py:154-166 | two requests start at least the minimum refresh interval apart, whatever kids are asked |
| `KeyCache.FetchStartsExactlyWhen` | app/core/internal_identity.py:148-155 | a call under the lock fetches if and only if every earlier request of the run started at least the minimum interval before, and no set was stored or the last one is past its TTL or lacks the kid |
| `KeyCache.AnsweredOnTheSpotExactlyWhen` | app/core/internal_identity.py:145-153 | on either look a call is answered at once if and only if the last stored set is younger than the TTL and has its kid |
| `KeyCache.KeySetHolds` | app/core/internal_identity.py:170-177 | a stored set has under each kid the key of the last usable element that carries it, and nothing else |
| `KeyCache.RepliesRefineTheLastStore` | app/core/internal_identity.py:145-158 | every reply of every run is the one the last stored set gives if stored less than TTL plus grace ago, and a refusal otherwise |
| `KeyCache.WithdrawnKeyIsForgotten` | app/core/internal_identity.py:141-158 | a kid absent from all sets stored after t is never returned from t + TTL + grace on; with no set stored since, every reply is a refusal |
| `KeyCache.NegativeGraceIsOutlived` | app/core/internal_identity.py:137-149 | with a negative grace the fast path would serve keys the slow path refuses |
| `Reembed.Collections.Flush` | scripts/reembed.py:134-152 | one request for the batch; each record is upserted under its id with its payload and sparse vector kept and the vector at its own place; a failure writes nothing |
| `Reembed.Collections.Copy` | scripts/reembed.py:154-163 | the loop makes exactly the requests and upserts of the paged copy, over whatever the target held |
| `Reembed.CopyIsFaithful` | scripts/reembed.py:134-163 | a copy that does not fail writes every record with text and skips every other, the counts add up, and each point is a scrolled record with the vector one of the run's own requests returned for its text |
| `Reembed.Collections.Reembed` | scripts/reembed.py:102-194 | the target afterwards is what a resume kept, or nothing, under this run's upserts; the alias moves if and only if the copy did not fail, skips were allowed, the source did not change, the sample finds itself and the target's ids are the source's less the skips; then every point is one this run upserted from a record it scrolled |
| `Reembed.FreshRunSwapsExactlyWhen` | scripts/reembed.py:129-190 | without a half-built target to keep, that last condition needs no more than distinct ids: a stale target never stops a run |
| `Reembed.CopyAsksInPages` | scripts/reembed.py:134-163 | every text is asked for once, in order, a full page at a time but for the last request |
| `CarryOver.Accounts.DryRun` | scripts/usage_events_carry_over.py:86-90 | one pass over the ledger gives the number and the cost of the very rows a run would carry |
| `CarryOver.Accounts.CarryBatch` | scripts/usage_events_carry_over.py:65-84 | a batch carries the next stretch of what was pending when the run began, and reports its size, cost and last id |
| `CarryOver.Accounts.Run` | scripts/usage_events_carry_over.py:110-135 | carries the first budget-many pending rows, reports their number and cost, and is complete exactly when fewer were pending |
| `CarryOver.RunsCompose` | scripts/usage_events_carry_over.py:61-64 | stopping at a ceiling and continuing equals one longer run |
| `CarryOver.AnyRunsReachTheSameState` | scripts/usage_events_carry_over.py:110-135 | any sequence of runs carries as many rows as its budgets add up to |
| `CarryOver.RemainingRowsShrink` | scripts/usage_events_carry_over.py:123-133 | uncarried rows shrink by the budget to none, and then a run changes nothing |
| `CarryOver.SpendIsConserved` | scripts/usage_events_carry_over.py:59-135 | over the events table: a run changes no event and adds to the scope's total exactly what it reports; a complete one leaves each in-scope row as its own event, and the table's total for the scope equal to the ledger's |
| `CarryOver.CarriedEventIsTheRow` | scripts/usage_events_carry_over.py:73-80 | an added event is named by its row's id and has that row's tenant, price, dates and verbatim columns |
| `CarryOver.HistoryIsBilledOnce` | scripts/usage_events_carry_over.py:59-135 | at the cutoff the script takes, a run whose budget suffices leaves nothing to carry and equal totals in both tables |
| `CarryOver.CutoffIsStable` | scripts/usage_events_carry_over.py:102-107 | carrying rows does not move the cutoff |
| `ToolIdempotency.ToolCallLedger.ClaimOrCached` | app/adapters/postgres/tool_idempotency.py:12-26 | an absent row becomes claimed; a stored result is handed back |
| `ToolIdempotency.ToolCallLedger.Idempotent` | app/core/tool_idempotency.py:75-131 | reply, row and whether the tool ran, for every way the ledger, the tool or the process can fail; other ids untouched |
| `ToolIdempotency.StoredResultIsFinal` | app/core/tool_idempotency.py:100-112 | once stored, every later answered attempt returns the result without running the tool |
| `ToolIdempotency.RunsExactlyWhen` | app/core/tool_idempotency.py:75-131 | an attempt runs the tool if and only if the ledger failed, or answered a process that lived on before any earlier attempt had stored a result |
| `ToolIdempotency.ReplyIsTheTools` | app/core/tool_idempotency.py:75-131 | whoever runs the tool is told what it returned or raised, whatever became of the claim or of storing it |
| `ToolIdempotency.RowExistsExactlyWhen` | app/adapters/postgres/tool_idempotency.py:12-25 | there is a row if and only if some claim landed |
| `ToolIdempotency.OnlyTheLastRunIsStored` | app/core/tool_idempotency.py:114-131 | of two runs through the ledger the earlier ended without a stored result |
| `ToolIdempotency.StoredResultHasOneOrigin` | app/core/tool_idempotency.py:114-131 | what is stored is what one guarded run returned, and no guarded run came after it |
| `Submissions.SubmissionStore.StreamTurn` | app/job_queue/producer.py:78-108 | a held key publishes nothing; a failed publish leaves no claim; without a key every call is a turn |
| `Submissions.HoldsExactlyWhen` | app/job_queue/queue.py:310-358 | in every run a submission holds the key it claimed exactly until its own deadline, unless its claim was overwritten or deleted before |
| `Submissions.DeadlineIsOneLifetime` | app/job_queue/queue.py:328-335 | a claim protects its key for the whole lifetime from the moment it was set |
| `Submissions.PublishIsStrayExactlyWhen` | app/job_queue/producer.py:82-108 | in every run a publish lands under someone else's live claim if and only if the key is claimed and the publisher's deadline has passed or its claim was overwritten or deleted |
| `Submissions.OneTurnPerClaim` | app/job_queue/producer.py:82-108 | since a claim was set at most one turn was published for its key, under the claim's request, in every interleaving where submissions publish or release before their own deadline and no claim is set over a live one |
| `Submissions.StalledSubmissionPublishesTwice` | app/job_queue/queue.py:310-339 | a submission that stalls past its deadline publishes a second turn under the next live claim |
| `Submissions.RacingTakersPublishTwice` | app/job_queue/queue.py:328-335 | two repeats that both find the key expired both set it and publish two turns under one live claim, within their deadlines |
| `Submissions.RepeatFindsTheFirst` | app/job_queue/producer.py:102-108 | in every run, the request a claim names is published, about to be, about to be released, or its submission died |
| `Submissions.ReadsItsOwnOrTheHolders` | app/job_queue/producer.py:82-112 | in every run a call reads its own events only after publishing, and another request's only if that request held the live claim when the call looked |
| `Submissions.CallOnItsOwn` | app/job_queue/producer.py:78-108 | the steps of one call with nobody in between join a live claim, or claim and publish, or leave nothing |
| `PollLoop.Channel.HandleUpdates` | app/channels/telegram.py:279-284 | all updates of a reply are handled in order and the offset is persisted past the last |
| `PollLoop.NoUpdateIsSkipped` | app/channels/telegram.py:264-284 | in every run with crashes anywhere, each update below the persisted offset was handled |
| `PollLoop.PersistedIsNotRepeated` | app/channels/telegram.py:264-284 | in every run no update below the persisted offset is handled again, however often the process restarts |
| `PollLoop.RepeatsOnlyAfterACrash` | app/channels/telegram.py:264-284 | an update is handled twice only if the process died in between |
| `PollLoop.DedupKeyIsInjective` | app/channels/telegram.py:127-134 | two deliveries share a key exactly when they are the same update of the same bot |
| `Utf8.DecodeEncode` | app/core/gateway.py:65-78 | decoding undoes encoding on every string |
| `Utf8.EncodeCharIsUtf8` | app/core/gateway.py:58-65 | each character is encoded in the length, lead and continuation bytes of section 3 of RFC 3629 |
| `EndUserId.QuoteByte` | app/core/gateway.py:58-65 | unreserved octets stay; any other becomes a percent sign and two upper-case digits of its value |
| `EndUserId.ParseInvertsMake` | app/core/gateway.py:58-79 | an id parses to a tenant and principal exactly when it is the one printed for them |
| `EndUserId.IdsAreInjective` | app/core/gateway.py:58-65 | different people have different ids |
| `EndUserId.OnlyCanonicalIdsParse` | app/core/gateway.py:71-79 | an id parses exactly when some tenant and principal print it |
| `Routing.HighestAtOrBelow` | app/core/routing_policy.py:135-140 | the best usable tier at or below a bound, over any chain |
| `Routing.FindHighest` | app/core/routing_policy.py:135-140 | the downward loop computes it |
| `Routing.DecideIsBest` | app/core/routing_policy.py:148-165 | the tier is the highest usable one within the ceiling and some signal; who asked for it and what limited it are exactly as named |
| `Routing.DecideIsMonotone` | app/core/routing_policy.py:148-165 | raising the ceiling or a signal or configuring more never lowers the tier; unlimited exactly when it equals what was asked |
| `Routing.StepDownReachesLocal` | app/core/routing_policy.py:143-145 | repeated stepping down strictly descends to local and skips no configured tier |

## Left out

- ToolSchema.Strictify: rewrites values, not dictionaries shared in memory; the source works on a deep copy, so no aliasing is lost. The English rendering of notes, stripping of descriptions and schema-valued `additionalProperties` are not modelled.
- ToolNotes.DescriptionsTellTheBounds: for documents whose `anyOf` branches differ in type, have no branches of their own and bound only values of their type, and whose descriptions bring no notes of their own.
- ToolNotes.NullIsHintedExactlyWhen: for properties that say by type, or by the types of their branches, whether they may be null; the rewrite itself looks at nothing else.
- ToolSchema.RewriteIsUndoneByPruning: one way only for the whole document; the converse is given per family of failing nodes, because whether other keywords can be satisfied at all depends on their meaning, which is a parameter. Keywords that would notice the deletion of a null-valued key, such as a minimum number of properties, are excluded.
- IngestQueue.NoJobIsLost: a terminal event and a dead-letter record once written count for ever; in the deployment a results stream expires 300 seconds after its last event and the dead-letter stream is trimmed to about 1000 records.
- IngestQueue.IngestStreams.HandleReclaimed: payloads that are JSON but not an object, or whose job id is empty, are not modelled; no producer writes them.
- Resilience.Retry: clock time spent sleeping is not advanced; the delays are returned instead.
- Ingestor.IngestText: the progress callback and the batching of the upsert into requests are not modelled; an attempt may write any part of its points.
- Reembed.Collections.Reembed: paging of the scroll and the sample check's vector search are inputs; the moment between the final read and the alias request is atomic here, a gap the source discloses.
- CarryOver.Accounts.Run: two runs racing each other, rows added to the ledger meanwhile and the retention sweep are not modelled.
- EndUserId.ParseInvertsMake: strings with lone surrogates, which cannot be encoded and make the printer raise, are not strings here.
- The ordered checks of the identity verifier, `read_results`, the worker's semaphore, settings checks, legacy end-user ids and rule matching for routing: each is decided by reading one function, and no result above depends on them.
- The graph, the agent worker, HTTP routes, the web page, billing, moderation, scrubbing, tracing, metrics and logging.
