# Verified models of the repository's protocols and analysers

These Dafny modules model the parts of the repository that carry real state or real
algorithms, and prove what those parts promise. `dafny verify dfyconfig.toml` checks
everything.

| files | what they model |
|---|---|
| `ReembedModel`, `ReembedScan`, `ReembedPublish`, `ReembedRecovery`, `ReembedVerdict`, `ReembedCommand`, `ReembedPoints`, `ReembedLocks` | the re-embedding command: Postgres rows as the truth, Qdrant points as the index, paged scan, optimistic read, advisory lock with re-check, batched publication, verification, and the loop over papers with its failures |
| `ReviewOutbox`, `OutboxRuns`, `OutboxGap` | the browser's offline review queue, every run of it against a server that dedupes by key, and every interleaving of its reads and writes |
| `Utf8`, `SseFraming` | the streaming UTF-8 decoder (RFC 3629; Encoding Standard, section 8.1.1) and the incremental SSE reader |
| `RouteAlias`, `RouteSafety`, `RouteRoundTrip` | creating, deleting and rolling back LiteLLM deployments of an alias under injected failures |
| `NpmAudit` | the depth-first advisory resolver and the audit gate |
| `ImportCoverage` | the import worklist and the coverage check |
| `RestoreUploader`, `UploadRuns` | the upload name grammar, the bounded body copy over a connection that may end early or break, temporary-then-rename, and every interleaving of uploads |
| `StaticSql`, `TableOwnership` | recovering SQL text without running it; table owners and cross-domain writes |
| `DiffReader` | reading the added lines out of a zero-context diff |
| `Cron` | clock times in cron expressions |
| `RetrievalEval` | coverage, weighted score, percentile and decision of the retrieval evaluation |
| `Base`, `Decimal` | result types, bytes and white space, sorting by key, decimal numerals |

Where the source changes things step by step, the model is a method or a class whose
contract ties the new state to a function of the old one; the theorems are about that
function and about runs built from it. Crashes and failing calls are part of the models: a
failing call may have no effect, part of its effect, or all of it.

## Assumptions

- Re-embedding: `chunk_point_id` and the superseded model-scoped id are abstract functions
  of their arguments, the first injective, their ranges disjoint (`Lawful`). Row ids and
  (paper, chunk_index) are unique, as `db/init.sql` declares (`ValidDb`). The scan and the
  verification look at stores nobody else is changing. In `ReembedLocks` every writer of
  chunk rows holds the paper's lock for its whole write and leaves no row remembering
  another row's canonical id as its old `embedding_id` (`CleanIds`); without the latter an
  upserted point can be deleted again, and `OnePassHeals` says exactly when. The former the
  repository breaks: `upsert_verified_public_paper`
  (services/paper_ingestion/paper_ingestion/services/paper_upsert.py:293-317) changes a paper's
  visibility and deletes its chunk rows without that lock, and a lost database session releases
  the lock while the upserts go on. `ChangedUnderneath` and `DeletedUnderneath` say exactly what
  such a change does to a publication under way.
- Outbox: in `OutboxRuns` each read-filter-write section is one atomic step and everything else
  interleaves; the code does not make it atomic, and `OutboxGap` says exactly what is lost when
  sections overlap. A storage call may fail; idempotency keys are fresh.
- Uploads: one active upload per name (`SharedTemporaryCommitsNothing` shows why) and no
  symbolic links in the inbox.
- Routing: deployment ids are fresh. Nobody else touches the alias. The gateway stores what is
  posted and lists it through a mask that is a parameter of the model.

## Findings

Places where the code does less than its text says; each has a lemma with the exact
condition or a concrete input.

- `verify_postconditions` counts rows without the join its scan uses. A target-model chunk
  row without a paper (paper_id is nullable) lets one stale point through
  (`VerificationSound`, `StalePointPassesBesideOrphanRow`).
- The documentation of `verify_postconditions` promises an owner match. `_record_matches_chunk`
  compares no owner, page number or stored content: a verified store still passes when a point
  is given any others (`MatchReadsOnlyChecked` names the fields that count,
  `VerificationIgnoresOwner`).
- In a database that holds a row with another row's canonical id as `embedding_id`, one
  uninterrupted re-embedding pass can leave work behind; a second pass always finishes
  (`OnePassHeals`, `TwoPassesHeal`, `ShiftedIdsNeedASecondPass`). No writer in the repository
  leaves such a row.
- The outbox documentation says that failing storage degrades to memory. The code drops a
  failed write, and a section that writes after a failed read replaces the whole queue
  (`OverwritingLoses`, `FailedWriteStoresNothing`).
- Nothing keeps two enqueues from interleaving. Every review written is still queued if and only
  if no call wrote after another had written since it read (`KeptIffNotInterleaved`,
  `UnprotectedGapLosesAReview`). A drain's last read and write have the same gap
  (`DrainGapLosesAReview`); without such crossings everything is as if in turn
  (`UncrossedIsSerial`).
- An upload without a declared length whose client is cut off is committed, cut off, with a 201.
  The committed file is the body the client meant to send if and only if the declared length is
  that body's or, with none declared, the connection ended after all of it (`StoredIsIntended`,
  `NamesHoldWholeUploads`, `ShortUploadCommitted`).
- Routing and restoring keep an alias served under every failure except one: the last stale
  delete is carried out but reported as failed, and the rollback then removes the new
  deployments too (`RouteKeepsAlias`, `RestoreKeepsAlias`, `TimeoutLosesTheAlias`).
- A snapshot holds what the gateway lists, and LiteLLM lists `api_key` masked. Restoring it posts
  the mask as the key: snapshot, route, restore gives back the DB parameters as listed, and a second
  copy beside DB deployments listed without an id (`RoundTrip`). They are the stored ones if and
  only if every DB deployment is listed with an id and as it is stored (`RoundTripIff`); a
  deployment with a real key never comes back (`RealKeysAreLost`, `MaskedKeyRestored`). Every other
  setting does (`RoundTripBesidesKeys`).
- The constant scanner does not read `+=`, nor bindings in branches, loops and tuple assignments,
  and keeps what it had recorded, marked exact: right if and only if the addition is empty or the
  other binding brings the same text (`UnreadBindingMisread`, `AugmentedAssignmentMissed`).
- It looks names up in the module's final constants, inside every function and for every call. A
  query marked exact is not the one sent when a parameter or local shadows a constant it uses with
  another value, or when the call is made before the constant's last assignment
  (`StaticQueryIsExact`, `ShadowedConstantMisread`, `CalledTooEarly`; two such names may cancel out,
  `ShadowsCanCancel`).
- It takes `s.format(..)` and `s.join(..)` for s with a hole after it, which is a template of the
  result if and only if that begins with s (`CallTakenForPrefix`, `JoinedColumnsMisread`).
- It takes `x.strip("..")` and `textwrap.dedent(x)` for their argument, marked exact. For strip
  that is right if and only if both strings are empty (`StripTakenForItsArgument`,
  `SemicolonRecovered`), for dedent if and only if there is nothing to dedent
  (`DedentTakenForItsArgument`).
- The diff reader loses an added line that itself begins with `++` or holds a form feed or
  a similar separator, and numbers lines one too high when they replace a last line
  without a newline (`ReadsBackExactly`, `OpenEndShiftsNumbers`). A separator in a removed line or
  a heading can make up an added line or shift the numbers (`PhantomLine`, `HeadingShiftsNumbers`).
  `TextReadsBackExactly` is the exact condition for any text, `ExactPlainly` says it in plainer
  terms where no piece of a line is a hunk header.
- `isTimeOnlyCron` accepts fields that are not numerals (`5x`, `?`); saving the time the
  picker shows then changes the schedule (`PickerKeepsSchedule`).
- A table listed twice under one domain is refused like one listed under two
  (`FlattenOwned`).
- The manifest loader checks only that rubric weights have a positive sum; a negative weight
  lets the quality score leave 0..100 (`PercentageIffWeightsNonNegative`).

## Model

| member | source | states |
|---|---|---|
| ReembedModel.StaleCanonical | scripts/reembed.py:668-683 | cleanup deletes a canonical point id only when some row of the paper remembers it as old id and it is not that row's own |
| ReembedModel.FirstOccurrencesAre | scripts/reembed.py:683 | de-duplicating the stale ids keeps every id, once |
| ReembedScan.ProbeBatch | scripts/reembed.py:571-617 | probing a batch adds exactly the papers of its rows whose canonical point is missing or does not match |
| ReembedScan.FindPapersNeedingReembed | scripts/reembed.py:571-617 | the paged, batched scan returns the scan result over the whole table, whatever the page and batch boundaries |
| ReembedScan.ScanResultIs | scripts/reembed.py:571-617 | the scan result is, in ascending order and once each, exactly the papers owning a joined row without a matching canonical point; it is empty exactly when all such rows match |
| ReembedScan.VerifyPostconditions | scripts/reembed.py:838-903 | the loops of the verification compute its specification, error cases included |
| ReembedScan.VerificationSound | scripts/reembed.py:838-903 | after a passing verification every scanned row has its matching point, there are exactly as many unowned target points as unscanned target rows, and the points are in bijection with the rows if and only if there is no such row |
| ReembedScan.VerificationComplete | scripts/reembed.py:838-903 | a store in exact bijection passes, if and only if no unscanned target row upsets the count |
| ReembedScan.StalePointPassesBesideOrphanRow | scripts/reembed.py:874-903 | concrete stores that pass verification with a point no row owns |
| ReembedScan.MatchReadsOnlyChecked | scripts/reembed.py:549-568 | replacing a matched row's point keeps every match if and only if paper, index, model, source type, scope, generation and fingerprint agree; owner, page, content and vector are free |
| ReembedScan.VerificationIgnoresOwner | scripts/reembed.py:838-903 | a verified store still passes when a matched point is given any other owner, page number or content |
| ReembedScan.MatchNeedsRecord | scripts/reembed.py:549-568 | a matched row matches no longer once it records another id or another model |
| ReembedScan.ExtraPointCounts | scripts/reembed.py:875-903 | one more point in a verified store: it still passes if and only if the point is not of the target model |
| ReembedScan.ExtraOrphanCounts | scripts/reembed.py:864-874 | one more chunk row without a paper: it still passes if and only if the row is not of the target model |
| ReembedPublish.EmbedTextsInBatches | scripts/reembed.py:362-403 | the batch loop returns all vectors or the first batch's error |
| ReembedPublish.EmbeddedInOrder | scripts/reembed.py:362-403 | accepted vectors are one per text, each of the expected dimension and from its text's place in its batch's reply |
| ReembedPublish.EmbeddedExactly | scripts/reembed.py:362-403 | embedding succeeds if and only if every batch is answered with one vector of the right dimension for each of its texts; otherwise the error is that of the first batch that is not |
| ReembedPublish.ReembeddedPoints | scripts/reembed.py:630-665 | points and metadata updates come one per row in row order, unless some row's visibility is invalid |
| ReembedPoints.RefusedRows | services/paper_ingestion/paper_ingestion/ingestion/payload_schema.py:52-76 | building the points is refused exactly for a source type of white space, a scope that is neither public nor private, or a generation that is not 32 hex digits |
| ReembedPoints.ReembeddedPoint | scripts/reembed.py:630-835 | after a run that ends well, whatever was tolerated on the way: each chunk records its own id and the model and, unless another chunk of the paper still carries that id, has a point with the chunk's own page, text, index and paper, the paper's owner, source and scope, the generation and the fingerprint, and the vector at the chunk's place in its batch's reply |
| ReembedPoints.HonestPoint | scripts/reembed.py:630-665 | after a repair with a backend that embeds each text, that vector is the one of the chunk's content |
| ReembedPoints.OtherPointsStay | scripts/reembed.py:668-767 | every point that is no chunk's of the paper and left behind by none is as it was |
| ReembedPoints.StaleExactly | scripts/reembed.py:668-683 | the points a publication deletes are those the paper's chunks remember as old ones and their ids of the superseded scheme |
| ReembedPoints.SnapshotsAgree | scripts/reembed.py:529-546 | two reads have equal snapshots if and only if the paper has the same chunks with the same columns, and the same columns of its own if it has chunks |
| ReembedPoints.BatchesOfHundred | scripts/reembed.py:758-766 | the upserts carry every point once, in order, a hundred to a call and the rest in the last |
| ReembedPublish.StaleReembeddedPointIds | scripts/reembed.py:668-683 | reading new ids back through the update list gives the stale ids of the rows, for rows with distinct ids |
| ReembedPublish.RowIdsDistinct | scripts/reembed.py:519-526 | the rows of a paper have distinct ids, so the update list determines each row's new id |
| ReembedPublish.Backends.FinishPublication | scripts/reembed.py:686-732 | the cleanup delete, whose failure ends the run unless it is tolerated, then the metadata transaction |
| ReembedPublish.Backends.PublishPoints | scripts/reembed.py:735-767 | batched upserts, then the cleanup delete (whose failure may be tolerated), then the metadata transaction, stopping at the first call that raises |
| ReembedPublish.Backends.StoreReembeddedPaper | scripts/reembed.py:735-767 | under the lock: compares the rows with those embedded, refuses invalid visibility, publishes otherwise |
| ReembedPublish.Backends.ReembedPaper | scripts/reembed.py:770-835 | the whole run for a paper: optimistic read, embedding, lock, re-check, publication |
| ReembedPublish.PublishesHeldRowsOrNothing | scripts/reembed.py:770-835 | a run executes exactly the writes computed from the rows held under the lock if they embedded, are visible and are those read before; otherwise it changes neither store and makes no call on either, whatever faults lie in wait |
| ReembedPublish.SnapshotDeterminesRows | scripts/reembed.py:529-546 | equal snapshots mean equal rows: the snapshot covers every field the points depend on |
| ReembedRecovery.PublishingKeepsMatches | scripts/reembed.py:735-767 | publishing a paper that remembers no other row's canonical id un-matches no row, at whichever call it raises and however far that call got |
| ReembedRecovery.UndisturbedRun | scripts/reembed.py:735-767 | without failures the three kinds of call leave exactly the published stores |
| ReembedRecovery.PublishedMatches | scripts/reembed.py:735-767 | after a publication exactly the rows that matched or were published match, except those some published row remembers as stale |
| ReembedRecovery.PassMatches | scripts/reembed.py:1060-1110 | which rows match after a pass over any ascending list of papers, exactly |
| ReembedRecovery.OnePassHeals | scripts/reembed.py:571-617 | from any stores, one uninterrupted pass over the scanned papers makes the next scan empty if and only if no later publication deletes a row's canonical point |
| ReembedRecovery.PassRecordsIds | scripts/reembed.py:710-732 | after a pass every handled row records its own canonical id |
| ReembedRecovery.TwoPassesHeal | scripts/reembed.py:571-617 | two uninterrupted passes always leave the scan empty, from any stores |
| ReembedRecovery.ShiftedIdsNeedASecondPass | scripts/reembed.py:668-683 | a concrete database, holding a row with another row's canonical id, that one pass does not heal |
| ReembedRecovery.HonestRunRepairs | scripts/reembed.py:770-835 | with an embedding backend that answers each batch and no other writer, a run for a paper is exactly its repair |
| ReembedRecovery.RepairOne | scripts/reembed.py:770-835 | the same on the stateful model |
| ReembedRecovery.RepairAll | scripts/reembed.py:1089-1112 | with nothing failing, the loop over papers performs the pass the healing theorems are about |
| ReembedVerdict.PassLeaves | scripts/reembed.py:838-903 | the target-model points no row owns after a pass are exactly those that no row owned before and no repaired row remembers; the rows the scan cannot see are untouched |
| ReembedVerdict.PassVerdict | scripts/reembed.py:838-903 | after an undisturbed pass the verification passes if and only if the rows held no hazard and the unowned points no repaired row remembers are as many as the target rows the scan cannot see |
| ReembedVerdict.RunCommand | scripts/reembed.py:1052-1126 | scan, repair and verify in one undisturbed run: the final stores are the pass, and the verdict is Ok exactly under that condition on the stores before |
| ReembedVerdict.ChangedUnderneath | scripts/reembed.py:735-767 | if a paper's rows change without its lock between re-check and publication, a row still there matches in the end if and only if the change touched none of the compared fields |
| ReembedVerdict.DeletedUnderneath | scripts/reembed.py:735-767 | if such a change deletes a row, the run leaves a target-model point no row owns |
| ReembedCommand.PublicationServes | scripts/reembed.py:735-767 | a publication that raises nothing matches every row of the paper it endangers none of, even if the cleanup it tolerated fell short |
| ReembedCommand.RepairInBatches | scripts/reembed.py:1086-1116 | the loop over batches of papers, with any replies and failing calls: which papers it records as failed, which error ends it, and what the stores have become |
| ReembedCommand.EndedOnlyBy | scripts/reembed.py:1104-1109 | the loop is ended only by a wrong count or dimension, rows changed under the lock, a cleanup delete whose failure is not tolerated, or a backend error of the command's own |
| ReembedCommand.OnePaperEnds | scripts/reembed.py:1104-1109 | which failures of a single paper end the loop, and which are recorded and passed over, exactly |
| ReembedCommand.RepairPapersKeep | scripts/reembed.py:1086-1116 | if no listed paper remembers another row's canonical id, then whatever fails and wherever the loop ends, every row that matched still does, and every row of a paper that is neither recorded as failed nor cut off matches |
| ReembedCommand.Command | scripts/reembed.py:1052-1126 | the command with failures: its stores and its answer in each case; a good end means that every scanned row has its matching point and the points beside them are as many as the target rows the scan cannot see |
| ReembedCommand.CommandVerdict | scripts/reembed.py:1086-1126 | under the same condition on the rows, the command ends well if and only if no error ended the loop, failed papers are none or tolerated, their rows match all the same, and the counts agree |
| ReembedLocks.StepKeepsInv | scripts/reembed.py:620-667 | every enabled step of any number of runs, chunk writers, tolerated cleanup failures and crashes keeps the protocol invariant |
| ReembedLocks.PublishesTheLockedRows | scripts/reembed.py:735-835 | in every reachable world a publishing run holds its paper's lock; the calls it has made, a tolerated cleanup delete perhaps in part, and those to come are the writes computed from the rows the paper has now; all its rows match once everything is sent |
| ReembedLocks.OnePublisherPerPaper | scripts/reembed.py:620-627 | no two runs publish the same paper at once |
| ReembedLocks.NoStepLosesAMatch | scripts/reembed.py:735-835 | in every interleaving no step, crash and tolerated cleanup failure included, un-matches a row, except a chunk writer's step on its own paper |
| ReembedLocks.WritesOnlyWhatItHeld | scripts/reembed.py:816-833 | whatever a run has written is an initial part of the writes computed from the rows it re-read under the lock, only a tolerated cleanup delete and the last call possibly cut short |
| ReviewOutbox.Outbox.PurgeForeignEntries | frontend/src/lib/review-outbox.ts:167-174 | returns the active user's entries in order and stores only them when something had to go |
| ReviewOutbox.Outbox.EnqueueReview | frontend/src/lib/review-outbox.ts:199-216 | returns the stamped record and stores the active user's entries followed by it, unless a storage call fails |
| ReviewOutbox.Outbox.GetReviewOutbox | frontend/src/lib/review-outbox.ts:222-224 | returns the active user's entries, purging the rest |
| ReviewOutbox.Outbox.ClearReviewOutbox | frontend/src/lib/review-outbox.ts:230-240 | empties the store unless the write fails |
| ReviewOutbox.Outbox.DrainReviewOutbox | frontend/src/lib/review-outbox.ts:273-312 | posts the active user's entries; on failure keeps what the queue has become; on a reply removes exactly the posted entries from it and counts the rest |
| OutboxRuns.StepKeepsInv | frontend/src/lib/review-outbox.ts:167-312 | every step of queue, transport and server keeps the run invariant |
| OutboxRuns.LeavesOnlyBy | frontend/src/lib/review-outbox.ts:167-312 | a step takes an entry out of the queue if and only if it stores a purge under another identity, a clear, an overwrite after a failed read, or what is left of a reply to a POST that carried it; the last only what the server has taken |
| OutboxRuns.NoReviewIsLost | frontend/src/lib/review-outbox.ts:199-312 | over every run, with lost replies, overlapping drains and enqueues during a POST, a stored review is queued, delivered, or was removed by one of the listed causes |
| OutboxRuns.QuietRunsLoseNothing | frontend/src/lib/review-outbox.ts:199-312 | without storage faults, switches and clears every stored review is queued or with the server |
| OutboxRuns.OverwritingLoses | frontend/src/lib/review-outbox.ts:118-142 | a section that writes after a failed read drops every other queued review |
| OutboxRuns.FailedWriteStoresNothing | frontend/src/lib/review-outbox.ts:132-142 | a record whose write failed is stored nowhere |
| OutboxRuns.AppliedOnce | frontend/src/lib/review-outbox.ts:178-216 | the server applies no key twice, applies only stored reviews, and has applied every delivered one |
| OutboxRuns.PostsCarryOneIdentity | frontend/src/lib/review-outbox.ts:276-305 | in every run each posted batch holds only the identity its drain captured, each review once, in enqueue order |
| OutboxRuns.PostSentUnderActive | frontend/src/lib/review-outbox.ts:276-290 | the captured identity is the active one when the POST is sent |
| OutboxRuns.ReplyRemovesExactlyThePosted | frontend/src/lib/review-outbox.ts:291-312 | handling a reply removes exactly the posted reviews, so a drain that finishes after a switch removes nothing of the new user |
| OutboxRuns.QueueKeepsOrder | frontend/src/lib/review-outbox.ts:204-214 | in every reachable state the queue is a subsequence of the stored reviews, without duplicates |
| OutboxRuns.PurgeLeavesOnlyActive | frontend/src/lib/review-outbox.ts:167-174 | after a purging section with working storage only the active user's entries remain |
| OutboxGap.KeptIffNotInterleaved | frontend/src/lib/review-outbox.ts:204-214 | for any number of enqueues and any interleaving of their reads and writes, every review written is queued at the end if and only if no call wrote after another had written since it read; then the queue has grown by them in the order of the writes |
| OutboxGap.UnprotectedGapLosesAReview | frontend/src/lib/review-outbox.ts:204-214 | the interleaving read, read, write, write of two enqueues keeps the second review and drops the first |
| OutboxGap.UncrossedIsSerial | frontend/src/lib/review-outbox.ts:167-312 | enqueues, drains and purges of any users, reads and writes apart: if no call stores anything after another has since its read, the queue is as if they had come one after the other |
| OutboxGap.ResultKeeps | frontend/src/lib/review-outbox.ts:167-312 | one after the other, a call takes out only other users' entries and what its drain has posted |
| OutboxGap.DrainGapLosesAReview | frontend/src/lib/review-outbox.ts:291-312 | a review enqueued between a drain's last read and its write is gone |
| Utf8.DecodeConcat | frontend/src/lib/sse.ts:169-176 | decoding in pieces equals decoding at once, wherever the bytes are cut |
| Utf8.DecodeEncode | frontend/src/lib/sse.ts:169-176 | decoding inverts encoding for every text, but for one leading byte order mark, which is dropped |
| SseFraming.SplitConcat | frontend/src/lib/sse.ts:174-177 | splitting two parts one after the other, carrying the unterminated rest, equals splitting the whole |
| SseFraming.FramesConcat | frontend/src/lib/sse.ts:178-186 | lines already framed stay framed, and nothing follows the sentinel |
| SseFraming.EmitLines | frontend/src/lib/sse.ts:178-186 | the inner loop yields the framed payloads up to the sentinel or the consumer's last demand |
| SseFraming.FeedChunk | frontend/src/lib/sse.ts:169-187 | one chunk keeps the reader's position in the whole stream, or ends it as the whole stream says |
| SseFraming.ReadSSEFrames | frontend/src/lib/sse.ts:165-193 | for every sequence of reads, the payloads are those of framing the whole decoded text at once, cut at the sentinel or at the consumer's demand; if the reads carry the bytes of lines `data: ` + padding + payload + padding and of other lines, these payloads, in order, up to the first that is [DONE]; the exit is the right one; the reader is cancelled exactly once on every exit |
| SseFraming.StreamFrames | frontend/src/lib/sse.ts:174-187 | the text of such lines, each ended by a line feed but perhaps the last, frames to exactly their payloads up to [DONE] |
| SseFraming.DataOfSent | frontend/src/lib/sse.ts:181-184 | a data line's payload is what stands behind `data: ` without the white space at its ends; no other line has one |
| Utf8.LeadBeforePlain | frontend/src/lib/sse.ts:169-176 | a lead byte in front of a plain character costs one replacement character and nothing else |
| SseFraming.ChunkingDoesNotMatter | frontend/src/lib/sse.ts:165-193 | however a text's bytes are cut, with empty chunks and no final newline, framing sees the lines of the text, without a leading byte order mark if it has one |
| SseFraming.TypedEvents | frontend/src/lib/sse.ts:209-268 | the payload loop yields the decodable payloads in order |
| SseFraming.AcceptedAre | frontend/src/lib/sse.ts:209-268 | the events are exactly the decoded payloads, each at its turn: their positions are those of the payloads that decode, in order |
| SseFraming.MalformedFrameSkipped | frontend/src/lib/sse.ts:209-268 | a malformed frame costs only itself, wherever it stands |
| RouteAlias.DbDeploymentIds | scripts/perf/litellm_route_alias.py:66-75 | the loop collects the alias's stale ids in listing order |
| RouteAlias.StaleIdsAre | scripts/perf/litellm_route_alias.py:50-75 | the stale ids are exactly the alias's DB deployments listed with an id, each once |
| RouteSafety.CreateEachGrows | scripts/perf/litellm_route_alias.py:173-177 | creating only adds: through every state of a loop of creates, failures included, each deployment from before is there unchanged |
| RouteSafety.DeleteEachShrinks | scripts/perf/litellm_route_alias.py:180-184 | deleting only takes away: what is there after a loop of deletes was there, unchanged, in every state before, and the loop adds nothing |
| RouteAlias.Gateway.RouteAlias | scripts/perf/litellm_route_alias.py:187-216 | refuses YAML stacks, listings with unmasked keys when a snapshot is asked for, and bad bases before changing anything; otherwise creates, deletes the stale, rolls back on failure; when it ends well the new deployment calls model `openai/` + the served model at the address without its last slashes, with every other setting as given; without faults it fails only by those refusals |
| RouteAlias.BuildParamsExactly | scripts/perf/litellm_route_alias.py:83-95 | refused exactly if the address without its last slashes does not end in `/v1`; otherwise model, address and every other setting are the given ones |
| RouteAlias.SnapshotRefused | scripts/perf/litellm_route_alias.py:98-103 | a snapshot is refused exactly for a deployment of the alias whose key is a number or a text that is neither empty nor EMPTY nor starred |
| RouteAlias.SnapshotLists | scripts/perf/litellm_route_alias.py:106-120 | a snapshot holds every record of the alias, YAML ones included, each once in listing order |
| RouteAlias.Gateway.RestoreAlias | scripts/perf/litellm_route_alias.py:219-245 | refuses an empty snapshot unless allowed; otherwise creates all, deletes the stale, rolls back on failure |
| RouteSafety.RestoreKeepsAlias | scripts/perf/litellm_route_alias.py:228-245 | with any call failing at any point, rollback included, every intermediate and final state serves the alias if and only if the failure is not a last stale delete carried out late with the rollback carried out to its end; always, when failing calls have no effect |
| RouteSafety.RouteIsRestore | scripts/perf/litellm_route_alias.py:187-216 | on the gateway, routing is restoring one deployment, failures included |
| RouteSafety.RouteKeepsAlias | scripts/perf/litellm_route_alias.py:187-216 | the same guarantee, with the same single exception, for routing |
| RouteSafety.TimeoutLosesTheAlias | scripts/perf/litellm_route_alias.py:209-216 | a concrete run in which a timed-out delete leaves the alias with nothing |
| RouteRoundTrip.SnapshotHoldsDbParams | scripts/perf/litellm_route_alias.py:106-148 | reading a snapshot back yields the multiset of the alias's DB parameters, each as the gateway lists it |
| RouteRoundTrip.RouteReplaces | scripts/perf/litellm_route_alias.py:187-216 | a fault-free routing raises nothing and leaves the new deployment and what could not be deleted |
| RouteRoundTrip.RestoreReplaces | scripts/perf/litellm_route_alias.py:228-245 | the same for restoring |
| RouteRoundTrip.RoutedAlone | scripts/perf/litellm_route_alias.py:187-216 | when every DB deployment has an id, the alias's DB side after routing is exactly the new route, and nothing else changed |
| RouteRoundTrip.RoundTrip | scripts/perf/litellm_route_alias.py:106-245 | for every mask the gateway lists parameters through: snapshot, route, restore gives back the DB parameters as listed, beside those of DB deployments without an id as they were; other deployments untouched |
| RouteRoundTrip.RoundTripIff | scripts/perf/litellm_route_alias.py:106-245 | under a mask that changes nothing more when applied twice, the DB parameters are those before if and only if every DB deployment has an id and is listed as it is stored |
| RouteRoundTrip.RealKeysAreLost | scripts/perf/litellm_route_alias.py:97-102 | whatever the mask, if a DB deployment stores a key that must not be in a snapshot, the DB parameters are not those before |
| RouteRoundTrip.RoundTripBesidesKeys | scripts/perf/litellm_route_alias.py:106-245 | under a mask that changes only api_key, every other setting comes back, twice for DB deployments without an id |
| RouteRoundTrip.MaskedKeyRestored | scripts/perf/litellm_route_alias.py:228-235 | for any alias and real key: the snapshot is accepted, and the alias ends with `sk-***` for its key |
| NpmAudit.ResolveAdvisoryRoots | scripts/check_npm_audit.py:39-63 | the recursion terminates on every graph (entries minus trail shrink) and computes the specification |
| NpmAudit.AdvisoryIdExactly | scripts/check_npm_audit.py:16-36 | an advisory's id is the GHSA- name of letters, digits and hyphens behind the last slash of its url, one final newline apart; it has none if and only if its url ends in no such name |
| NpmAudit.PathOk | scripts/check_npm_audit.py:39-63 | along every walk from an accepted entry nothing is met twice and the end is accepted with no more roots |
| NpmAudit.FailureWalk | scripts/check_npm_audit.py:39-63 | every refusal is explained by a walk that ends in a repeat or a refused entry |
| NpmAudit.ResolverExact | scripts/check_npm_audit.py:39-63 | accepts if and only if no walk through high entries repeats or meets an unreadable or rootless entry; then the result is exactly the reachable high advisories, non-empty for a high entry |
| NpmAudit.HighAdvisoryIds | scripts/check_npm_audit.py:66-77 | the report loop, stopping at the first error in key order |
| NpmAudit.HighIdsExact | scripts/check_npm_audit.py:66-77 | a report's ids are exactly the reachable ones; it is empty if and only if the version is 2, all entries are objects and none is high or critical |
| NpmAudit.EvaluateReports | scripts/check_npm_audit.py:80-86 | the gate passes if and only if both reports are harmless; the blocking list is the union over both reports and not empty |
| ImportCoverage.RuntimeModulesAre | scripts/check-shared-import-coverage.py:161-174 | the seeds are the package's files without the test-only ones, each once |
| ImportCoverage.TestOnlyExactly | scripts/check-shared-import-coverage.py:168-173 | test-only are testing.py and testing_*.py in any directory and whatever lies below testing_sidecars |
| ImportCoverage.NeedsExactly | scripts/check-shared-import-coverage.py:211-227 | a file needs the distribution of each import whose top-level name is no future statement, no standard module and not the package |
| ImportCoverage.ModuleFiles | scripts/check-shared-import-coverage.py:183-197 | exactly the existing files that importing a dotted module executes, ancestors included |
| ImportCoverage.ScanFile | scripts/check-shared-import-coverage.py:211-227 | one turn of the worklist keeps its invariant, queues everything the file pulls in, and records a first use for exactly the distributions it is first to need |
| ImportCoverage.RequiredDistributions | scripts/check-shared-import-coverage.py:200-228 | terminates, parses each file of the least closed set once and no other, and maps exactly the distributions any least closed set needs, each to an import in the first parsed file needing it |
| ImportCoverage.OrderDoesNotMatter | scripts/check-shared-import-coverage.py:200-228 | two listings of the same files have the same closure and the same required distributions |
| ImportCoverage.AncestorsIncluded | scripts/check-shared-import-coverage.py:183-197 | importing a submodule brings in every existing ancestor package file |
| ImportCoverage.TestingHelpersOnlyWhenPulled | scripts/check-shared-import-coverage.py:161-174 | a test-only file is scanned if and only if another scanned file pulls it in |
| ImportCoverage.Violations | scripts/check-shared-import-coverage.py:279-329 | the violation list holds exactly the required distributions missing from the group or from a constraint file: the group's first, then each file's, each in the order of names |
| ImportCoverage.CheckCoverage | scripts/check-shared-import-coverage.py:255-329 | status 2 exactly for unmeasurable inputs; 0 only if every distribution any least closure needs is covered; 1 only if one is not |
| RestoreUploader.PartNeverAllowed | services/restore_uploader/uploader.py:45-54 | no temporary carries an allowlisted name |
| RestoreUploader.PartsDistinct | services/restore_uploader/uploader.py:224-233 | distinct targets have distinct temporaries |
| RestoreUploader.AllowedIsPlain | services/restore_uploader/uploader.py:175-197 | an allowlisted name holds no separator, traversal or NUL, whatever counts as a digit |
| RestoreUploader.ResolveFilename | services/restore_uploader/uploader.py:175-197 | accepts exactly the allowlisted names behind `/restore-upload/`, with the right status otherwise |
| RestoreUploader.AllowedIs | services/restore_uploader/uploader.py:45-54 | the allowlist holds exactly the names put together from a listed prefix, a timestamp of eight and six digits and the prefix's suffix, the snapshot names with a label, and the operator key |
| RestoreUploader.StreamBody | services/restore_uploader/uploader.py:152-173 | writes a prefix of what arrived, never more than the cap; succeeds exactly with the whole offer within the cap on a connection that does not break first; refuses as too large only when the offer exceeds the cap |
| RestoreUploader.Inbox.Store | services/restore_uploader/uploader.py:224-266 | on success the target holds the whole offer, of the declared length and at most the cap; on any failure, broken connections included, only the temporary is gone; which status each case answers |
| RestoreUploader.StoredIsIntended | services/restore_uploader/uploader.py:152-173 | a stored upload is the body the client meant to send if and only if the declared length is that body's, or none was declared and the connection ended after all of it |
| RestoreUploader.Inbox.Put | services/restore_uploader/uploader.py:175-278 | the status of each refusal, in order, with nothing written: route, name, grant, unparsable or negative length, length above the cap, no space; a stored upload holds the first n bytes that arrived for an accepted header n and all that arrived without one; fewer than n on a clean close answer 400; a failed upload changes no allowlisted name |
| UploadRuns.StepKeepsInv | services/restore_uploader/uploader.py:224-266 | every step of any interleaving, connections that end early or break, failures and crashes included, keeps the run invariant |
| UploadRuns.OnlyRenameCommits | services/restore_uploader/uploader.py:247-266 | only a rename changes an allowlisted name, and it replaces the whole content |
| UploadRuns.NamesHoldWholeUploads | services/restore_uploader/uploader.py:224-266 | in every reachable world each allowlisted name holds its first content or what arrived of one finished upload, within the cap and of the declared length; that is the client's whole body if and only if the declared length is the body's or, with none declared, all of it had arrived |
| UploadRuns.ShortUploadCommitted | services/restore_uploader/uploader.py:160-168 | a concrete upload without a declared length that is cut off and committed |
| UploadRuns.NamesNeverVanish | services/restore_uploader/uploader.py:224-266 | no allowlisted name disappears |
| UploadRuns.SharedTemporaryCommitsNothing | services/restore_uploader/uploader.py:224-233 | two uploads to one name can commit a file nobody sent, which is why one writer per name is assumed |
| StaticSql.FillsConcat | scripts/database_inventory.py:248-258 | fillings of two templates make a filling of their concatenation |
| StaticSql.CollectModuleConstants | scripts/database_inventory.py:409-419 | the statement loop builds the constants map |
| StaticSql.ExpressionSound | scripts/database_inventory.py:238-264 | where the constants are right about the names an expression uses, a text marked not dynamic equals the run-time string and a dynamic one is a template of it |
| StaticSql.ModuleSound | scripts/database_inventory.py:378-419 | the same for a query in a function that is called after any prefix of the module and whose locals overlay its names, when the records of the other names it uses are final by then and the tracked names are bound only by statements the scanner reads |
| StaticSql.StaticQueryIsExact | scripts/database_inventory.py:378-393 | a query recovered as not dynamic is the string that is sent, after any prefix of the module, when every name it uses has its final text then, in the locals or in the prefix's record; and, when at most one has not, only then |
| StaticSql.CalledTooEarly | scripts/database_inventory.py:409-419 | a call between two assignments of a constant: the later text is recovered as exact, the earlier one sent |
| StaticSql.ShadowedConstantMisread | scripts/database_inventory.py:378-393 | a concrete function whose parameter shadows a constant: another string is sent than the one recovered as exact |
| StaticSql.ShadowsCanCancel | scripts/database_inventory.py:378-393 | two shadowed names that make the recovered string all the same |
| StaticSql.UnreadBindingMisread | scripts/database_inventory.py:409-419 | anywhere in a module, after `+=` or a binding the scanner does not read, the text it recorded before stands, marked exact, and is right if and only if the addition is empty or the other binding brings the same text |
| StaticSql.AugmentedAssignmentMissed | scripts/database_inventory.py:409-419 | the smallest instance: two literals |
| StaticSql.StripTakenForItsArgument | scripts/database_inventory.py:253-263 | what `s.strip(chars)` is recovered as is its run-time value if and only if both strings are empty, for every string and every set of characters |
| StaticSql.SemicolonRecovered | scripts/database_inventory.py:253-263 | `"SELECT 1;".strip(";")` is recovered as the semicolon, marked exact |
| StaticSql.DedentKeeps | scripts/database_inventory.py:253-263 | dedenting leaves a text alone if and only if its blank lines are empty and its other lines do not all begin with a space, nor all with a tab |
| StaticSql.DedentTakenForItsArgument | scripts/database_inventory.py:253-263 | what `textwrap.dedent(x)` is recovered as is its run-time value if and only if x is such a text |
| StaticSql.DedentIs | scripts/database_inventory.py:260-261 | a dedented text is the one with its blank lines emptied and the longest indent the others share taken off each |
| StaticSql.StripIs | scripts/database_inventory.py:260-261 | strip takes characters of the set off both ends and leaves none there |
| StaticSql.FormattedPart | scripts/database_inventory.py:243-252 | an f-string is recovered as its literal parts with `{dynamic}` for what it formats |
| StaticSql.CallTakenForPrefix | scripts/database_inventory.py:257-259 | a format or join call is recovered as its receiver's text with a hole after it, a template of the run-time string if and only if that begins with the text |
| StaticSql.JoinedColumnsMisread | scripts/database_inventory.py:257-259 | `", ".join(..)` giving `id, name` is no filling of what it is recovered as |
| TableOwnership.FlattenOwned | scripts/database_inventory.py:205-235 | succeeds if and only if no table is assigned twice, then maps exactly what the manifest says; otherwise names the first repeat and both domains |
| TableOwnership.CrossDomainWrites | scripts/database_inventory.py:581-621 | lists, in source order, exactly the writes to an owned table outside the writer's own domain, operator scripts apart |
| TableOwnership.CrossesByPlace | scripts/database_inventory.py:566-578 | by the file's place: each of the three owning services may write its own domain's tables, operator scripts any, all other code none |
| TableOwnership.WriterByPlace | scripts/database_inventory.py:566-578 | and which writer a listed write names |
| DiffReader.AddedLines | scripts/check-test-shape.py:186-200 | the loop computes the reading of the lines |
| DiffReader.HeaderRead | scripts/check-test-shape.py:189-194 | a printed hunk header gives the number of the first new line, whatever heading follows it |
| DiffReader.NumberedAsInTheNewFile | scripts/check-test-shape.py:145-149 | the lines a script inserts are numbered as they stand in the edited file: each entry is that line, in order, and none is missing |
| DiffReader.ReadsBackExactly | scripts/check-test-shape.py:186-200 | reading printed zero-context hunks gives back exactly the inserted lines and numbers, if and only if no inserted line begins with `++` and none replaces an old last line without a newline |
| DiffReader.TextReadsBackExactly | scripts/check-test-shape.py:187-200 | from the printed text, for every preamble, heading, removed and inserted line: exact if and only if no piece of the preamble looks inserted and in every hunk the inserted lines are whole and do not begin with `++`, no piece of heading or removed lines looks inserted, and, where something is inserted, those pieces and the no-newline marker leave the number right |
| DiffReader.ExactPlainly | scripts/check-test-shape.py:187-200 | where no piece is itself a hunk header: a hunk is exact if and only if it is faithful, its inserted lines are whole, no piece looks inserted and, where something is inserted, each looks removed or begins with @@ |
| DiffReader.ExactUnbroken | scripts/check-test-shape.py:187-200 | where only inserted lines hold separators: if and only if it is faithful and its inserted lines are whole |
| DiffReader.PhantomLine | scripts/check-test-shape.py:195-197 | a removed line with a form feed in it yields an added line nobody inserted |
| DiffReader.HeadingShiftsNumbers | scripts/check-test-shape.py:198-199 | a heading with a form feed in it numbers what is inserted under it one too high |
| DiffReader.OpenEndShiftsNumbers | scripts/check-test-shape.py:195-199 | a concrete diff whose new lines are numbered one too high |
| Cron.JoinedSplits | frontend/src/lib/cron-utils.ts:21-29 | five fields joined by single spaces split into themselves |
| Cron.SplitsAtAnySpace | frontend/src/lib/cron-utils.ts:21-29 | fields with any white space round and between them are the schedule's fields if they are five, and refused otherwise |
| Cron.TimeOnlyExactly | frontend/src/lib/cron-utils.ts:38-47 | a schedule is a single clock time if and only if it has five fields and neither minute nor hour holds a comma, hyphen, slash or star |
| Cron.SeveralRunsUntouched | frontend/src/lib/cron-utils.ts:76-79 | a schedule with one of those characters in its minute or hour comes back as it was, whatever the time |
| Cron.MalformedSchedule | frontend/src/lib/cron-utils.ts:90-97 | without five fields the picker shows 09:00 and the schedule is not touched |
| Cron.HalfTime | frontend/src/lib/cron-utils.ts:67-70 | a time with nothing before or after its first colon changes nothing |
| Cron.ParsedSigned | frontend/src/lib/cron-utils.ts:71-72 | white space is skipped, a sign taken and the digits read as far as they go |
| Cron.TimeReadsBack | frontend/src/lib/cron-utils.ts:62-102 | for every two-digit time and every single-time schedule, setting the time shows that time again, stays single-time and keeps day, month and weekday |
| Cron.NewDailyTimeReadsBack | frontend/src/lib/cron-utils.ts:62-102 | the same for a new daily schedule |
| Cron.WrittenBack | frontend/src/lib/cron-utils.ts:62-102 | what showing a single-time schedule and saving it unchanged gives: each numeral without leading zeros, 09:00 when either cannot be read |
| Cron.PickerKeepsSchedule | frontend/src/lib/cron-utils.ts:31-47 | showing and saving keeps the schedule if and only if minute and hour are plain numerals |
| Cron.OnlyTheTimeChanges | frontend/src/lib/cron-utils.ts:62-84 | whatever the time string, a given schedule comes back as it was, or is a single-time one changed in minute and hour only |
| RetrievalEval.ValidateQuestionCoverage | scripts/perf/llm_retrieval_eval.py:1143-1169 | accepts if and only if the rows hold each manifest question once; otherwise lists exactly the unknown, repeated and missing ones |
| RetrievalEval.PercentageIffWeightsNonNegative | scripts/perf/llm_retrieval_eval.py:1243-1251 | for weights with a positive sum, every admissible score gives a percentage if and only if no weight is negative |
| RetrievalEval.PctIsWeightedMean | scripts/perf/llm_retrieval_eval.py:1243-1251 | the score is the weighted mean of the dimensions' percentages, two points being 100: the weighted deviations from it, and from nothing else, cancel out |
| RetrievalEval.MeanQualityInRange | scripts/perf/llm_retrieval_eval.py:1208-1218 | with non-negative weights and scores in 0..2 the mean quality lies in 0..100 |
| RetrievalEval.P95Exactly | scripts/perf/llm_retrieval_eval.py:1254-1259 | the percentile is the one sample that at least 95% of samples do not exceed and fewer than 95% lie below |
| RetrievalEval.P95OrderFree | scripts/perf/llm_retrieval_eval.py:1254-1259 | it does not depend on the order of the samples |
| RetrievalEval.CandidateStats.UpdateFromAnswer | scripts/perf/llm_retrieval_eval.py:1182-1205 | one row adds to each counter, to the latencies when it has one, and its weighted score |
| RetrievalEval.CollectCandidateStats | scripts/perf/llm_retrieval_eval.py:1172-1179 | the row loop collects the summary of all rows |
| RetrievalEval.CountersCount | scripts/perf/llm_retrieval_eval.py:1182-1200 | each counter is the number of rows carrying its flag; a candidate is promotable if and only if every row is |
| RetrievalEval.DecisionByRows | scripts/perf/llm_retrieval_eval.py:1226-1240 | rejected exactly for a hidden, fabricated or badly structured row, two empty ones or three on the wrong paper; otherwise deferred, for ineligibility exactly if some row is ineligible |
| RetrievalEval.MeanOfRows | scripts/perf/llm_retrieval_eval.py:1208-1218 | the reported quality is the mean of the rows' scores |
| RetrievalEval.LatenciesCounted | scripts/perf/llm_retrieval_eval.py:1197-1199 | the latencies are those of the rows that have one, as often |
| RetrievalEval.ReportOrderFree | scripts/perf/llm_retrieval_eval.py:1208-1240 | mean quality, percentile and decision do not depend on row order |

## Left out

- Network, database, Qdrant, IndexedDB and HTTP calls, clocks, hashing, grant checks and UUID generation: the step models take their results as parameters.
- Re-embedding: the numbers inside vectors, warm-up, progress output, the benchmark mode, collection creation and dimension changes.
- ReembedRecovery.TwoPassesHeal: asks that joined row ids are positive, which the table's sequence guarantees; the scan starts above id 0.
- ReembedCommand.Command: no other writer changes the stores during the command; writers are in `ReembedLocks`. Whether an error the embedding backend raises is one of the command's own is a parameter of each run.
- ReembedCommand.RepairPapersKeep: databases in which a listed paper remembers another row's canonical id, which no writer in the repository leaves; for undisturbed passes they are covered.
- ReembedLocks.StepKeepsInv: a writer of a paper's rows without its lock, and a lost database session, are not events; what they do to a publication is in `ReembedVerdict`.
- ReembedLocks.PublishesTheLockedRows: the same.
- ReembedLocks.NoStepLosesAMatch: the same.
- ReembedScan.FindPapersNeedingReembed: the stores stand still during the scan; a scan concurrent with writers is not modelled.
- ReviewOutbox.Outbox.EnqueueReview: an identity switch inside one read-filter-write section is not modelled, because that section is one atomic step.
- Outbox transport: JSON encoding and the schema of the sync reply.
- SseFraming.ReadSSEFrames: a consumer that returns before its first demand is not modelled; such a generator never starts and cancels nothing. Multi-line events and other field names of section 9.2 of the HTML standard are not in the source either.
- SseFraming.TypedEvents: JSON parsing and schema validation are one abstract decoder.
- Routing: the `status` command, argument parsing and the snapshot's file format and version check.
- NpmAudit.EvaluateReports: report shapes that make Python raise something other than the policy error (an unhashable severity).
- ImportCoverage.RequiredDistributions: the list of imports of each file is given; the AST visitor, which skips an import placed directly in the else of a TYPE_CHECKING guard, and files that do not parse are not modelled.
- RestoreUploader.StreamBody: fsync is not modelled; a socket timeout is one of the ways a connection breaks.
- RestoreUploader.ResolveFilename: symbolic links in the inbox (the realpath check) and the exact set of Unicode digits.
- StaticSql.ExpressionSound: format and join calls (their exact condition is `CallTakenForPrefix`), user-defined `__add__`, and the SQL relation regular expressions.
- StaticSql.StaticQueryIsExact: a function that rebinds a module name through `global`, and reading a local before it is bound.
- OutboxGap.KeptIffNotInterleaved: storage works and the queue holds only the active user's reviews, so that a call makes one write.
- OutboxGap.UncrossedIsSerial: one way only for drains and purges: a drain that writes over another drain's write brings delivered reviews back instead of losing one.
- TableOwnership.CrossDomainWrites: the relations each query writes are given, not parsed out of SQL.
- DiffReader.AddedLines: choosing between the staged, working-tree and whole-file modes.
- Cron.PickerKeepsSchedule: numerals above 2^53, which JavaScript rounds, are treated exactly.
- cronToHumanReadable: its phrases are not modelled.
- RetrievalEval.P95Exactly: rounding to two digits and floating-point error; arithmetic is over reals.
- RetrievalEval.CandidateStats.UpdateFromAnswer: the text tests behind each flag and the grounding score, a second mean of the same kind.
