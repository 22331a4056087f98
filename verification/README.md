# Enfold: leased queues, merging, spans, packing and the daemon connection, in Dafny

Enfold is a local SQLite memory store. Agents write facts into it; a queue of transcripts is turned
into facts by leased extraction workers; an outbox of embedding jobs keeps every active fact covered
by a vector; near-duplicate facts are merged; and facts are packed into a prompt under a token
budget. This project models those parts and proves what they are for: exactly-once effects under any
interleaving of workers, crashes and expired leases; coverage that is never lost; merges that
conserve; cuts, packs and scans that are exact.

Every committed transaction (or single committed UPDATE) is one atomic step. Tables are maps, the
clock is a number that never runs back, lease tokens are fresh. A worker may use every handle it was
ever given, in any order and at any later time, so a run covers every interleaving, every crash (a
handle never used again) and every expiry. Each transaction is a function on the table, an
imperative method of a class is proved to compute it in place, and the protocol modules prove what
every step and every run of those functions keeps.

| module | of |
|---|---|
| `ExtractionProcessor`, `ExtractionProtocol`, `RetryBound` | the extraction worker, any number of them over one queue, and how often a row can be claimed |
| `EmbeddingJobs`, `EmbeddingProtocol` | the embedding outbox, its workers beside arbitrary fact traffic, and the erasure fence |
| `ExtractQueue` | the legacy extraction queue: idempotent enqueue, deadline-fenced claims, revival, hash migration |
| `UnionFind`, `Components`, `ClusterBuild`, `ClusterPlan`, `ClusterTags`, `ClusterApply`, `ClusterCitations`, `ClusterResults` | near-duplicate clustering and merging, from the pair test to the conserved totals and the citations |
| `ExtractionSpans` | exact spans of texts and role-structured transcripts |
| `Context`, `ContextPack` | truncation, ranking and packing under a token budget |
| `Daemon` | one connection: frame reassembly, handshake, dispatch |
| `JsonArray` | the scanner that finds the first JSON array in a model's answer |
| `AnchorFilter`, `EntityExpansion` | the fail-closed anchor filter and the two-hop entity walk of hybrid retrieval |
| `Prelude` | nullable columns, least elements, filters, powers of two, whitespace |

## Findings

Where the code does not meet what it is for, the model follows the code and the exact condition is proved.

- A refused request takes down every request behind it. A batch stops at its first refused request
  (`enfold/write_service.py:835-837`), its outcomes are zipped with the pending requests
  (`enfold/extraction_processor.py:364-373`), and the shorter list wins. So the acceptable requests
  behind a refused one are dropped and the row is deleted all the same, although the test at
  `tests/test_extraction_processor.py:1340` is named after the promise that a rejected write does not
  cost the rest of the batch (it puts the rejected write last). `WritesAllAcceptableIff`: all
  acceptable requests are written if and only if none of them stands behind a refused one;
  `AcceptableRequestIsDropped` is the smallest loss.
- The 48-hour cap on rate-limit retries reads the creation stamp, and a stamp that is there but that
  SQLite cannot parse turns the cap off (`enfold/extraction_processor.py:564-569`). A stamp that is
  NULL or blank does not: the worker reads it first and fails the row for good
  (`enfold/extraction_processor.py:716-732`). `BoundedIffNotUnparsable`: the number of claims is
  bounded if and only if the stamp is missing or can be parsed, by `max_attempts` and by
  `max_attempts + 2880`.
- A privacy erasure takes the text and the snapshot out of the linked queue rows and leaves their
  leases (`enfold/erasure.py:246-286`). `ErasedRowStillWritesIff`: the facts of such a row can still be
  written afterwards if and only if a worker that had claimed the row with its text was holding it at
  that moment.
- The deadline fence of the legacy queue fails before the deadline. `OldHandleActsIffReissued`: a
  handle that was given up acts again if and only if a later claim hands out the same row to the same
  owner with the same deadline; `SameDeadlineAliases` is the family of such runs. Once its deadline has
  passed a handle that is not current is inert for ever (`ExpiredHandleIsInert`).
- The hash migration skips the later active copies of a payload and leaves what hash they have
  (`enfold/extract_queue.py:191-194`). `MigrationEstablishesUniqueIff`: from any table, the active
  hashes are unique afterwards if and only if no skipped row keeps a hash that is the digest of an
  active row's text or that another skipped row keeps too. A column just added is NULL throughout and
  always migrates; two copies of which the later is already hashed never do
  (`HashedCopyBlocksMigration`); a later copy hashed as a role-structured payload does no harm
  (`RoleStructuredCopyMigrates`).
- A merge plans the survivors' tags before it rewrites any citation, writes them over what earlier
  clusters rewrote (`enfold/cluster_merge.py:732-744`), and rewrites active insights only
  (`enfold/cluster_merge.py:809-823`). Call the tags planned for a fact if it survives a cluster, and
  its own otherwise, its source tags. `FactKeptIff`: a fact that is left cites existing facts only if
  and only if its source tags name facts that were there and, in an active insight, no loser of a
  cluster before its own, in any other fact no loser of any cluster. `CitationsKeptIff` says so of the
  whole store. The clusters, their order and the plan are determined by the inputs (`PlanIsUnique`), so
  the condition can be read off the store before the merge. `RewrittenCitationIsLost` and
  `OtherCitationIsLost` are the smallest losses of the two kinds.
- Three branches never run: the `"\n\n"` separator inside a block (`NoBlankLineInsideBlock`), the
  empty-cut fallback of the span loop (`CutOne`), and the defensive over-budget branch of the packing
  loop (`LineFits`). The safety filter of the merge plan removes nobody (`PlanKeepsCluster`).

## Model

| member | source | states |
|---|---|---|
| `ExtractionProcessor.ExtractionProcessor.ClaimDue` | enfold/extraction_processor.py:440-498 | Sweeps expired rows without attempts left to the dead letters, then leases the oldest claimable row with a fresh token and one more attempt, or changes nothing else. |
| `ExtractionProcessor.ClaimTakesOldestWaiting` | enfold/extraction_processor.py:454-493 | A claim takes the oldest row that has attempts left, whose time has come and that is pending or whose lease ran out, and returns nothing exactly when there is none; every column of the leased row. |
| `ExtractionProcessor.SweepBuriesSpentLeases` | enfold/extraction_processor.py:444-453 | The sweep buries exactly the processing rows whose lease ran out on their last attempt, and says so in them. |
| `ExtractionProcessor.ExtractionProcessor.Renew` | enfold/extraction_processor.py:520-541 | Extends the lease exactly when this worker's token is the row's and has not expired. |
| `ExtractionProcessor.ExtractionProcessor.Fail` | enfold/extraction_processor.py:543-614 | Records the failure exactly when the lease is held; a lost lease changes nothing. Column by column: the row is dead if and only if the failure is permanent, the recorded attempts reach the maximum, or an attempt-free failure meets a stamp 48 hours old; else it is pending for the least delay that is long enough. |
| `ExtractionProcessor.FailureIsRecorded` | enfold/extraction_processor.py:543-607 | The same of the recorded row: long enough is the doubling backoff up to five minutes, a minute for an attempt-free failure, and what the provider asks for up to an hour. |
| `Prelude.PowersMultiply` | enfold/extraction_processor.py:571-574 | What the doubling is: powers of two begin at 1 and 2 and multiply. |
| `ExtractionProcessor.ExtractionProcessor.PersistSnapshot` | enfold/extraction_processor.py:734-760 | Write-once: stores the proposals exactly when the lease is held and no snapshot is there. |
| `ExtractionProcessor.ExtractionProcessor.Propose` | enfold/extraction_processor.py:318-336 | A missing stamp, an undecodable payload or a broken snapshot fails for good; a stored snapshot is replayed; else the model is asked and its proposals are stored first. |
| `ExtractionProcessor.ExtractionProcessor.WriteBatches` | enfold/extraction_processor.py:350-378 | The retry loop ends, for every policy as its tries determine: it fails, with the failure, exactly when some try raises; else it finishes exactly when the lease is held, deleting the row in the step that writes the prefix that the last try accepts; otherwise queue and memory are untouched. |
| `ExtractionProcessor.StableTries` | enfold/extraction_processor.py:350-378 | Under an unwavering policy the prefix written ends before the first refused request, and the loop fails exactly when the first request not accepted raises. |
| `ExtractionProcessor.ExtractionProcessor.ProcessOne` | enfold/extraction_processor.py:310-403 | One job from claim to settlement, down to every column: done and deleted with exactly the prefix that its tries accept written, or not done with nothing written, its snapshot kept and the failure recorded, with the attempts spent and whether it is dead, whether the stamp, the payload, the model, the snapshot or a write caused it; no other row touched beyond the claim's sweep. |
| `ExtractionProcessor.BatchOutcomes` | enfold/write_service.py:826-837 | A batch judges requests in order, each after the writes before it, and stops at the first it refuses. |
| `ExtractionProcessor.SurvivorsArePrefix` | enfold/extraction_processor.py:364-373 | After a refused try exactly the requests before the refused one are tried again. |
| `ExtractionProcessor.AcceptedPrefixIsFirstRefused` | enfold/extraction_processor.py:350-374 | What is written ends right before the first refused request. |
| `ExtractionProcessor.WritesAllAcceptableIff` | enfold/extraction_processor.py:364-373 | The requests written are all the acceptable ones if and only if none stands behind a refused one. |
| `ExtractionProcessor.AcceptableRequestIsDropped` | tests/test_extraction_processor.py:1340-1371 | With the refused request first, the acceptable second one is lost. |
| `ExtractionProcessor.ClaimHolds` | enfold/extraction_processor.py:469-493 | A fresh claim holds its row and changes neither payload nor snapshot. |
| `ExtractionProcessor.ErasureKeepsLease` | enfold/erasure.py:264-286 | Of a linked row an erasure keeps status, attempts, times and lease, and nothing else; every other row stays. |
| `ExtractionProtocol.ClaimEffect` | enfold/extraction_processor.py:440-498 | What a claim can do to any one row: nothing, bury it, or lease it. |
| `ExtractionProtocol.StepKeepsInv` | enfold/extraction_processor.py:440-614 | Every step of any worker, and every erasure, keeps: status and lease columns agree, attempts within bounds, one handle per live lease, and what was read under a current lease is still true unless it was erased. |
| `ExtractionProtocol.RunKeepsInv` | enfold/extraction_processor.py:440-614 | The same over every run. |
| `ExtractionProtocol.FactsWrittenAtMostOnce` | enfold/extraction_processor.py:350-361 | Over every run one row's facts are committed at most once, in the step that deletes the row, and never after. |
| `ExtractionProtocol.HolderIsUnique` | enfold/extraction_processor.py:511-518 | Two workers never both hold a row. |
| `ExtractionProtocol.StepKeepsStale` | enfold/extraction_processor.py:511-541 | A step keeps a replaced token replaced, and the replaced worker's own step changes nothing. |
| `ExtractionProtocol.StaleWorkerIsFenced` | enfold/extraction_processor.py:504-614 | Once its token is not the row's, no later step of that worker, after any run, changes anything or writes a fact. |
| `ExtractionProtocol.ReclaimMakesStale` | enfold/extraction_processor.py:469-488 | Reclaiming a row makes every older handle on it stale. |
| `ExtractionProtocol.StepKeepsSnapshot` | enfold/extraction_processor.py:734-760 | No step but a credential rejection or an erasure changes a stored snapshot; a commit uses it. |
| `ExtractionProtocol.CommitReplaysSnapshot` | enfold/extraction_processor.py:681-714 | Whatever crashes and reclaims follow the first persist, a later commit writes that snapshot and no other, unless it was scrubbed or erased in between. |
| `ExtractionProtocol.WriterWasInFlight` | enfold/erasure.py:246-286 | Whoever writes facts of an erased row had claimed it before the erasure and was holding it then. |
| `ExtractionProtocol.InFlightStillWrites` | enfold/erasure.py:270-286 | A worker that holds the row with its text at the erasure can store what that text yields and commit it. |
| `ExtractionProtocol.ErasedRowStillWritesIff` | enfold/erasure.py:246-286 | Facts of an erased row can still be written if and only if such a worker holds it at the erasure. |
| `ExtractionProtocol.LiveRowBecomesDue` | enfold/extraction_processor.py:444-466 | In every reachable state a row that is not dead, once its times have passed, waits for a worker or is held by nobody without an attempt left. |
| `ExtractionProtocol.WaitingRowIsServed` | enfold/extraction_processor.py:454-466 | As many claims at one moment as rows wait serve every one of them. |
| `ExtractionProtocol.LiveRowIsServed` | enfold/extraction_processor.py:440-498 | In every reachable state a row that is not dead and whose times have passed, a crashed worker's included, is taken or buried by any as many claims as there are rows. |
| `ExtractionProtocol.UndisturbedWorkerCommits` | enfold/extraction_processor.py:318-361 | A worker that holds a readable row without a snapshot stores its proposals, commits their facts once and the row is gone. |
| `ExtractionProtocol.UndisturbedWorkerReplays` | enfold/extraction_processor.py:681-714 | A worker that holds a row with a snapshot commits that snapshot. |
| `ExtractionProtocol.OtherStepsWork` | enfold/extraction_processor.py:500-541 | An unexpired lease can be renewed and an expired one cannot; a job without requests is deleted; an erasure is possible at any time. |
| `RetryBound.RetryDelayBounds` | enfold/extraction_processor.py:571-586 | A retry delay is never negative and after an attempt-free failure at least 60 seconds. |
| `RetryBound.SpacedBoundsRefunds` | enfold/extraction_processor.py:62-65 | Refunds a minute apart within 48 hours are at most 2880. |
| `RetryBound.StepKeepsHistory` | enfold/extraction_processor.py:553-611 | Every step keeps claims == attempts + refunds, the spacing of refunds, and no refund for a row without a stamp. |
| `RetryBound.ClaimsAreBounded` | enfold/extraction_processor.py:553-611 | Over every run a row is claimed at most max_attempts + 2880 times with a readable stamp and at most max_attempts times without a stamp. |
| `RetryBound.RateLimitCycle` | enfold/extraction_processor.py:553-600 | With an unparsable stamp, claim, rate limit and wait leave the row as ready as before. |
| `RetryBound.UnparsableStampIsUnbounded` | enfold/extraction_processor.py:564-569 | For every n some run claims a row with an unparsable stamp n times. |
| `RetryBound.BoundedIffNotUnparsable` | enfold/extraction_processor.py:564-569 | The claims of an envelope are bounded if and only if its stamp is missing or can be parsed. |
| `EmbeddingJobs.EmbeddingOutbox.EnqueueInTransaction` | enfold/embedding_jobs.py:93-135 | Inserts a job, or restarts a completed one whose vector is missing; a missing fact is an error and changes nothing. |
| `EmbeddingJobs.QueueMissing` | enfold/embedding_jobs.py:145-185 | The loop queues exactly the active facts without a vector, numbers new jobs in the order of their facts and counts what it changed; live jobs and dead letters stay as they were. |
| `EmbeddingJobs.EmbeddingOutbox.EnqueueBackfill` | enfold/embedding_jobs.py:137-191 | The same as one transaction on the store. |
| `EmbeddingJobs.BackfillCovers` | enfold/embedding_jobs.py:137-191 | After a backfill every active fact is covered, from whatever state, and dead letters are not revived. |
| `EmbeddingJobs.EmbeddingOutbox.ReportHealth` | enfold/embedding_jobs.py:193-241 | The counts are those of the jobs by status and of the active facts without vector or viable job; activation is reported safe if and only if no job is dead and every active fact has a vector or a viable job. |
| `EmbeddingJobs.OldestDue` | enfold/embedding_jobs.py:304-322 | The claimable job with the smallest id, or none if none is claimable. |
| `EmbeddingJobs.ClaimTakesOldestWaiting` | enfold/embedding_jobs.py:282-347 | A claim takes the job with the least id of those with attempts left that are pending and due or whose lease ran out, and none exactly when there is none; spent jobs nobody holds go to the dead letters; all else stays. |
| `EmbeddingJobs.EmbeddingJobProcessor.ClaimJob` | enfold/embedding_jobs.py:275-347 | The same of the store: buries spent jobs, pending ones included, then leases the oldest one that waits, an expired lease's included. |
| `EmbeddingJobs.EmbeddingJobProcessor.SettleInactive` | enfold/embedding_jobs.py:372-414 | Skips an inactive fact, or requeues it with its new digest if it became active; acts only under its lease. |
| `EmbeddingJobs.EmbeddingJobProcessor.CommitPrepared` | enfold/embedding_jobs.py:416-484 | Rechecks lease, activity and digest after the model call; stores the vector only if all three hold. |
| `EmbeddingJobs.EmbeddingJobProcessor.Fail` | enfold/embedding_jobs.py:505-529 | Backs off, or dead-letters on the last attempt; acts only under its lease. |
| `EmbeddingJobs.EmbeddingJobProcessor.ProcessOne` | enfold/embedding_jobs.py:349-370 | One job, down to its digest, attempts and next time: the embedding of the current content, a retry, a dead letter, or a skip, and it says which; nothing else touched beyond the claim's sweep. |
| `EmbeddingJobs.EraseFact` | enfold/erasure.py:192-232 | Scrubs and invalidates the fact, drops its vector and fences its job in one transaction. |
| `EmbeddingProtocol.ClaimEffect` | enfold/embedding_jobs.py:275-347 | What a claim can do to any one job: nothing, dead-letter it, or lease it. |
| `EmbeddingProtocol.StepKeepsInv` | enfold/embedding_jobs.py:93-529 | Every step of workers, fact traffic, backfill and erasure keeps coverage, fresh tokens, honest prepared vectors and erased facts without vectors. |
| `EmbeddingProtocol.RunKeepsInv` | enfold/embedding_jobs.py:93-529 | The same over every run. |
| `EmbeddingProtocol.ActiveFactsStayCovered` | enfold/embedding_jobs.py:372-484 | In every reachable state each active fact has a vector, a viable job or a dead letter. |
| `EmbeddingProtocol.OnlyDeadLettersBlockActivation` | enfold/embedding_jobs.py:213-240 | In every reachable state activation is safe if and only if no job is dead. |
| `EmbeddingProtocol.LeasesAlwaysEnd` | enfold/embedding_jobs.py:327-341 | Over every run every lease has an end. |
| `EmbeddingProtocol.WaitingJobIsServed` | enfold/embedding_jobs.py:304-322 | As many claims at one moment as jobs wait serve every one of them. |
| `EmbeddingProtocol.LiveJobIsServed` | enfold/embedding_jobs.py:275-347 | In every reachable state a job that is neither completed nor dead and whose time has come, a crashed worker's included, is taken or buried by any as many claims as there are jobs. |
| `EmbeddingProtocol.ClaimHandsOut` | enfold/embedding_jobs.py:327-347 | A claim hands its worker the lease of a job that waits whenever one does. |
| `EmbeddingProtocol.UndisturbedWorkerEmbeds` | enfold/embedding_jobs.py:349-370 | A worker that holds the job of an active fact stores the embedding of its content and completes the job, and changes nothing else. |
| `EmbeddingProtocol.UndisturbedWorkerSettles` | enfold/embedding_jobs.py:372-529 | A worker whose fact is inactive completes the job; one whose model call fails puts it off by the doubling delay up to 300 seconds, or buries it. |
| `EmbeddingProtocol.FactTrafficDoes` | enfold/embedding_jobs.py:93-135 | A fact that becomes active has a job; a removed one leaves no row; no other fact's job changes. |
| `EmbeddingProtocol.StoredVectorIsCurrent` | enfold/embedding_jobs.py:416-484 | With an injective digest, a vector is stored only by a commit, only for an active fact, and is the embedding of the content it has in that transaction. |
| `EmbeddingProtocol.VectorsStayCurrent` | enfold/embedding_jobs.py:416-484 | With an injective digest, over every run in which no writer changes the content of a fact that has a vector, every stored vector stays the embedding of its fact's content. |
| `EmbeddingProtocol.FencedWorkerIsInert` | enfold/embedding_jobs.py:372-529 | A worker whose claim was settled, replaced or erased never changes a table again. |
| `EmbeddingProtocol.EraseFencesClaims` | enfold/erasure.py:221-232 | Erasing a fact fences every claim in flight on it. |
| `EmbeddingProtocol.ErasedFactHasNoVector` | enfold/erasure.py:192-232 | After an erasure no run of any workers stores a vector for that fact again. |
| `ExtractQueue.ExtractQueue.EnqueuePayload` | enfold/extract_queue.py:275-305 | Returns the oldest active row that holds the payload, by hash or by text where the hash is NULL, or inserts a row if and only if there is none; enqueueing again would return the same row; active hashes stay unique. |
| `ExtractQueue.ExtractQueue.NextPending` | enfold/extract_queue.py:635-702 | Leases the oldest row not excluded that has attempts left, whose time has come and that nobody holds, and returns none exactly when there is none; the handle returned is current and no other handle of that row with a deadline is; no attempt is spent. |
| `ExtractQueue.ExtractQueue.Complete` | enfold/extract_queue.py:307-324 | Deletes the row for good exactly when the handle is current. |
| `ExtractQueue.ExtractQueue.Save` | enfold/extract_queue.py:326-361 | The first snapshot stays; acts exactly when the handle is current, and leaves it current. |
| `ExtractQueue.ExtractQueue.Fail` | enfold/extract_queue.py:363-424 | Spends an attempt, buries the row at the cap or past 48 hours, and gives the handle up; zero and no change when the handle is not current. |
| `ExtractQueue.ExtractQueue.FailOnQuota` | enfold/extract_queue.py:426-505 | Reschedules without spending an attempt, so that no claim comes before the given time, or buries past 48 hours; says which. |
| `ExtractQueue.ExtractQueue.Release` | enfold/extract_queue.py:507-531 | Returns the row to pending with its attempts exactly when the handle is current, and gives the handle up. |
| `ExtractQueue.ExtractQueue.ReviveDead` | enfold/extract_queue.py:533-581 | Revives the unhashed dead rows and the oldest dead row of each hash without an active copy, all or those listed, and counts them; a bulk revival leaves dead only rows whose hash is active. |
| `ExtractQueue.RevivalReturns` | enfold/extract_queue.py:533-581 | A revived row is dead, listed, and unhashed or the oldest dead one of a hash without an active row; it is pending with all attempts again, and no other row changes. |
| `ExtractQueue.ReviveKeepsUnique` | enfold/extract_queue.py:542-563 | Bulk or selective revival never makes two rows of one hash active. |
| `ExtractQueue.StepKeepsUnique` | enfold/extract_queue.py:255-702 | Every operation keeps at most one active row per hash. |
| `ExtractQueue.ActiveHashesStayUnique` | enfold/extract_queue.py:199-205 | The same over every run. |
| `ExtractQueue.EnqueueIsIdempotent` | enfold/extract_queue.py:276-285 | Enqueueing again returns the same active row and changes nothing. |
| `ExtractQueue.CurrentAgainIffGranted` | enfold/extract_queue.py:219-232 | A handle that is not current becomes so by a claim that hands it out again, and by nothing else. |
| `ExtractQueue.OldHandleActsIffReissued` | enfold/extract_queue.py:307-531 | Over every run an old handle acts again if and only if some claim hands out the same row, owner and deadline. |
| `ExtractQueue.UnissuedHandleIsInert` | enfold/extract_queue.py:307-531 | Until it is handed out again, an old handle completes, fails, reschedules, releases and saves nothing. |
| `ExtractQueue.GivingUpUnfences` | enfold/extract_queue.py:307-531 | Completing, failing, rescheduling or releasing gives the handle up. |
| `ExtractQueue.ReclaimUnfences` | enfold/extract_queue.py:77-83 | Reclaiming a held row, even for the same owner, comes after the old deadline and takes the row from the old handle. |
| `ExtractQueue.ExpiredIsNeverReissued` | enfold/extract_queue.py:635-650 | With positive leases and a clock that does not run back, a deadline that has passed is never handed out again. |
| `ExtractQueue.ExpiredHandleIsInert` | enfold/extract_queue.py:307-531 | Once its deadline has passed, a handle that is not current does nothing ever again. |
| `ExtractQueue.SameDeadlineAliases` | enfold/extract_queue.py:219-232 | Every release and reclaim by one owner whose leases end at the same moment makes the old handle complete the new claim. |
| `ExtractQueue.MigrateHashes` | enfold/extract_queue.py:184-198 | The loop skips exactly the later active copies of a payload and hashes every other row. |
| `ExtractQueue.OldestCopyIsHashed` | enfold/extract_queue.py:172-174 | The oldest active copy of every payload is hashed. |
| `ExtractQueue.MigrationEstablishesUniqueIff` | enfold/extract_queue.py:184-205 | From any table the migrated active hashes are unique if and only if no later active copy keeps a hash that clashes. |
| `ExtractQueue.FreshColumnMigrates` | enfold/extract_queue.py:172-205 | From a hash column that is NULL throughout they are unique. |
| `ExtractQueue.HashedCopyBlocksMigration` | enfold/extract_queue.py:191-194 | Two active copies of which the later is already hashed end with the same hash. |
| `ExtractQueue.RoleStructuredCopyMigrates` | enfold/extract_queue.py:207-210 | A later copy hashed as a role-structured payload keeps its hash without harm. |
| `UnionFind.UnionFind.Find` | enfold/cluster_merge.py:218-224 | Terminates, returns the root, to which the element points afterwards, and path compression changes no element's root. |
| `UnionFind.UnionFind.Union` | enfold/cluster_merge.py:226-229 | Joins the two classes and leaves every other as it was. |
| `UnionFind.RepIsTheRoot` | enfold/cluster_merge.py:218-221 | The one fixed point that the pointers of an element lead to is its representative. |
| `UnionFind.SameRepSameRoots` | enfold/cluster_merge.py:222-223 | Two parent tables with the same representatives have the same roots. |
| `UnionFind.CompressKeepsForest` | enfold/cluster_merge.py:222-223 | Pointing an element at its root keeps the forest and every representative. |
| `UnionFind.LinkKeepsForest` | enfold/cluster_merge.py:228-229 | Hanging one root under another keeps the forest and joins exactly their classes. |
| `ClusterBuild.SafeIffAgree` | enfold/cluster_merge.py:95-130 | The safety test passes if and only if both texts hold a negation word or neither does, the tokens with a digit and the date words agree place by place, and each state word is asserted in both or in neither, a bare on or off behind a lifecycle verb only. |
| `ClusterBuild.ComponentIsPairwiseSafe` | enfold/cluster_merge.py:258-277 | All members of a component agree in that sense and are in one scope, though similarity is not transitive. |
| `ClusterBuild.MirrorsIsExact` | enfold/cluster_merge.py:258-277 | Same representative if and only if connected. |
| `ClusterBuild.JoinMirrors` | enfold/cluster_merge.py:226-229 | Joining the classes of an edge's ends keeps representatives equal to connectivity. |
| `ClusterBuild.UniteLinked` | enfold/cluster_merge.py:258-277 | After the pairwise loop the representatives mirror the graph of same-scope, similar, safe pairs. |
| `ClusterBuild.GroupByRoot` | enfold/cluster_merge.py:279-281 | The dictionary groups are exactly the classes, in the order in which their first members stand in the ids. |
| `ClusterBuild.KeepLarge` | enfold/cluster_merge.py:283 | Keeps exactly the groups of two or more, in order. |
| `ClusterBuild.BuildClusters` | enfold/cluster_merge.py:232-283 | Returns exactly the connected components of size two or more of the same-scope, similar pairs whose texts agree, disjoint, each complete and in the order of the ids, and the components in the order of their first members; any two members of a cluster agree. |
| `ClusterBuild.ClusteringIsUnique` | enfold/cluster_merge.py:232-283 | The ids and the graph have exactly one such clustering. |
| `ClusterPlan.Best` | enfold/cluster_merge.py:414-420 | The first id that no other beats by score, then by age. |
| `ClusterPlan.PoolIsUsable` | enfold/cluster_merge.py:398-404 | The facts to choose a survivor from are those neither invalid nor legacy, in order, if there are any. |
| `ClusterPlan.PoolIsAll` | enfold/cluster_merge.py:398-404 | Otherwise they are all of them. |
| `ClusterPlan.SurvivorOfPool` | enfold/cluster_merge.py:388-422 | Among those the survivor predates the flood if any does, is unbeaten on its side of the cutoff and the first such, and the losers are all the others. |
| `ClusterPlan.SurvivorOfActive` | enfold/cluster_merge.py:388-422 | Among active facts the survivor predates the flood if any does, is unbeaten on its side of the cutoff and the first such in the list, and the losers are all the others. |
| `ClusterPlan.SurvivorIsUnique` | enfold/cluster_merge.py:388-422 | Only one fact of a cluster is such a survivor, ties of score and stamp included. |
| `ClusterPlan.SurvivorRanksFirst` | enfold/cluster_merge.py:414-420 | On the survivor's side of the cutoff no fact has a greater product of trust and retrievals; one with the same is no older, and if it is as old it stands behind. |
| `ClusterPlan.PlanKeepsCluster` | enfold/cluster_merge.py:483-494 | The safety filter removes nobody, the second survivor choice equals the first, and the counts are sums over the whole cluster. |
| `ClusterPlan.SumSplits` | enfold/cluster_merge.py:495-496 | A cluster's sum is the survivor's count plus the losers'. |
| `ClusterPlan.ClusterIsPlanned` | enfold/cluster_merge.py:482-507 | Every cluster gets a merge that names exactly its members, keeps the one right survivor and adds up. |
| `ClusterPlan.PlanMerge` | enfold/cluster_merge.py:465-508 | The clusters are the clustering of the store, and each has one merge, at its place, none trimmed or skipped, with the right survivor; the merges are disjoint and ready to apply; no two members of a cluster differ in negation, values or states. |
| `ClusterPlan.PlanIsUnique` | enfold/cluster_merge.py:465-508 | The facts, the listed ids, the similarity and the cutoff have exactly one such clustering and plan. |
| `ClusterTags.RewrittenCites` | enfold/cluster_merge.py:806-839 | Rewritten tags cite the survivor where they cited the loser, and otherwise exactly what they cited, though ids a list already has are left out. |
| `ClusterTags.MergedKeepsTags` | enfold/cluster_merge.py:455-462 | Merged tags are exactly the tags of the members, each once. |
| `ClusterApply.Merger.MergeLoser` | enfold/cluster_merge.py:777-839 | Redirects, moves or deletes every row that names the loser, rewrites it in the tags of active insights, and deletes it. |
| `ClusterApply.LinksStep` | enfold/cluster_merge.py:794-803 | Moving a loser's keyed rows keeps the table the image of the original; a survivor's own row wins. |
| `ClusterApply.ImageStep` | enfold/cluster_merge.py:744-747 | Removing one more loser keeps all tables the image of the original under loser-to-survivor. |
| `ClusterApply.Merger.ApplyMerge` | enfold/cluster_merge.py:730-747 | Every table ends as the image of the original under loser-to-survivor; what every fact's tags cite is what overwriting them with the planned tags and rewriting them, cluster by cluster, gives. |
| `ClusterApply.ResentOneMore` | enfold/cluster_merge.py:825-832 | Renaming the losers one at a time replaces them all by the survivor. |
| `ClusterCitations.InsightTagsFollow` | enfold/cluster_merge.py:732-747 | After any number of clusters an active insight cites facts that are there if and only if its own tags did, or those planned for it when its cluster's turn came. |
| `ClusterCitations.OtherTagsStay` | enfold/cluster_merge.py:806-823 | Any other fact cites what its own tags cited, or those planned for it: nothing is rewritten in it. |
| `ClusterCitations.FactKeptIff` | enfold/cluster_merge.py:732-839 | A fact that is left cites existing facts only if and only if its source tags name existing facts and, in an active insight, no loser of a cluster before its own, in any other fact no loser of any cluster. |
| `ClusterCitations.CitationsKeptIff` | enfold/cluster_merge.py:732-744 | After a merge no fact at all cites a missing fact if and only if that holds for the source tags of every fact that is left. |
| `ClusterCitations.RewrittenCitationIsLost` | enfold/cluster_merge.py:732-744 | Two clusters suffice to leave an active insight citing a deleted fact. |
| `ClusterCitations.OtherCitationIsLost` | enfold/cluster_merge.py:809-823 | One cluster suffices to leave an inactive insight citing a deleted fact. |
| `ClusterResults.MergeConservesCounts` | enfold/cluster_merge.py:733-742 | The totals of retrieval_count and helpful_count over the whole table are conserved. |
| `ClusterResults.MergeDropsExactlyLosers` | enfold/cluster_merge.py:446-452 | Exactly the losers leave the active set; the final active count is the projected one. |
| `ClusterResults.NoOrphansIff` | enfold/cluster_merge.py:842-874 | The check for orphans passes if and only if every fact that some row names is there. |
| `ClusterResults.AdmitIff` | enfold/cluster_merge.py:678-692 | The guard rails: the drop count neither below nor above its band, and of a store with active facts no greater part than allowed. |
| `ClusterResults.ActiveSetIs` | enfold/cluster_merge.py:354-367 | The facts counted are those that are not invalid, superseded, in conflict or legacy. |
| `ClusterResults.MergeLeavesNoOrphan` | enfold/cluster_merge.py:750-803 | If no row named a missing fact before, none does after. |
| `ClusterResults.MergeKeepsAcyclic` | enfold/cluster_merge.py:784-789 | superseded_by stays acyclic. |
| `ClusterResults.ExecuteMerge` | enfold/cluster_merge.py:660-728 | A dry run and a refusal change nothing; without orphans before, a merge is executed if and only if it is no dry run, the guards admit its drop count and the integrity checks pass; then the one clustering and the one plan of the store are carried out, whose clusters agree, and all of the above holds between the store before and after, the citation condition included. |
| `ExtractionSpans.SearchBlankLine` | enfold/extraction_spans.py:13 | The leftmost blank line at or after a position, or none. |
| `ExtractionSpans.BlankLineIff` | enfold/extraction_spans.py:13 | The scan finds exactly what the pattern matches: two newlines, each with or without a carriage return, and only spaces and tabs between. |
| `ExtractionSpans.FirstBoundary` | enfold/extraction_spans.py:59-62 | The last occurrence of the most preferred separator that occurs. |
| `ExtractionSpans.PreferredEndIs` | enfold/extraction_spans.py:46-63 | The end of the block if in reach; else behind the last occurrence, at least 64 characters in, of the most preferred separator that occurs there; else as far as one may go. |
| `ExtractionSpans.PreferredEndIsReadable` | enfold/extraction_spans.py:51-63 | A cut short of the hard end is more than 64 characters in and behind a line or a sentence. |
| `ExtractionSpans.NoBlankLineInsideBlock` | enfold/extraction_spans.py:59-62 | The blank-line separator never matches inside a block. |
| `ExtractionSpans.CutOne` | enfold/extraction_spans.py:176-197 | One cut appends one span, moves on, and never needs the fallback for an empty cut. |
| `ExtractionSpans.CutNextBlock` | enfold/extraction_spans.py:171-198 | Cuts one whole block and moves past its blank line. |
| `ExtractionSpans.TextSpans` | enfold/extraction_spans.py:154-199 | Terminates with ordered, disjoint, bounded, exact spans that begin and end on non-blanks, cover every non-blank, and end where their paragraph's preferred end says. |
| `ExtractionSpans.CoveredOnce` | enfold/extraction_spans.py:166-198 | Every non-blank character is in exactly one span. |
| `ExtractionSpans.CutIsUnique` | enfold/extraction_spans.py:154-199 | A text has exactly one such cut, so that description determines the result. |
| `ExtractionSpans.ShortParagraphIsWhole` | enfold/extraction_spans.py:177-180 | The rest of a paragraph that fits is never split. |
| `ExtractionSpans.JoinHoldsTurn` | enfold/extraction_spans.py:139 | Each turn stands at its offset in the joined transcript. |
| `ExtractionSpans.Padded` | enfold/extraction_spans.py:36 | The digits with zeros in front up to six characters. |
| `ExtractionSpans.TranscriptSpans` | enfold/extraction_spans.py:66-121 | Accepts exactly the valid turns; every span is the slice of the joined transcript at its offsets, inside one turn, with its role; the spans are the turns' cuts one after the other. |
| `ExtractionSpans.SpanIdInjective` | enfold/extraction_spans.py:36 | Different offsets give different ids, also beyond six digits. |
| `ExtractionSpans.SpanIdsDistinct` | enfold/extraction_spans.py:184-193 | The ids of a transcript's spans are pairwise distinct. |
| `Context.EstimateTokens` | enfold/context.py:31-41 | Four characters to a token, rounded up. |
| `Context.EstimateIsSubadditive` | enfold/context.py:31-41 | Splitting a text never lowers its estimate. |
| `Context.TrimmedPrefixIsMonotone` | enfold/context.py:250-257 | The trimmed length is monotone in the cut point. |
| `Context.SearchCut` | enfold/context.py:248-258 | The binary search finds the longest right-trimmed prefix with an ellipsis that fits. |
| `Context.TruncateToBudget` | enfold/context.py:238-258 | The whole text if it fits, else the longest truncation that does; never over budget. |
| `Context.TruncateToChars` | enfold/context.py:261-265 | Within the maximum, and truncated exactly when the text is longer. |
| `Context.Redundancy` | enfold/context.py:130 | The greatest similarity to a chosen fact, zero when there is none. |
| `Context.ObjectiveIsWorth` | enfold/context.py:124-131 | The objective lies between score and novelty as lambda says. |
| `Context.MmrPick` | enfold/context.py:115-135 | Distinct facts, each unbeaten among those left when it was picked. |
| `Context.ReviewedFirstIsPermutation` | enfold/context.py:191-196 | The reordering loses and invents nothing. |
| `Context.ReviewedLeadIff` | enfold/context.py:191-196 | The reordering is the one in which reviewed facts only stand before a reviewed one and facts of the same standing keep their order. |
| `Context.SelectionIsUnique` | enfold/context.py:115-135 | The greedy selection is determined. |
| `Context.RankFacts` | enfold/context.py:366-368 | All facts, or the greedy selection of max_facts of them, the reviewed ones first and otherwise in the order of the selection. |
| `Context.ReceiptOf` | enfold/context.py:268-301 | A receipt exactly when the row names a conflict, by its group or else by its id, and what it says. |
| `Context.SameSlotIff` | enfold/context.py:199-207 | Two facts share a slot exactly when both are states with the same scope, subject and predicate, neither of these empty. |
| `ContextPack.LineFits` | enfold/context.py:407-411 | A line within its allowance fits: the defensive branch is unreachable. |
| `ContextPack.AddReceipt` | enfold/context.py:347-364 | Emits the receipt if and only if its conflict is new and its line fits; else counts it. |
| `Context.SubstanceIsMonotone` | enfold/context.py:401 | A longer prefix keeps at least as much content. |
| `Context.NoneIffNothingFits` | enfold/context.py:399-406 | Nothing is rendered if and only if neither the text nor any truncation of it with eight characters of content fits. |
| `Context.FitClaim` | enfold/context.py:399-406 | The whole text, or the longest truncation with eight characters of content, or nothing. |
| `ContextPack.AddClaim` | enfold/context.py:389-421 | Skips a claim whose slot is taken; else renders what its allowance lets stand of its text, or counts it as omitted. |
| `ContextPack.AddFact` | enfold/context.py:370-421 | Each fact is unsafe, redacted, rendered or omitted, and adds exactly what it must behind the entries of its turn. |
| `ContextPack.StaysSettled` | enfold/context.py:370-421 | An input that was left out for want of room or of its slot would still be left out at the end. |
| `ContextPack.PackedIsSettled` | enfold/context.py:370-421 | In a finished pack every input is settled: no line, and no truncation with eight characters of content, that would still fit was left out. |
| `ContextPack.PackedIsUnique` | enfold/context.py:358-421 | The receipts, the ranked facts and the budget determine the entries, their order and their text. |
| `ContextPack.AddReceipts` | enfold/context.py:358-364 | The receipt loop: each receipt adds what it must at its turn. |
| `ContextPack.AddFacts` | enfold/context.py:370-421 | The fact loop: each fact adds what it must at its turn, and every input is accounted for. |
| `ContextPack.Finish` | enfold/context.py:423-450 | Abstains exactly when no claim was rendered; no text at all exactly when there is no conflict either. |
| `ContextPack.PackContext` | enfold/context.py:304-450 | Fails exactly on a bad budget, character limit, fact limit or lambda; the text is the entries' rendering and within budget; the entries are what the receipts and the ranked facts add, each at its turn: an invalid, superseded or conflicting fact nothing but its conflict, an unreviewed or instruction-shaped one a redaction, any other its claim; each conflict and each state slot once; rendered + redacted + unsafe + omitted + emitted receipts == facts + conflicted facts ranked + valid receipts given. |
| `ContextPack.PackIsUnique` | enfold/context.py:304-450 | That description determines the pack, down to its text and every count. |
| `Daemon.FrameIsNext` | enfold/daemon.py:577-600 | The first complete frame in the buffer is handled before anything behind it, whatever follows. |
| `Daemon.OverflowIsFinal` | enfold/daemon.py:579-588 | Too many bytes without a newline end the connection, whatever follows. |
| `Daemon.DrainBuffer` | enfold/daemon.py:577-603 | Draining the buffer changes nothing about what the whole stream does. |
| `Daemon.ServeClient` | enfold/daemon.py:557-603 | Frames handled and replies sent depend on the bytes received and not on their chunking. |
| `Daemon.HandshakeIsAnswered` | enfold/daemon.py:726-767 | A handshake opens the connection if and only if major, minor, schema and credential agree; the reply lists the shared capabilities in the server's order, or names the first disagreement and closes. |
| `Daemon.RequestIsAnswered` | enfold/daemon.py:645-724 | On an open connection a request on its protocol and schema with a negotiated capability is handled and answered by the service; without the capability it is refused and the connection stays open; a changed protocol or schema closes it. |
| `Daemon.StrayFrameEnds` | enfold/daemon.py:613-652 | Any other frame is answered by its error code and ends the connection. |
| `Daemon.AgreeingClientIsServed` | enfold/daemon.py:557-724 | A client that agrees with the server and asks for something both are capable of gets its capabilities and then the service's answer. |
| `Daemon.FrameKeepsLog` | enfold/daemon.py:613-689 | One frame keeps: nothing handled before the one accepted handshake, everything after it authorized by it. |
| `Daemon.EveryCallIsAuthorized` | enfold/daemon.py:726-782 | For every byte stream, every handler call follows one accepted handshake and uses its client, protocol, schema and a negotiated capability. |
| `JsonArray.ExtractJsonArray` | enfold/llm_extract.py:190-221 | Returns the first bracket-balanced block that is closed outside strings, or none if there is none. |
| `JsonArray.FirstArrayUnique` | enfold/llm_extract.py:199-221 | There is at most one such block. |
| `JsonArray.PrintSilent` | enfold/llm_extract.py:204-219 | A printed JSON value inside an array never ends the array, whatever its strings contain. |
| `JsonArray.PrintedArrayIsFirst` | enfold/llm_extract.py:190-196 | Behind a prefix without '[' the first block is exactly the printed array. |
| `JsonArray.ExtractFromAnswer` | enfold/llm_extract.py:190-221 | The scanner returns exactly the array's text, for every array, prefix without '[' and suffix. |
| `AnchorFilter.MaxHit` | enfold/hybrid_retrieval.py:900-905 | The greatest hit count, attained when positive. |
| `AnchorFilter.WhatScores` | enfold/hybrid_retrieval.py:881-899 | An exact match has every anchor; the distinctive anchors score if there are any, else all of them. |
| `AnchorFilter.SelectIsChosen` | enfold/hybrid_retrieval.py:874-907 | Keeps exactly the exact matches if there are any, else exactly the best positive matches on the scoring anchors. |
| `AnchorFilter.SelectKeepsOrder` | enfold/hybrid_retrieval.py:874-907 | The chosen items are kept in their order, repetitions included. |
| `AnchorFilter.SelectFailsClosedIff` | enfold/hybrid_retrieval.py:881-907 | Nothing is returned if and only if no item shares a scoring anchor; generic title words do not score beside a distinctive one. |
| `AnchorFilter.EarlyFilterLosesNothing` | enfold/hybrid_retrieval.py:1494-1511 | Filtering before dense scoring and again after keeps what filtering once keeps: select(select(E) + F) == select(E + F). |
| `EntityExpansion.ViaIff` | enfold/hybrid_retrieval.py:1328-1372 | One hop: both facts eligible and mentioning an entity that at most 25 eligible facts mention, whose name tokens and the subject's are not empty and stand in an inclusion. |
| `EntityExpansion.ReaderExists` | enfold/hybrid_retrieval.py:1352-1358 | Every graph can be listed in the order of fact and entity. |
| `EntityExpansion.VisitKeepsWalk` | enfold/hybrid_retrieval.py:1362-1386 | A destination row extends the walk by a fact at the current distance or not at all. |
| `EntityExpansion.VisitRows` | enfold/hybrid_retrieval.py:1362-1386 | The row loop is the walk over its rows in order, up to the result limit. |
| `EntityExpansion.VisitAllKeepsWalk` | enfold/hybrid_retrieval.py:1362-1386 | That walk keeps shortest distances, lists every visited fact once, and, unless the result is full, follows every row that passes the subject test. |
| `EntityExpansion.LoadBatch` | enfold/hybrid_retrieval.py:1342-1386 | One batch loads its first rows, by fact and then entity, as many as the limit still allows, and visits them. |
| `EntityExpansion.LoadBatches` | enfold/hybrid_retrieval.py:1342-1386 | The batch loop is the walk over the batches in order, until the row limit or the result limit is reached. |
| `EntityExpansion.LoadKeepsWalk` | enfold/hybrid_retrieval.py:1342-1386 | A hop whose rows stay below the limit loads exactly those, is not stopped, and visits everything its entities lead to; no hop loads more than the limit or lists more than it loads. |
| `EntityExpansion.HopIsComplete` | enfold/hybrid_retrieval.py:1310-1389 | Expanding only the newest facts reaches everything one hop further. |
| `EntityExpansion.WalkIsRight` | enfold/hybrid_retrieval.py:1309-1393 | From any hop on, the walk lists right hits only, and all of them when the rows still to load stay below the limit. |
| `EntityExpansion.ExpandViaEntities` | enfold/hybrid_retrieval.py:1292-1393 | Every hit is eligible, no seed, not excluded, unrepeated, at its true shortest distance and reached through the entity it names, also when loading was cut short; at most the limit are returned; when the rows of the seeds' entities and of the first ring's entities number fewer than the limit, nothing within two hops is missing; and in any case the hits are those of the first rows, in order, that the limit lets through. |
| `EntityExpansion.ExpansionIsUnique` | enfold/hybrid_retrieval.py:1342-1359 | Any two databases that list the same rows in the order of fact and entity give the same hits, in the same order, whichever the limit cuts off. |

## Left out

- SQLite itself, threads, sockets, files and the HTTP and model calls: clocks, tokens, extractor, embedder, verifier and write policy are parameters that may return anything or fail; a commit that SQLite itself refuses is not modelled.
- Workers of one queue with different configurations: all workers share one `Config`.
- Heartbeat threads: renewals are steps of their own that any worker may take at any time.
- ExtractionProcessor.ExtractionProcessor.ProcessOne: the requests are what an arbitrary function makes of a snapshot; decoding and validating envelopes and snapshots is not modelled.
- RetryBound.ClaimsAreBounded: the creation stamp is not in the future when the row is enqueued, and nobody revives the row from outside.
- ExtractionProtocol.ErasedRowStillWritesIff: which queue rows an erasure is linked to is a parameter.
- EmbeddingJobs: one embedding spec, so versions and dimensions are fixed; error texts, owners and stamps that nothing reads are dropped.
- EmbeddingProtocol.ErasedFactHasNoVector: nobody makes an erased fact active again, which other modules enforce.
- The rest of an erasure (provenance, write log, insights, conflicts, receipts) and the supervised worker loop.
- ClusterTags.RewrittenCites: tags are comma-separated pieces, each a source tag, a number or a word; blanks around stored tags and a source tag inside a longer word are not modelled.
- ClusterApply.Merger.ApplyMerge: of the final tags the contract says what they cite and not their text; which rows count as active insights is a set given beside the facts.
- ClusterResults.ExecuteMerge: the live-path and backup checks and the suspicious flag; the integrity checks are a parameter.
- Cosine similarity is an arbitrary relation, trust times retrievals a real; tokenizers are given as token sequences or sets.
- ContextPack.PackContext: the rendered line prefix, the prompt-safety screen, the score and the pairwise similarity of a fact are inputs; the fields copied into structured entries are not.
- ExtractQueue.ExtractQueue.EnqueuePayload: byte truncation and JSON encoding of a payload before it is hashed, parsing of quota delays, and the one-shot revival of quota-killed rows (a selective revival).
- Daemon: timeouts, the stop flag, response encoding and its size fallback, and the frame codec, which is an arbitrary function from bytes to frames.
- JsonArray: numbers may also have leading zeros or empty digit runs, a superset of the grammar of RFC 8259.
- EntityExpansion.ExpandViaEntities: the entities of the degree query are taken in ascending order, as its grouping yields them; the batching of the frontier and degree queries and the empty answer to a database error are not modelled.
- Plain-string transcripts are cut by `TextSpans`; their trimming and the selection of user spans are not modelled.
- Bootstrap, activation, backup, export, clients, MCP servers, doctor, the embedding store's caches, policy and credential screening.
