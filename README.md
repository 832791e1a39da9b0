# View observer: the view-count job's store layer, in Dafny

This project models the core of a scheduled job that polls the view counts of a fixed
set of YouTube videos. The job stores one view-history sample per video and run. It
writes a news record when a video reaches its view-count milestone, or when it comes
close to it. The model covers four source files:

- `ViewCountUseCase` (`view_count_usecase.dfy`) is the run.
  - It keys the fetched items by video id.
  - One transaction loads the tracked videos. For each one it decides REACHED, APPROACH
    or nothing, stages the news record and the new milestone, and stages one
    view-history entry.
  - The fetched ids the transaction did not resolve are inserted in two batches: the
    video documents first, under generated ids, then their first view-history entries.
- `VideoRepository` (`video_repository.dfy`) is the `video` collection's repository.
  - lookups by `videoId` set
  - transactional and batched writes
  - the one-off repair of the `created`/`updated` fields, page by page
  - the date-range read of a video's view histories
  - the chunked delete
- `FirestoreRepository` (`firestore_repository.dfy`) is the generic layer beneath it.
  - the converter
  - the batch and transaction write helpers
  - the `exists` rule over snapshot shapes
  - the `idAndData` fold
- `ValidationTool` (`validation_tool.dfy`) holds the two range guards `atLeast` and `atMost`.

The document database is modelled in memory by `DocumentStore` (`document_store.dfy`).
It holds the `video` map from document id to `VideoDocument`, one `view-history`
sequence per parent document, an append-only `news` log, and a client-side id
allocator. A `WriteBatch` and a `Transaction` are classes whose queue of staged
writes is a `seq` field that their methods extend. Nothing reaches the database until
`CommitBatch` or `CommitTransaction`. A commit applies the queue in order, atomically:
it fails, and changes nothing, if it holds more than 500 writes (batches only) or
updates a missing document. Document ids are naturals handed out by the allocator, so
a generated id is fresh by construction. Queries return documents in ascending id
order, the order in which the store returns query results.

`calcMilestone` and `isCloseToNextMilestone` are defined in a file that is not part of
this model. They are the two function values of a `Policy` datatype, about which
nothing is assumed. `isCloseToNextMilestone` sees only the view count, never the
stored milestone, exactly as it is called at
`firebase/functions/src/service/usecases/view-count-usecase.ts:108`.

Behaviour that follows from the code as written:
- When the second insert batch fails, `insertVideo` throws and reports nothing about
  the videos the first batch stored. `InsertVideo` returns `Err`.
- An update in the transaction never skips a missing document. Every update targets a
  document the same transaction loaded, so in the model the commit cannot miss.
- The chunked delete does not remove every reference it is given; see "Findings".

## Model

| member | source | states |
|---|---|---|
| `ValidationTool.AtLeast` | firebase/functions/src/utils/validation-tool.ts:1-5 | an undefined number always passes; a defined one raises RangeError iff it is below `min`, so `min` itself passes |
| `ValidationTool.AtMost` | firebase/functions/src/utils/validation-tool.ts:7-11 | an undefined number always passes; a defined one raises RangeError iff it is above `max`, so `max` itself passes |
| `ValidationTool.BoundsAreInclusive` | firebase/functions/src/utils/validation-tool.ts:1-11 | both guards accept their bound and reject the next integer beyond it |
| `ValidationTool.BothGuardsIffInRange` | firebase/functions/src/utils/validation-tool.ts:1-11 | a defined number passes both guards exactly when `min <= num <= max` |
| `DocumentStore.BatchCommit` | firebase/functions/src/service/repository/firestore/firestore-repository.ts:143-145 | a batch over 500 writes is refused whole; otherwise its writes apply in order, all or none |
| `DocumentStore.ApplyAllConcat` | firebase/functions/src/service/repository/firestore/firestore-repository.ts:143-145 | committing staged writes `a + b` is committing `a`, then `b` on the result; a failure in `a` aborts both |
| `DocumentStore.ApplyAllValid` | firebase/functions/src/service/repository/firestore/firestore-repository.ts:143-145 | a commit keeps every stored id below the allocator and never moves the allocator back |
| `DocumentStore.ApplyOpKeepsDistinct` | firebase/functions/src/service/repository/firestore/firestore-repository.ts:121-129 | every write keeps document ids unique within each sub-collection: `set` overwrites or appends a new id, `update` keeps the id, `delete` only removes |
| `DocumentStore.ApplyAllKeepsDistinct` | firebase/functions/src/service/repository/firestore/firestore-repository.ts:143-145 | a commit keeps document ids unique within each sub-collection |
| `DocumentStore.Firestore.AllocateId` | firebase/functions/src/service/repository/firestore/video-repository.ts:121 | `doc()` hands out a fresh id and writes nothing |
| `DocumentStore.Firestore.CommitTransaction` | firebase/functions/src/service/usecases/view-count-usecase.ts:77 | the transaction's staged writes take effect together, or the database is unchanged |
| `FirestoreRepository.ToFirestore` | firebase/functions/src/service/repository/firestore/firestore-repository.ts:147-151 | writing a model stores its `parseObj()`: exactly the document's six fields, which `ConverterRoundTrip` reads back |
| `FirestoreRepository.FromFirestore` | firebase/functions/src/service/repository/firestore/firestore-repository.ts:152-154 | reading returns the stored data unchanged |
| `FirestoreRepository.AsVideo` | firebase/functions/src/service/repository/firestore/firestore-repository.ts:147-156 | a stored object is read as a video document only when it is that document's `toFirestore` image |
| `FirestoreRepository.ConverterRoundTrip` | firebase/functions/src/service/repository/firestore/firestore-repository.ts:147-156 | a model written through the converter reads back as the same model |
| `FirestoreRepository.StartBatch` | firebase/functions/src/service/repository/firestore/firestore-repository.ts:102-104 | a new batch with nothing staged |
| `FirestoreRepository.AddWithBatch` | firebase/functions/src/service/repository/firestore/firestore-repository.ts:106-108 | enqueues exactly one `set` at a newly allocated id; the database is untouched |
| `FirestoreRepository.SetWithBatch` | firebase/functions/src/service/repository/firestore/firestore-repository.ts:110-119 | enqueues exactly one `set` at the given ref; `options` reaches it only when given |
| `FirestoreRepository.AddSubDocumentWithBatch` | firebase/functions/src/service/repository/firestore/firestore-repository.ts:121-129 | enqueues one `set` at a fresh id inside the named sub-collection of the given parent |
| `FirestoreRepository.UpdateWithBatch` | firebase/functions/src/service/repository/firestore/firestore-repository.ts:131-137 | enqueues exactly one `update` of the given ref with the data |
| `FirestoreRepository.DeleteInBatch` | firebase/functions/src/service/repository/firestore/firestore-repository.ts:139-141 | enqueues exactly one `delete` of the given ref |
| `FirestoreRepository.CommitBatch` | firebase/functions/src/service/repository/firestore/firestore-repository.ts:143-145 | the database becomes the batch's commit result, or stays as it was when the commit fails |
| `FirestoreRepository.EnqueuedWritesWaitForCommit` | firebase/functions/src/service/repository/firestore/firestore-repository.ts:102-145 | an enqueued write has no effect until commit, and then applies after the writes enqueued before it |
| `FirestoreRepository.AddInTx` | firebase/functions/src/service/repository/firestore/firestore-repository.ts:70-79 | stages exactly one `set` at the ref; `options` reaches it only when given |
| `FirestoreRepository.AddSubDocInTx` | firebase/functions/src/service/repository/firestore/firestore-repository.ts:81-89 | stages one `set` at a fresh id inside the named sub-collection of the given parent |
| `FirestoreRepository.UpdateInTx` | firebase/functions/src/service/repository/firestore/firestore-repository.ts:91-98 | stages exactly one update of the ref with the document that `data.parseObj()` stores |
| `FirestoreRepository.SubDocumentWriteTouchesOnlyItsTarget` | firebase/functions/src/service/repository/firestore/firestore-repository.ts:81-89 | a sub-document write at a fresh id appends one document to its sub-collection; every other collection and the news log are unchanged |
| `FirestoreRepository.ExistsOf` | firebase/functions/src/service/repository/firestore/firestore-repository.ts:158-175 | query snapshot: whether some contained document exists; single document: its own flag; anything else: "unexpected type" |
| `FirestoreRepository.Exists` | firebase/functions/src/service/repository/firestore/firestore-repository.ts:158-175 | the flag-raising scan returns true iff some document of the query snapshot exists; the other shapes as in `ExistsOf` |
| `FirestoreRepository.QueryResultExistsIffNonEmpty` | firebase/functions/src/service/repository/firestore/firestore-repository.ts:162-167 | a query result exists exactly when it holds a document |
| `FirestoreRepository.DocIdAndDataKeys` | firebase/functions/src/service/repository/firestore/firestore-repository.ts:181-187 | the id-to-data fold has a key for every document id and no other |
| `FirestoreRepository.DocIdAndDataAt` | firebase/functions/src/service/repository/firestore/firestore-repository.ts:181-187 | with distinct ids, each document's data is stored under its id |
| `FirestoreRepository.IdAndDataAsWritten` | firebase/functions/src/service/repository/firestore/firestore-repository.ts:177-189 | as written: `{}` whenever the snapshot exists, the fold otherwise |
| `FirestoreRepository.IdAndDataAsWrittenIsAlwaysEmpty` | firebase/functions/src/service/repository/firestore/firestore-repository.ts:177-180 | as written, every query result yields `{}` |
| `FirestoreRepository.IdAndDataAsWrittenDropsTheDocument` | firebase/functions/src/service/repository/firestore/firestore-repository.ts:177-189 | a one-document result yields `{}` instead of that document's entry |
| `FirestoreRepository.IdAndData` | firebase/functions/src/service/repository/firestore/firestore-repository.ts:177-189 | corrected guard: `{}` only when nothing exists, the fold otherwise |
| `FirestoreRepository.IdAndDataIsTheFold` | firebase/functions/src/service/repository/firestore/firestore-repository.ts:177-189 | corrected, a query result yields one entry per document, holding its data |
| `VideoRepository.Select` | firebase/functions/src/service/repository/firestore/video-repository.ts:62-63 | a query returns only documents that exist, each with an id below the allocator bound |
| `VideoRepository.SelectIsExact` | firebase/functions/src/service/repository/firestore/video-repository.ts:62-63 | a query returns each selected document once, with its stored data, in ascending id order, and no other document |
| `VideoRepository.SelectFold` | firebase/functions/src/service/repository/firestore/video-repository.ts:68-75 | folded into an id-to-data record, a query result is exactly the selected part of the collection |
| `VideoRepository.GetVideos` | firebase/functions/src/service/repository/firestore/video-repository.ts:27-44 | the record is the whole `video` collection, keyed by document id; `{}` when the collection is empty |
| `VideoRepository.GetByVideoIdsInTx` | firebase/functions/src/service/repository/firestore/video-repository.ts:57-80 | exactly the snapshot's documents whose `videoId` is listed, once each, in id order; as a record, that part of the collection; an empty list or one over 30 ids is refused |
| `VideoRepository.InQueryExact` | firebase/functions/src/service/repository/firestore/video-repository.ts:62-75 | the `in` query's answer, folded, is the part of the collection whose `videoId` is listed |
| `VideoRepository.UpdateVideoInTx` | firebase/functions/src/service/repository/firestore/video-repository.ts:82-94 | stages exactly one update of the document at `docId` |
| `VideoRepository.AddViewHistoryInTx` | firebase/functions/src/service/repository/firestore/video-repository.ts:96-112 | stages one `set` at a fresh id in that video's `view-history` |
| `VideoRepository.AddVideoWithBatch` | firebase/functions/src/service/repository/firestore/video-repository.ts:120-124 | enqueues one `set` at a fresh generated id, not used by any stored video, and returns that id |
| `VideoRepository.AddViewHistoryWithBatch` | firebase/functions/src/service/repository/firestore/video-repository.ts:126-138 | enqueues one `set` at a fresh id in the `view-history` of the given document |
| `VideoRepository.AddVideos` | firebase/functions/src/service/repository/firestore/video-repository.ts:46-55 | one batch with a `set` per document at consecutive fresh ids, then one commit |
| `VideoRepository.AddVideosEffect` | firebase/functions/src/service/repository/firestore/video-repository.ts:46-55 | those writes all apply: each document is stored under its new id and nothing else changes |
| `VideoRepository.RepairedCreated` | firebase/functions/src/service/repository/firestore/video-repository.ts:176-177 | `created` becomes the old `created` when it has `_seconds`, else the old `updated` |
| `VideoRepository.RepairedUpdated` | firebase/functions/src/service/repository/firestore/video-repository.ts:178-185 | `updated` becomes the old `created` when it has `_seconds`, else the old `updated` when set, else the server timestamp |
| `VideoRepository.RepairAlignsFieldsIff` | firebase/functions/src/service/repository/firestore/video-repository.ts:176-185 | after the repair the two fields are equal exactly when `created` had seconds or `updated` was set |
| `VideoRepository.RepairIdempotentWhenSecondsFound` | firebase/functions/src/service/repository/firestore/video-repository.ts:176-185 | repairing twice is repairing once when a time with seconds was found; a document with neither field is not a fixed point |
| `VideoRepository.RepairOps` | firebase/functions/src/service/repository/firestore/video-repository.ts:173-188 | one update per page document, in page order, carrying its repaired fields |
| `VideoRepository.RepairCommits` | firebase/functions/src/service/repository/firestore/video-repository.ts:187-190 | the updates of a page read from the store all apply |
| `VideoRepository.EnqueueRepairs` | firebase/functions/src/service/repository/firestore/video-repository.ts:173-188 | the `forEach` with its `let updated` enqueues exactly `RepairOps` of the page |
| `VideoRepository.FixViewHistoryCreatedAndUpdated` | firebase/functions/src/service/repository/firestore/video-repository.ts:143-205 | an empty page throws "complete" and writes nothing; otherwise the page's repairs commit and the result is (id of the last document, batchCount + 1, totalFixed + page size) |
| `VideoRepository.IsEmptyMapIffEmptyObject` | firebase/functions/src/service/repository/firestore/video-repository.ts:300-309 | `isEmptyMap` holds exactly of the empty plain object |
| `VideoRepository.CanAlternateCases` | firebase/functions/src/service/repository/firestore/video-repository.ts:282-298 | with `created` falsy (missing, `0` or `""`) or `{}`, a document passes iff `updated` is unset; with any other `created`, it passes iff `created` is a Timestamp |
| `VideoRepository.SortByCreated` | firebase/functions/src/service/repository/firestore/video-repository.ts:218 | `orderBy("created", "asc")` is a permutation of its input |
| `VideoRepository.SortIsSorted` | firebase/functions/src/service/repository/firestore/video-repository.ts:218 | its result is in ascending `created` order |
| `VideoRepository.FilterInRange` | firebase/functions/src/service/repository/firestore/video-repository.ts:216-217 | keeps exactly the documents whose Timestamp `created` lies in `[from, to)` |
| `VideoRepository.FilterCanAlternate` | firebase/functions/src/service/repository/firestore/video-repository.ts:220-222 | keeps exactly the documents that pass `canAlternateWithUpdated` |
| `VideoRepository.FilterIsIdentityOnRange` | firebase/functions/src/service/repository/firestore/video-repository.ts:215-222 | every document of the range query passes the filter, so the filter keeps them all |
| `VideoRepository.GetViewHistoriesBetween` | firebase/functions/src/service/repository/firestore/video-repository.ts:207-234 | `docRefs` are the filtered documents' references in order; `docIdAndData` has exactly their ids as keys, each holding that document's data |
| `VideoRepository.HistoriesInRangeDistinct` | firebase/functions/src/service/repository/firestore/video-repository.ts:215-222 | the documents the range read returns have distinct ids, as their sub-collection has |
| `VideoRepository.HistoriesInRangeSpec` | firebase/functions/src/service/repository/firestore/video-repository.ts:207-234 | the result is the video's entries with `from <= created < to`, each as often as stored, ascending by `created`, all passing the filter |
| `VideoRepository.SpliceLoop` | firebase/functions/src/service/repository/firestore/video-repository.ts:257-263 | the delete loop as written: `splice(i, i + 500)` cuts `i + 500` refs from index `i` out of the array it is iterating, and `i` advances by 500 |
| `VideoRepository.DeleteViewHistriesWithRefsAsWritten` | firebase/functions/src/service/repository/firestore/video-repository.ts:253-265 | its batches and the shrunk array are those of `SpliceLoop`; the database is each batch committed on its own |
| `VideoRepository.SpliceAndCommit` | firebase/functions/src/service/repository/firestore/video-repository.ts:258-262 | one pass: the spliced refs leave the array and their deletes are committed as one batch |
| `VideoRepository.EnqueueDeletes` | firebase/functions/src/service/repository/firestore/video-repository.ts:259-261 | one delete per ref, in order |
| `VideoRepository.DeleteAllEffect` | firebase/functions/src/service/repository/firestore/video-repository.ts:259-262 | deletes never fail, and exactly the referenced documents are gone |
| `VideoRepository.DeletedAreGone` | firebase/functions/src/service/repository/firestore/video-repository.ts:259-262 | after the deletes, no referenced document is left |
| `VideoRepository.SpliceOneBatch` | firebase/functions/src/service/repository/firestore/video-repository.ts:253-265 | up to 500 refs: one batch deletes them all and the array ends empty |
| `VideoRepository.SpliceSevenHundred` | firebase/functions/src/service/repository/firestore/video-repository.ts:253-265 | 700 refs: only the first 500 are deleted; the other 200 stay in the array and in the database |
| `VideoRepository.SpliceTwoThousand` | firebase/functions/src/service/repository/firestore/video-repository.ts:253-265 | 2000 refs: the second batch takes 1000 refs and is refused, so refs 500 to 999 are never deleted |
| `VideoRepository.DeleteChunk` | firebase/functions/src/service/repository/firestore/video-repository.ts:258-262 | a slice of at most 500 refs commits, deleting exactly those refs |
| `VideoRepository.DeleteViewHistoriesWithRefs` | firebase/functions/src/service/repository/firestore/video-repository.ts:253-265 | corrected: batch `j` is refs `[500j, min(500(j+1), n))`, so there are ceil(n/500) batches of 1 to 500 refs that concatenate to the input; every commit succeeds, and the result is that of deleting every ref |
| `ViewCountUseCase.ItemsById` | firebase/functions/src/service/usecases/view-count-usecase.ts:65-71 | the record has exactly the fetched ids as keys, each mapped to a fetched item with that id |
| `ViewCountUseCase.LaterItemWins` | firebase/functions/src/service/usecases/view-count-usecase.ts:65-71 | an item is kept under its id when no later item shares the id |
| `ViewCountUseCase.KeyOrder` | firebase/functions/src/service/usecases/view-count-usecase.ts:33 | `Object.keys` of the record: each fetched id once |
| `ViewCountUseCase.NewsFor` | firebase/functions/src/service/usecases/view-count-usecase.ts:98-117 | REACHED iff viewCount >= milestone; APPROACH iff below it and close; at most one news record, carrying the video's id and title, the view count and the milestone it was measured against |
| `ViewCountUseCase.WithNewMilestone` | firebase/functions/src/service/usecases/view-count-usecase.ts:150-161 | the new document has milestone `calcMilestone(viewCount)`; every other field is the old document's |
| `ViewCountUseCase.CelebrateReaching` | firebase/functions/src/service/usecases/view-count-usecase.ts:163-181 | stages one REACHED news with the view count and the old milestone |
| `ViewCountUseCase.NotifyApproachingMilestone` | firebase/functions/src/service/usecases/view-count-usecase.ts:183-201 | stages one APPROACH news with the view count and the current milestone |
| `ViewCountUseCase.SetNewMilestone` | firebase/functions/src/service/usecases/view-count-usecase.ts:150-161 | stages one update of the document with only its milestone moved |
| `ViewCountUseCase.DocOps` | firebase/functions/src/service/usecases/view-count-usecase.ts:97-120 | one to three writes per loaded document; the last is always its one view-history entry with the fetched count |
| `ViewCountUseCase.NewsLog` | firebase/functions/src/service/usecases/view-count-usecase.ts:95-121 | the transaction writes at most one news record per loaded document |
| `ViewCountUseCase.NewsLogMembers` | firebase/functions/src/service/usecases/view-count-usecase.ts:95-121 | the news written are exactly the records the loaded documents' outcomes call for |
| `ViewCountUseCase.OutcomesKeys` | firebase/functions/src/service/usecases/view-count-usecase.ts:84-94 | the result record has a key for exactly the loaded documents' `videoId`s |
| `ViewCountUseCase.OutcomesValue` | firebase/functions/src/service/usecases/view-count-usecase.ts:84-117 | a `videoId` maps to null when none of its documents announced, else to its last announcing document's category |
| `ViewCountUseCase.DocOpsEffect` | firebase/functions/src/service/usecases/view-count-usecase.ts:97-120 | one document's writes all apply: milestone moved iff reached, its news appended, one history entry added |
| `ViewCountUseCase.ReconcileApplies` | firebase/functions/src/service/usecases/view-count-usecase.ts:77-123 | the transaction's writes over loaded documents with fresh history ids always apply |
| `ViewCountUseCase.ReconcileNews` | firebase/functions/src/service/usecases/view-count-usecase.ts:98-117 | the news log grows by exactly `NewsLog`, in order |
| `ViewCountUseCase.ReconcileMilestones` | firebase/functions/src/service/usecases/view-count-usecase.ts:98-107 | a loaded document's milestone becomes `calcMilestone(viewCount)` exactly when reached; other documents keep theirs |
| `ViewCountUseCase.ReconcileHistories` | firebase/functions/src/service/usecases/view-count-usecase.ts:118-120 | each loaded document gains exactly one view-history entry with its fetched count, whichever branch ran |
| `ViewCountUseCase.ReconcileFrame` | firebase/functions/src/service/usecases/view-count-usecase.ts:118-120 | sub-collections of documents not loaded are untouched |
| `ViewCountUseCase.ReconcileShape` | firebase/functions/src/service/usecases/view-count-usecase.ts:95-121 | the transaction neither adds nor removes a video document |
| `ViewCountUseCase.ReconcileOne` | firebase/functions/src/service/usecases/view-count-usecase.ts:95-121 | the loop body stages exactly `DocOps` and sets the result entry to the outcome when there is one |
| `ViewCountUseCase.ReconcileAll` | firebase/functions/src/service/usecases/view-count-usecase.ts:84-122 | the loop over the loaded documents stages all their writes and builds the result record from all-null |
| `ViewCountUseCase.ReconcileAndCommit` | firebase/functions/src/service/usecases/view-count-usecase.ts:77-123 | the loop, then the commit of what it staged |
| `ViewCountUseCase.UpdateVideoAndCreateNewsIfNeeded` | firebase/functions/src/service/usecases/view-count-usecase.ts:74-124 | a refused load aborts with nothing written; otherwise the state and the record are those of the committed transaction over the loaded documents |
| `ViewCountUseCase.ReconciledSpec` | firebase/functions/src/service/usecases/view-count-usecase.ts:74-124 | after the run's transaction: news per outcome, milestones moved exactly when reached, one history entry per loaded document, a record key per loaded `videoId` |
| `ViewCountUseCase.LoadedIdsAreStoredIds` | firebase/functions/src/service/usecases/view-count-usecase.ts:78-94 | the `videoId`s resolved are exactly the listed ids that some stored document has |
| `ViewCountUseCase.TimestampFromMillisExact` | firebase/functions/src/service/usecases/view-count-usecase.ts:206-207 | `Timestamp.fromDate` keeps the date exactly: seconds, plus nanoseconds below one second |
| `ViewCountUseCase.Convert` | firebase/functions/src/service/usecases/view-count-usecase.ts:203-224 | null exactly when the date conversion throws; otherwise `videoId = item.id`, title and channel copied, milestone `calcMilestone(viewCount)`, `updated` the server timestamp |
| `ViewCountUseCase.Converted` | firebase/functions/src/service/usecases/view-count-usecase.ts:131-136 | the entries kept are record keys whose item converts, each with its document |
| `ViewCountUseCase.ConvertedCovers` | firebase/functions/src/service/usecases/view-count-usecase.ts:131-136 | a key is among the converted entries exactly when its item converts |
| `ViewCountUseCase.ConvertedDistinct` | firebase/functions/src/service/usecases/view-count-usecase.ts:131-136 | each converted key appears once |
| `ViewCountUseCase.FirstHistoryOps` | firebase/functions/src/service/usecases/view-count-usecase.ts:139-146 | one `set` per new document, in its `view-history`, with its fetched count |
| `ViewCountUseCase.FirstHistoriesEffect` | firebase/functions/src/service/usecases/view-count-usecase.ts:139-147 | the second batch applies: each new document gains exactly its one entry and nothing else changes |
| `ViewCountUseCase.InsertStateEffect` | firebase/functions/src/service/usecases/view-count-usecase.ts:126-148 | with at most 500 new documents both commits succeed: each becomes a root under a fresh id with exactly one view history; the news log and the other documents are unchanged |
| `ViewCountUseCase.EnqueueNewVideos` | firebase/functions/src/service/usecases/view-count-usecase.ts:129-136 | phase one's loop enqueues one `set` per convertible item and keeps each key with its new id |
| `ViewCountUseCase.EnqueueFirstHistories` | firebase/functions/src/service/usecases/view-count-usecase.ts:139-146 | phase two's loop enqueues one first history per kept id |
| `ViewCountUseCase.AddConvertedVideos` | firebase/functions/src/service/usecases/view-count-usecase.ts:129-137 | phase one and its commit |
| `ViewCountUseCase.AddFirstHistories` | firebase/functions/src/service/usecases/view-count-usecase.ts:139-147 | phase two and its commit, built only from ids phase one returned |
| `ViewCountUseCase.InsertVideo` | firebase/functions/src/service/usecases/view-count-usecase.ts:126-148 | the state and result are those of the video batch, then, only if it committed, the history batch |
| `ViewCountUseCase.NotDocumented` | firebase/functions/src/service/usecases/view-count-usecase.ts:45-54 | the new items and the resolved ids are disjoint and together cover the fetched ids; each item is the fetched one |
| `ViewCountUseCase.WithoutDocumented` | firebase/functions/src/service/usecases/view-count-usecase.ts:46-47 | the filter keeps exactly the ids not resolved |
| `ViewCountUseCase.WithoutDocumentedDistinct` | firebase/functions/src/service/usecases/view-count-usecase.ts:46-47 | filtering keeps ids distinct |
| `ViewCountUseCase.WithoutDocumentedKeepsOrder` | firebase/functions/src/service/usecases/view-count-usecase.ts:46-47 | the ids kept are a subsequence of `Object.keys` order, which decides the order of insertion and of the generated ids |
| `ViewCountUseCase.NewIdsAreUntracked` | firebase/functions/src/service/usecases/view-count-usecase.ts:43-55 | the ids passed to `insertVideo` are exactly the fetched ids that no stored document has |
| `ViewCountUseCase.FetchAndStore` | firebase/functions/src/service/usecases/view-count-usecase.ts:31-56 | a refused load ends the run with nothing written; otherwise the transaction's outcome, then `insertVideo` on exactly the untracked fetched items |

## Left out

- The HTTP and pub/sub triggers, the secret and configuration lookup, the Discord webhook and its message text: `index.ts` and `view-count-batch.ts` are not part of this model.
- The video API client: the run takes the fetched items as a parameter.
- `NewsRepository.setNewsInTx` is not part of this model. A staged news write appends to the `news` log when the transaction commits.
- `calcMilestone` and `isCloseToNextMilestone` are not part of this model. They are uninterpreted function values, and nothing about their thresholds or monotonicity is assumed.
- Transaction retries and contention are not modelled. A transaction is one atomic step: its reads see the state it started on, and its writes apply together.
- The concurrent `Promise.all` commits of the chunked delete are committed one after another.
- `FieldValue.serverTimestamp()` is an opaque token.
- `new Date(...)` parsing is a parameter that may fail. `convert`'s `catch` is exactly its failure.
- `Number(...)` string-to-number conversion and floating point: view counts are naturals.
- Logger calls are left out.
- The cursor (`orderBy("updated", "desc")`, `startAfter`, `limit`) of the repair routine is left out. The routine takes the page that query returns as a parameter.
- `getOldestViewHistory`, `runTransaction`, `getInTx`, `add`, `getCollection` and `getSubCollection` are not separate members. Their effects are folded into the operations that call them.
- `Object.keys` puts integer-like keys first in ascending order. Video ids and generated document ids are not integer-like, so the model uses insertion order throughout.
- Document ids are allocated from a counter instead of at random. That gives freshness, which is all the code relies on.
- Firestore refuses an `undefined` field value in an update. The repair can write one, when a document has neither `created` with seconds nor `updated`. The model stores the field as absent instead.
- `parseObj()` of the video model class is defined in a file that is not part of this model. `ToFirestore` takes it to list exactly the document's six fields.
- `SetOptions` (merge) reaches the staged write but has no effect when the write applies: `ApplyOp` treats every `set` as a full overwrite. No caller in the modelled code passes options.
- `VideoRepository.GetViewHistoriesBetween` requires the video's `view-history` ids to be unique. The store keeps them unique (`ApplyAllKeepsDistinct`); without that, a repeated id would keep only its last document's data.
- `ViewHistory`'s constructor defaults for `created` and `updated` live in a file that is not part of this model. A new entry has both absent.
- Query results come in ascending document id order. The store's own index order is not modelled further.

## Findings

| source | as written | input that shows it | evidently intended | confidence | as-written member | corrected member |
|---|---|---|---|---|---|---|
| firebase/functions/src/service/repository/firestore/firestore-repository.ts:177-189 | `if (this.exists(ss)) return {}` returns `{}` exactly when documents were found | a query snapshot with one existing document yields `{}` | `{}` only when nothing exists, as in `getVideos` and `getByVideoIdsInTx` | high, not executed | `FirestoreRepository.IdAndDataAsWrittenDropsTheDocument` | `FirestoreRepository.IdAndDataIsTheFold` |
| firebase/functions/src/service/repository/firestore/video-repository.ts:257-263 | `splice(i, i + BATCH_SIZE)` takes a count, not an end index, and shrinks the array the loop indexes | 700 refs: only the first 500 are deleted; 2000 refs: a 1000-ref batch is refused and refs 500 to 999 are never deleted | consecutive slices of at most 500 refs, every ref deleted once | high, not executed | `VideoRepository.SpliceSevenHundred` | `VideoRepository.DeleteViewHistoriesWithRefs` |
