/**
 * The repository of the `video` collection and its `view-history`
 * sub-collections: lookups, transactional and batched writes, the one-off
 * repair of `created`/`updated`, the date-range read and the chunked delete.
 */
module VideoRepository {
  import opened Wrappers
  import opened Documents
  import opened DocumentStore
  import opened FirestoreRepository

  const SubCollectionName: string := "view-history"
  const BatchSize: nat := 500
  /** `LIMIT` of the repair routine's page query. */
  const RepairPageLimit: nat := 500

  function HistoryKey(videoDocId: DocId): SubKey
  {
    SubKey(videoDocId, SubCollectionName)
  }

  // ------------------------------------------------------------------ queries

  /**
   * A query over the `video` collection, as the store answers it: the
   * documents with an id below `n` whose `videoId` is in `ids` (every
   * document when `ids` is `None`), in ascending id order.
   */
  function Select(videos: map<DocId, VideoDocument>, ids: Option<set<string>>, n: nat): (docs: seq<QueryDoc<VideoDocument>>)
    ensures IsQueryResult(docs)
    ensures forall i :: 0 <= i < |docs| ==> docs[i].id < n
    decreases n
  {
    if n == 0 then []
    else
      var id := n - 1;
      Select(videos, ids, id) +
        (if id in videos && (ids.None? || videos[id].videoId in ids.value)
         then [QueryDoc(id, true, videos[id])] else [])
  }

  /** The documents a query selects. */
  ghost predicate Selected(videos: map<DocId, VideoDocument>, ids: Option<set<string>>, id: DocId)
  {
    id in videos && (ids.None? || videos[id].videoId in ids.value)
  }

  /** A query answer is in strictly ascending id order and holds exactly the selected documents. */
  lemma {:induction false} SelectIsExact(videos: map<DocId, VideoDocument>, ids: Option<set<string>>, n: nat)
    ensures forall i, j :: 0 <= i < j < |Select(videos, ids, n)| ==> Select(videos, ids, n)[i].id < Select(videos, ids, n)[j].id
    ensures forall i :: 0 <= i < |Select(videos, ids, n)| ==>
              Selected(videos, ids, Select(videos, ids, n)[i].id) &&
              Select(videos, ids, n)[i].data == videos[Select(videos, ids, n)[i].id]
    ensures forall id: DocId :: id < n && Selected(videos, ids, id) ==>
              exists i :: 0 <= i < |Select(videos, ids, n)| && Select(videos, ids, n)[i].id == id
    decreases n
  {
    SelectSorted(videos, ids, n);
    SelectSound(videos, ids, n);
    SelectComplete(videos, ids, n);
  }

  lemma {:induction false} SelectSorted(videos: map<DocId, VideoDocument>, ids: Option<set<string>>, n: nat)
    ensures forall i, j :: 0 <= i < j < |Select(videos, ids, n)| ==> Select(videos, ids, n)[i].id < Select(videos, ids, n)[j].id
    decreases n
  {
    if n > 0 {
      SelectSorted(videos, ids, n - 1);
      var prev := Select(videos, ids, n - 1);
      var docs := Select(videos, ids, n);
      assert forall i :: 0 <= i < |prev| ==> docs[i] == prev[i];
      forall i, j | 0 <= i < j < |docs| ensures docs[i].id < docs[j].id {
        if j < |prev| { assert docs[i] == prev[i] && docs[j] == prev[j]; }
        else { assert docs[i] == prev[i]; }
      }
    }
  }

  lemma {:induction false} SelectSound(videos: map<DocId, VideoDocument>, ids: Option<set<string>>, n: nat)
    ensures forall i :: 0 <= i < |Select(videos, ids, n)| ==>
              Selected(videos, ids, Select(videos, ids, n)[i].id) &&
              Select(videos, ids, n)[i].data == videos[Select(videos, ids, n)[i].id]
    decreases n
  {
    if n > 0 {
      SelectSound(videos, ids, n - 1);
      var prev := Select(videos, ids, n - 1);
      var docs := Select(videos, ids, n);
      forall i | 0 <= i < |docs| ensures Selected(videos, ids, docs[i].id) && docs[i].data == videos[docs[i].id] {
        if i < |prev| { assert docs[i] == prev[i]; }
      }
    }
  }

  /** Some document of `docs` has the id `id`. */
  ghost predicate HasId(docs: seq<QueryDoc<VideoDocument>>, id: DocId)
  {
    exists i :: 0 <= i < |docs| && docs[i].id == id
  }

  lemma {:induction false} SelectComplete(videos: map<DocId, VideoDocument>, ids: Option<set<string>>, n: nat)
    ensures forall id: DocId :: id < n && Selected(videos, ids, id) ==> HasId(Select(videos, ids, n), id)
    decreases n
  {
    if n > 0 {
      SelectComplete(videos, ids, n - 1);
      var prev := Select(videos, ids, n - 1);
      var docs := Select(videos, ids, n);
      assert forall i :: 0 <= i < |prev| ==> docs[i] == prev[i];
      assert Selected(videos, ids, n - 1) ==> docs[|docs| - 1] == QueryDoc(n - 1, true, videos[n - 1]);
      forall id: DocId | id < n && Selected(videos, ids, id) ensures HasId(docs, id) {
        if id < n - 1 {
          var i :| 0 <= i < |prev| && prev[i].id == id;
          assert docs[i] == prev[i];
        } else {
          assert docs[|docs| - 1].id == id;
        }
      }
    }
  }

  /** A query answer, folded into a document-id-to-data record, is the selected part of the collection. */
  lemma SelectFold(videos: map<DocId, VideoDocument>, ids: Option<set<string>>, n: nat)
    requires forall id :: id in videos ==> id < n
    ensures DocIdAndData(Select(videos, ids, n)) == map id | id in videos && Selected(videos, ids, id) :: videos[id]
  {
    SelectIsExact(videos, ids, n);
    FoldOfSelected(Select(videos, ids, n), videos, ids);
  }

  /** A sequence holding each selected document once, with its data, folds into the selected part of the collection. */
  lemma FoldOfSelected(docs: seq<QueryDoc<VideoDocument>>, videos: map<DocId, VideoDocument>, ids: Option<set<string>>)
    requires forall i, j :: 0 <= i < j < |docs| ==> docs[i].id < docs[j].id
    requires forall i :: 0 <= i < |docs| ==> Selected(videos, ids, docs[i].id) && docs[i].data == videos[docs[i].id]
    requires forall id :: id in videos && Selected(videos, ids, id) ==> exists i :: 0 <= i < |docs| && docs[i].id == id
    ensures DocIdAndData(docs) == map id | id in videos && Selected(videos, ids, id) :: videos[id]
  {
    FoldKeysSelected(docs, videos, ids);
    FoldValuesSelected(docs, videos, ids);
    MapExtensionality(DocIdAndData(docs), map id | id in videos && Selected(videos, ids, id) :: videos[id]);
  }

  lemma MapExtensionality<K, V>(m: map<K, V>, w: map<K, V>)
    requires forall k :: k in m <==> k in w
    requires forall k :: k in m ==> m[k] == w[k]
    ensures m == w
  {
  }

  /** The fold's keys are the selected ids. */
  lemma FoldKeysSelected(docs: seq<QueryDoc<VideoDocument>>, videos: map<DocId, VideoDocument>, ids: Option<set<string>>)
    requires forall i :: 0 <= i < |docs| ==> Selected(videos, ids, docs[i].id)
    requires forall id :: id in videos && Selected(videos, ids, id) ==> exists i :: 0 <= i < |docs| && docs[i].id == id
    ensures forall id :: id in DocIdAndData(docs) <==> id in videos && Selected(videos, ids, id)
  {
    DocIdAndDataKeys(docs);
  }

  /** The fold's values are the stored documents. */
  lemma FoldValuesSelected(docs: seq<QueryDoc<VideoDocument>>, videos: map<DocId, VideoDocument>, ids: Option<set<string>>)
    requires forall i, j :: 0 <= i < j < |docs| ==> docs[i].id < docs[j].id
    requires forall i :: 0 <= i < |docs| ==> docs[i].id in videos && docs[i].data == videos[docs[i].id]
    ensures forall id :: id in DocIdAndData(docs) ==> id in videos && DocIdAndData(docs)[id] == videos[id]
  {
    DocIdAndDataKeys(docs);
    assert DistinctIds(docs);
    forall id | id in DocIdAndData(docs) ensures id in videos && DocIdAndData(docs)[id] == videos[id] {
      var i :| 0 <= i < |docs| && docs[i].id == id;
      DocIdAndDataAt(docs, i);
    }
  }

  /**
   * `getVideos()`: the whole collection as document id to data; `{}` when
   * the snapshot has no document.
   */
  function GetVideos(db: Db): (r: map<DocId, VideoDocument>)
    requires db.Valid()
    ensures r == db.videos
  {
    var docs := Select(db.videos, None, db.nextId);
    SelectFold(db.videos, None, db.nextId);
    if ExistsOf(QuerySnapshot(docs)) != Ok(true) then map[] else DocIdAndData(docs)
  }

  /** `where("videoId", "in", videoIds)`: the store refuses an empty list and one over its limit. */
  predicate InFilterAccepted(videoIds: seq<string>)
  {
    0 < |videoIds| <= MaxInValues
  }

  /**
   * `getByVideoIdsInTx(tx, videoIds)`: the documents whose `videoId` is in
   * the list, read through the transaction and so from the state it started
   * on (`snapshot`), each once, in the store's order.
   */
  function GetByVideoIdsInTx(snapshot: Db, videoIds: seq<string>): (r: Result<seq<QueryDoc<VideoDocument>>, StoreError>)
    requires snapshot.Valid()
    ensures r.Err? <==> !InFilterAccepted(videoIds)
    ensures r.Err? ==> r.error == InvalidQuery
    ensures r.Ok? ==>
              && IsQueryResult(r.value)
              && (forall i, j :: 0 <= i < j < |r.value| ==> r.value[i].id < r.value[j].id)
              && (forall i :: 0 <= i < |r.value| ==>
                    r.value[i].id in snapshot.videos && r.value[i].data == snapshot.videos[r.value[i].id]
                    && r.value[i].data.videoId in videoIds)
              && DocIdAndData(r.value) == map id | id in snapshot.videos && snapshot.videos[id].videoId in videoIds :: snapshot.videos[id]
  {
    if !InFilterAccepted(videoIds) then Err(InvalidQuery)
    else
      var docs := Select(snapshot.videos, Some(set v | v in videoIds), snapshot.nextId);
      InQueryExact(snapshot.videos, videoIds, snapshot.nextId);
      if ExistsOf(QuerySnapshot(docs)) != Ok(true) then Ok([]) else Ok(docs)
  }

  /** The `in` query's answer: the documents whose `videoId` is listed, in ascending id order. */
  lemma InQueryExact(videos: map<DocId, VideoDocument>, videoIds: seq<string>, n: nat)
    requires forall id :: id in videos ==> id < n
    ensures var docs := Select(videos, Some(set v | v in videoIds), n);
            && (forall i, j :: 0 <= i < j < |docs| ==> docs[i].id < docs[j].id)
            && (forall i :: 0 <= i < |docs| ==>
                  docs[i].id in videos && docs[i].data == videos[docs[i].id] && docs[i].data.videoId in videoIds)
            && DocIdAndData(docs) == map id | id in videos && videos[id].videoId in videoIds :: videos[id]
  {
    var ids := set v | v in videoIds;
    var docs := Select(videos, Some(ids), n);
    SelectIsExact(videos, Some(ids), n);
    SelectFold(videos, Some(ids), n);
    forall i | 0 <= i < |docs|
      ensures docs[i].id in videos && docs[i].data == videos[docs[i].id] && docs[i].data.videoId in videoIds
    {
      assert Selected(videos, Some(ids), docs[i].id);
      assert docs[i].data.videoId in ids;
    }
    assert forall id :: Selected(videos, Some(ids), id) <==> id in videos && videos[id].videoId in videoIds;
    MapExtensionality(map id | id in videos && Selected(videos, Some(ids), id) :: videos[id],
                      map id | id in videos && videos[id].videoId in videoIds :: videos[id]);
  }

  // ------------------------------------------------------- transaction writes

  /** `updateVideoInTx(tx, docId, doc)`. */
  method UpdateVideoInTx(tx: Transaction, docId: DocId, videoDocument: VideoDocument)
    modifies tx
    ensures tx.writes == old(tx.writes) + [UpdateVideo(docId, videoDocument)]
  {
    UpdateInTx(tx, docId, videoDocument);
  }

  /** `addViewHistoryInTx(tx, docId, history)`: a `set` at a new id of that video's `view-history`. */
  method AddViewHistoryInTx(fs: Firestore, tx: Transaction, videoDocId: DocId, viewHistory: ViewHistory)
    requires fs.Valid()
    modifies fs, tx
    ensures fs.Valid()
    ensures fs.db == old(fs.db).(nextId := old(fs.db.nextId) + 1)
    ensures tx.writes == old(tx.writes) + [SetSub(SubRef(HistoryKey(videoDocId), old(fs.db.nextId)), viewHistory, None)]
  {
    var id := fs.AllocateId();
    AddInTx(tx, SubRef(HistoryKey(videoDocId), id), viewHistory, None);
  }

  // ------------------------------------------------------------- batch writes

  /** `addVideoWithBatch(batch, doc)`: one `set` at a newly generated id, which it returns. */
  method AddVideoWithBatch(fs: Firestore, batch: WriteBatch, videoDoc: VideoDocument) returns (docId: DocId)
    requires fs.Valid()
    modifies fs, batch
    ensures fs.Valid()
    ensures docId == old(fs.db.nextId) && docId !in old(fs.db.videos)
    ensures fs.db == old(fs.db).(nextId := old(fs.db.nextId) + 1)
    ensures batch.ops == old(batch.ops) + [SetVideo(docId, videoDoc, None)]
  {
    docId := fs.AllocateId();
    SetWithBatch(batch, docId, videoDoc, None);
  }

  /** `addViewHistoryWithBatch(batch, docId, history)`: one `set` in that video's `view-history`. */
  method AddViewHistoryWithBatch(fs: Firestore, batch: WriteBatch, videoDocId: DocId, viewHistory: ViewHistory)
    requires fs.Valid()
    modifies fs, batch
    ensures fs.Valid()
    ensures fs.db == old(fs.db).(nextId := old(fs.db.nextId) + 1)
    ensures batch.ops == old(batch.ops) + [SetSub(SubRef(HistoryKey(videoDocId), old(fs.db.nextId)), viewHistory, None)]
  {
    var ref := AddSubDocumentWithBatch(fs, batch, videoDocId, SubCollectionName, viewHistory);
  }

  /** The writes `addVideos` enqueues: one `set` per document, at consecutive new ids. */
  function AddVideosOps(docs: seq<VideoDocument>, base: nat): (ops: seq<Op>)
    ensures |ops| == |docs|
    ensures forall i :: 0 <= i < |docs| ==> ops[i] == SetVideo(base + i, docs[i], None)
  {
    seq(|docs|, i requires 0 <= i < |docs| => SetVideo(base + i, docs[i], None))
  }

  /** `addVideos(docs)`: every document in one batch under a new id, then one commit. */
  method AddVideos(fs: Firestore, videoDocuments: seq<VideoDocument>) returns (r: Result<(), StoreError>)
    requires fs.Valid()
    modifies fs
    ensures fs.Valid()
    ensures var c := BatchCommit(old(fs.db).(nextId := old(fs.db.nextId) + |videoDocuments|),
                                 AddVideosOps(videoDocuments, old(fs.db.nextId)));
            (c.Ok? ==> r.Ok? && fs.db == c.value) && (c.Err? ==> r == Err(c.error))
  {
    var batch := StartBatch(fs);
    var base := fs.db.nextId;
    var i := 0;
    while i < |videoDocuments|
      invariant 0 <= i <= |videoDocuments|
      invariant fs.Valid()
      invariant fs.db == old(fs.db).(nextId := base + i)
      invariant batch.ops == AddVideosOps(videoDocuments[..i], base)
    {
      assert videoDocuments[..i + 1] == videoDocuments[..i] + [videoDocuments[i]];
      AddVideosOpsSnoc(videoDocuments[..i], videoDocuments[i], base);
      AddWithBatch(fs, batch, videoDocuments[i]);
      i := i + 1;
    }
    assert videoDocuments[..i] == videoDocuments;
    r := CommitBatch(fs, batch);
  }

  lemma AddVideosOpsSnoc(docs: seq<VideoDocument>, d: VideoDocument, base: nat)
    ensures AddVideosOps(docs + [d], base) == AddVideosOps(docs, base) + [SetVideo(base + |docs|, d, None)]
  {
    var a := AddVideosOps(docs + [d], base);
    var b := AddVideosOps(docs, base) + [SetVideo(base + |docs|, d, None)];
    assert |a| == |b|;
    forall i | 0 <= i < |a| ensures a[i] == b[i] {
      if i < |docs| { assert (docs + [d])[i] == docs[i]; }
    }
  }

  /** `set` of one new video document, followed by other writes. */
  lemma SetVideoCons(db: Db, id: DocId, v: VideoDocument, rest: seq<Op>)
    requires id < db.nextId
    ensures ApplyAll(db, [SetVideo(id, v, None)] + rest) == ApplyAll(db.(videos := db.videos[id := v]), rest)
  {
    assert ([SetVideo(id, v, None)] + rest)[0] == SetVideo(id, v, None);
    assert ([SetVideo(id, v, None)] + rest)[1..] == rest;
  }

  /**
   * From `before` to `after`, document `docs[i]` is stored at id `base + i`,
   * every other video document is as it was, and nothing but the videos
   * changed.
   */
  ghost predicate VideosAdded(before: Db, after: Db, docs: seq<VideoDocument>, base: nat)
  {
    && (forall i :: 0 <= i < |docs| ==> base + i in after.videos && after.videos[base + i] == docs[i])
    && (forall id :: id in after.videos <==> id in before.videos || base <= id < base + |docs|)
    && (forall id :: id in before.videos && !(base <= id < base + |docs|) ==> after.videos[id] == before.videos[id])
    && after.(videos := before.videos) == before
  }

  lemma VideosAddedStep(db: Db, d1: Db, d: Db, docs: seq<VideoDocument>, base: nat)
    requires docs != []
    requires d1 == db.(videos := db.videos[base := docs[0]])
    requires VideosAdded(d1, d, docs[1..], base + 1)
    ensures VideosAdded(db, d, docs, base)
  {
    assert forall i :: 1 <= i < |docs| ==> docs[1..][i - 1] == docs[i];
    forall i | 0 <= i < |docs| ensures base + i in d.videos && d.videos[base + i] == docs[i] {
      if i > 0 { assert base + i == (base + 1) + (i - 1); }
    }
  }

  /**
   * The writes of `addVideos` at ids the allocator has handed out: they all
   * apply, each document is stored at its id, and nothing else changes.
   */
  lemma {:induction false} AddVideosEffect(db: Db, docs: seq<VideoDocument>, base: nat)
    requires base + |docs| <= db.nextId
    ensures ApplyAll(db, AddVideosOps(docs, base)).Ok?
    ensures VideosAdded(db, After(db, AddVideosOps(docs, base)), docs, base)
    decreases |docs|
  {
    if docs != [] {
      var d1 := db.(videos := db.videos[base := docs[0]]);
      var rest := AddVideosOps(docs[1..], base + 1);
      assert AddVideosOps(docs, base) == [SetVideo(base, docs[0], None)] + rest;
      SetVideoCons(db, base, docs[0], rest);
      AddVideosEffect(d1, docs[1..], base + 1);
      VideosAddedStep(db, d1, After(d1, rest), docs, base);
    }
  }

  // --------------------------------------------------- created/updated repair

  /** `created` after the repair: the old `created` when it carries seconds, else the old `updated`. */
  function RepairedCreated(data: ViewHistory): (c: Option<Field>)
    ensures HasSeconds(data.created) ==> c == data.created
    ensures !HasSeconds(data.created) ==> c == data.updated
  {
    if Defined(data.created) && HasSeconds(data.created) then data.created else data.updated
  }

  /**
   * `updated` after the repair: the old `created` when it carries seconds,
   * else the old `updated` when it is set, else the server timestamp.
   */
  function RepairedUpdated(data: ViewHistory): (u: Field)
    ensures HasSeconds(data.created) ==> Some(u) == data.created
    ensures !HasSeconds(data.created) && Defined(data.updated) ==> Some(u) == data.updated
    ensures !HasSeconds(data.created) && !Defined(data.updated) ==> u == ServerTimestamp
  {
    if Defined(data.created) && HasSeconds(data.created) then data.created.value
    else if Defined(data.updated) then data.updated.value
    else ServerTimestamp
  }

  /** The repaired fields as the store keeps them. */
  function Repaired(data: ViewHistory): ViewHistory
  {
    data.(created := RepairedCreated(data), updated := Some(RepairedUpdated(data)))
  }

  /** The repair makes both fields equal exactly when there was a usable time to copy. */
  lemma RepairAlignsFieldsIff(data: ViewHistory)
    ensures RepairedCreated(data) == Some(RepairedUpdated(data)) <==> HasSeconds(data.created) || Defined(data.updated)
  {
  }

  /**
   * Repairing twice is repairing once when the first pass leaves a `created`
   * with seconds; a document with neither field set is not a fixed point.
   */
  lemma RepairIdempotentWhenSecondsFound(data: ViewHistory)
    ensures HasSeconds(data.created) || HasSeconds(data.updated) ==> Repaired(Repaired(data)) == Repaired(data)
    ensures data.created.None? && data.updated.None? ==>
              Repaired(data).created.None? && Repaired(Repaired(data)).created == Some(ServerTimestamp)
  {
  }

  /** A document of a `view-history` page: its reference and its data. */
  datatype PageDoc = PageDoc(ref: SubRef, data: ViewHistory)

  /** The updates one page of the repair enqueues, one per document, in page order. */
  function RepairOps(page: seq<PageDoc>): (ops: seq<Op>)
    ensures |ops| == |page|
    ensures forall i :: 0 <= i < |page| ==>
              ops[i] == UpdateSubTimes(page[i].ref, RepairedCreated(page[i].data), RepairedUpdated(page[i].data))
    decreases |page|
  {
    if page == [] then []
    else [UpdateSubTimes(page[0].ref, RepairedCreated(page[0].data), RepairedUpdated(page[0].data))] + RepairOps(page[1..])
  }

  datatype FixProgress = FixProgress(lastDocId: Option<DocId>, batchCount: int, totalFixed: int)

  datatype FixError = Complete | CommitFailed(error: StoreError)

  /** The document a reference points to is present. */
  ghost predicate HasDoc(db: Db, ref: SubRef)
  {
    IndexOf(SubsAt(db, ref.key), ref.id) < |SubsAt(db, ref.key)|
  }

  /** A repair update keeps every document in place. */
  lemma RepairUpdateKeepsDocs(db: Db, ref: SubRef, c: Option<Field>, u: Field, other: SubRef)
    requires HasDoc(db, ref) && HasDoc(db, other)
    ensures ApplyOp(db, UpdateSubTimes(ref, c, u)).Ok?
    ensures HasDoc(ApplyOp(db, UpdateSubTimes(ref, c, u)).value, other)
  {
    var d := ApplyOp(db, UpdateSubTimes(ref, c, u)).value;
    var s := SubsAt(db, other.key);
    var t := SubsAt(d, other.key);
    var i := IndexOf(s, other.id);
    assert |t| == |s| && forall j :: 0 <= j < |s| ==> t[j].id == s[j].id;
    assert t[i].id == other.id;
    if IndexOf(t, other.id) >= |t| {
      assert false;
    }
  }

  /** A page read from the store commits: none of its updates misses its document. */
  lemma {:induction false} RepairCommits(db: Db, page: seq<PageDoc>)
    requires forall i :: 0 <= i < |page| ==> HasDoc(db, page[i].ref)
    ensures ApplyAll(db, RepairOps(page)).Ok?
    decreases |page|
  {
    if page != [] {
      var op := RepairOps(page)[0];
      forall i | 0 <= i < |page| ensures HasDoc(ApplyOp(db, op).value, page[i].ref) {
        RepairUpdateKeepsDocs(db, page[0].ref, RepairedCreated(page[0].data), RepairedUpdated(page[0].data), page[i].ref);
      }
      assert RepairOps(page)[1..] == RepairOps(page[1..]);
      RepairCommits(ApplyOp(db, op).value, page[1..]);
    }
  }

  /**
   * `fixViewHistoryCreatedAndUpdated(lastDocId, batchCount, totalFixed)` on
   * one page of the `view-history` collection group (the page the cursor
   * query returns): an empty page ends the run with "complete"; otherwise one
   * batch of repair updates is committed and the counters advance.
   */
  method FixViewHistoryCreatedAndUpdated(fs: Firestore, page: seq<PageDoc>, lastDocId: Option<DocId>,
                                         batchCount: int, totalFixed: int)
    returns (r: Result<FixProgress, FixError>)
    requires fs.Valid()
    requires |page| <= RepairPageLimit
    modifies fs
    ensures fs.Valid()
    ensures page == [] ==> r == Err(Complete) && fs.db == old(fs.db)
    ensures page != [] ==>
              var c := BatchCommit(old(fs.db), RepairOps(page));
              && (c.Err? ==> r == Err(CommitFailed(c.error)) && fs.db == old(fs.db))
              && (c.Ok? ==> fs.db == c.value &&
                            r == Ok(FixProgress(Some(page[|page| - 1].ref.id), batchCount + 1, totalFixed + |page|)))
  {
    var nextBatchCount := batchCount + 1;
    if page == [] {
      return Err(Complete);
    }
    var batch := fs.StartBatch();
    EnqueueRepairs(batch, page);
    var c := fs.CommitBatch(batch);
    if c.Err? {
      return Err(CommitFailed(c.error));
    }
    var nextTotal := totalFixed + |page|;
    var last := if |page| > 0 then Some(page[|page| - 1].ref.id) else None;
    r := Ok(FixProgress(last, nextBatchCount, nextTotal));
  }

  /** The repair's loop over one page: one update of `created` and `updated` per document, in page order. */
  method EnqueueRepairs(batch: WriteBatch, page: seq<PageDoc>)
    requires batch.ops == []
    modifies batch
    ensures batch.ops == RepairOps(page)
  {
    var i := 0;
    while i < |page|
      invariant 0 <= i <= |page|
      invariant batch.ops == RepairOps(page[..i])
    {
      var data := page[i].data;
      var created := RepairedCreated(data);
      var updated: Field;
      if Defined(data.created) && HasSeconds(data.created) {
        updated := data.created.value;
      } else if Defined(data.updated) {
        updated := data.updated.value;
      } else {
        updated := ServerTimestamp;
      }
      assert RepairOps(page[..i + 1]) == RepairOps(page[..i]) + [UpdateSubTimes(page[i].ref, created, updated)] by {
        RepairOpsSnoc(page[..i], page[i]);
        assert page[..i + 1] == page[..i] + [page[i]];
      }
      batch.Enqueue(UpdateSubTimes(page[i].ref, created, updated));
      i := i + 1;
    }
    assert page[..i] == page;
  }

  lemma RepairOpsSnoc(page: seq<PageDoc>, d: PageDoc)
    ensures RepairOps(page + [d]) == RepairOps(page) + [UpdateSubTimes(d.ref, RepairedCreated(d.data), RepairedUpdated(d.data))]
  {
    var a := RepairOps(page + [d]);
    var b := RepairOps(page) + [UpdateSubTimes(d.ref, RepairedCreated(d.data), RepairedUpdated(d.data))];
    assert |a| == |b|;
    forall i | 0 <= i < |a| ensures a[i] == b[i] {
      if i < |page| { assert (page + [d])[i] == page[i]; }
    }
  }

  // ------------------------------------------------------ date-range reading

  /** `isEmptyMap(x)`: `x` is an object with no keys. */
  predicate IsEmptyMap(f: Option<Field>)
  {
    f.Some? && f.value.Object? && |f.value.entries| == 0
  }

  /** `isEmptyMap` holds of exactly the empty plain object `{}`. */
  lemma IsEmptyMapIffEmptyObject(f: Option<Field>)
    ensures IsEmptyMap(f) <==> f == Some(Object(map[]))
  {
    if IsEmptyMap(f) {
      assert f.value.entries == map[];
    }
  }

  /**
   * `canAlternateWithUpdated(doc)`: when `created` is missing or `{}`, the
   * document passes only if `updated` is not set either; otherwise it passes
   * when `created` is a Timestamp.
   */
  predicate CanAlternateWithUpdated(h: ViewHistory)
  {
    if !Defined(h.created) || IsEmptyMap(h.created) then !Defined(h.updated)
    else h.created.value.Timestamp?
  }

  /**
   * The filter's two cases, stated outright: a falsy `created` (missing, `0` or
   * `""`) or `{}` passes iff `updated` is unset; any other `created`
   * passes iff it is a Timestamp.
   */
  lemma CanAlternateCases(h: ViewHistory)
    ensures (!Defined(h.created) || IsEmptyMap(h.created)) ==>
              (CanAlternateWithUpdated(h) <==> !Defined(h.updated))
    ensures (Defined(h.created) && !IsEmptyMap(h.created)) ==>
              (CanAlternateWithUpdated(h) <==> h.created.value.Timestamp?)
    ensures h.created == Some(Object(map[])) ==> IsEmptyMap(h.created)
    ensures h.created.Some? && h.created.value.Timestamp? ==> CanAlternateWithUpdated(h)
  {
  }

  /** The sort key of the `created` ascending order: seconds, nanoseconds, then document id. */
  function CreatedSeconds(d: SubDoc): int
  {
    if d.data.created.Some? && d.data.created.value.Timestamp? then d.data.created.value.seconds else 0
  }

  function CreatedNanos(d: SubDoc): int
  {
    if d.data.created.Some? && d.data.created.value.Timestamp? then d.data.created.value.nanoseconds else 0
  }

  predicate KeyLe(a: SubDoc, b: SubDoc)
  {
    CreatedSeconds(a) < CreatedSeconds(b) ||
    (CreatedSeconds(a) == CreatedSeconds(b) &&
     (CreatedNanos(a) < CreatedNanos(b) || (CreatedNanos(a) == CreatedNanos(b) && a.id <= b.id)))
  }

  predicate SortedByCreated(s: seq<SubDoc>)
  {
    forall i, j :: 0 <= i < j < |s| ==> KeyLe(s[i], s[j])
  }

  function InsertByCreated(d: SubDoc, s: seq<SubDoc>): (r: seq<SubDoc>)
    ensures multiset(r) == multiset(s) + multiset{d}
    decreases |s|
  {
    if s == [] then [d]
    else if KeyLe(d, s[0]) then [d] + s
    else
      assert s == [s[0]] + s[1..];
      [s[0]] + InsertByCreated(d, s[1..])
  }

  lemma {:induction false} InsertKeepsSorted(d: SubDoc, s: seq<SubDoc>)
    requires SortedByCreated(s)
    ensures SortedByCreated(InsertByCreated(d, s))
    decreases |s|
  {
    if s != [] && !KeyLe(d, s[0]) {
      SortedTail(s);
      InsertKeepsSorted(d, s[1..]);
      HeadBelowInserted(d, s);
      SortedCons(s[0], InsertByCreated(d, s[1..]));
    }
  }

  lemma SortedTail(s: seq<SubDoc>)
    requires s != [] && SortedByCreated(s)
    ensures SortedByCreated(s[1..])
  {
    var tail := s[1..];
    forall i, j | 0 <= i < j < |tail| ensures KeyLe(tail[i], tail[j]) {
      assert tail[i] == s[i + 1] && tail[j] == s[j + 1];
    }
  }

  /** Everything `d` is inserted among sorts after the head it was not placed before. */
  lemma HeadBelowInserted(d: SubDoc, s: seq<SubDoc>)
    requires s != [] && SortedByCreated(s) && !KeyLe(d, s[0])
    ensures forall j :: 0 <= j < |InsertByCreated(d, s[1..])| ==> KeyLe(s[0], InsertByCreated(d, s[1..])[j])
  {
    var tail := s[1..];
    var rest := InsertByCreated(d, tail);
    forall j | 0 <= j < |rest| ensures KeyLe(s[0], rest[j]) {
      assert rest[j] in multiset(rest);
      if rest[j] != d {
        assert rest[j] in multiset(tail);
        var k :| 0 <= k < |tail| && tail[k] == rest[j];
        assert tail[k] == s[k + 1];
      }
    }
  }

  lemma SortedCons(x: SubDoc, rest: seq<SubDoc>)
    requires SortedByCreated(rest)
    requires forall j :: 0 <= j < |rest| ==> KeyLe(x, rest[j])
    ensures SortedByCreated([x] + rest)
  {
    var r := [x] + rest;
    forall i, j | 0 <= i < j < |r| ensures KeyLe(r[i], r[j]) {
      if i == 0 {
        assert r[j] == rest[j - 1];
      } else {
        assert r[i] == rest[i - 1] && r[j] == rest[j - 1];
      }
    }
  }

  /** `orderBy("created", "asc")`. */
  function SortByCreated(s: seq<SubDoc>): (r: seq<SubDoc>)
    ensures multiset(r) == multiset(s)
    decreases |s|
  {
    if s == [] then []
    else
      assert s == [s[0]] + s[1..];
      InsertByCreated(s[0], SortByCreated(s[1..]))
  }

  lemma {:induction false} SortIsSorted(s: seq<SubDoc>)
    ensures SortedByCreated(SortByCreated(s))
    decreases |s|
  {
    if s != [] {
      SortIsSorted(s[1..]);
      InsertKeepsSorted(s[0], SortByCreated(s[1..]));
    }
  }

  /** `where("created", ">=", from).where("created", "<", to)`: a Timestamp `created` in `[from, to)`. */
  predicate CreatedInRange(h: ViewHistory, from: Field, to: Field)
    requires from.Timestamp? && to.Timestamp?
  {
    h.created.Some? && h.created.value.Timestamp? && !Before(h.created.value, from) && Before(h.created.value, to)
  }

  function FilterInRange(s: seq<SubDoc>, from: Field, to: Field): (r: seq<SubDoc>)
    requires from.Timestamp? && to.Timestamp?
    ensures forall d :: d in r <==> d in s && CreatedInRange(d.data, from, to)
    decreases |s|
  {
    if s == [] then []
    else
      assert s == [s[0]] + s[1..];
      (if CreatedInRange(s[0].data, from, to) then [s[0]] else []) + FilterInRange(s[1..], from, to)
  }

  function FilterCanAlternate(s: seq<SubDoc>): (r: seq<SubDoc>)
    ensures forall d :: d in r <==> d in s && CanAlternateWithUpdated(d.data)
    decreases |s|
  {
    if s == [] then []
    else (if CanAlternateWithUpdated(s[0].data) then [s[0]] else []) + FilterCanAlternate(s[1..])
  }

  /** Every document the range query returns passes the filter: the filter is then the identity. */
  lemma {:induction false} FilterIsIdentityOnRange(s: seq<SubDoc>, from: Field, to: Field)
    requires from.Timestamp? && to.Timestamp?
    requires forall i :: 0 <= i < |s| ==> CreatedInRange(s[i].data, from, to)
    ensures FilterCanAlternate(s) == s
    decreases |s|
  {
    if s != [] {
      assert CreatedInRange(s[0].data, from, to);
      FilterIsIdentityOnRange(s[1..], from, to);
    }
  }

  function DocsToQueryDocs(s: seq<SubDoc>): (r: seq<QueryDoc<ViewHistory>>)
    ensures |r| == |s|
    ensures forall i :: 0 <= i < |s| ==> r[i] == QueryDoc(s[i].id, true, s[i].data)
    decreases |s|
  {
    if s == [] then [] else [QueryDoc(s[0].id, true, s[0].data)] + DocsToQueryDocs(s[1..])
  }

  function RefsOf(k: SubKey, s: seq<SubDoc>): (r: seq<SubRef>)
    ensures |r| == |s|
    ensures forall i :: 0 <= i < |s| ==> r[i] == SubRef(k, s[i].id)
    decreases |s|
  {
    if s == [] then [] else [SubRef(k, s[0].id)] + RefsOf(k, s[1..])
  }

  datatype HistoriesBetween = HistoriesBetween(docIdAndData: map<DocId, ViewHistory>, docRefs: seq<SubRef>)

  /** The documents the range query returns and the filter keeps, in order. */
  function HistoriesInRange(db: Db, videoDocId: DocId, from: Field, to: Field): (s: seq<SubDoc>)
    requires from.Timestamp? && to.Timestamp?
  {
    FilterCanAlternate(SortByCreated(FilterInRange(SubsAt(db, HistoryKey(videoDocId)), from, to)))
  }

  /** Distinct ids allow each document at most once. */
  lemma {:induction false} DistinctCountsOnce(s: seq<SubDoc>, d: SubDoc)
    requires DistinctDocIds(s)
    ensures multiset(s)[d] <= 1
    decreases |s|
  {
    if s != [] {
      var tail := s[1..];
      assert s == [s[0]] + tail;
      assert DistinctDocIds(tail) by {
        forall i, j | 0 <= i < j < |tail| ensures tail[i].id != tail[j].id {
          assert tail[i] == s[i + 1] && tail[j] == s[j + 1];
        }
      }
      DistinctCountsOnce(tail, d);
      if d == s[0] {
        assert d !in tail by {
          forall k | 0 <= k < |tail| ensures tail[k] != d {
            assert tail[k] == s[k + 1];
          }
        }
      }
    }
  }

  /** Taking part of a sub-collection, in any order, keeps its ids distinct. */
  lemma SubMultisetDistinct(r: seq<SubDoc>, s: seq<SubDoc>)
    requires DistinctDocIds(s) && multiset(r) <= multiset(s)
    ensures DistinctDocIds(r)
  {
    forall i, j | 0 <= i < j < |r| ensures r[i].id != r[j].id {
      if r[i] == r[j] {
        assert r == r[..j] + r[j..];
        assert r[i] in r[..j] && r[j] in r[j..];
        assert multiset(r)[r[i]] == multiset(r[..j])[r[i]] + multiset(r[j..])[r[i]];
        DistinctCountsOnce(s, r[i]);
      } else {
        assert r[i] in multiset(s) && r[j] in multiset(s);
        var a :| 0 <= a < |s| && s[a] == r[i];
        var b :| 0 <= b < |s| && s[b] == r[j];
        assert a != b;
      }
    }
  }

  lemma {:induction false} FilterInRangeIsPart(s: seq<SubDoc>, from: Field, to: Field)
    requires from.Timestamp? && to.Timestamp?
    ensures multiset(FilterInRange(s, from, to)) <= multiset(s)
    decreases |s|
  {
    if s != [] {
      assert s == [s[0]] + s[1..];
      FilterInRangeIsPart(s[1..], from, to);
    }
  }

  /** Folded by id, documents with distinct ids keep their data under their own ids. */
  lemma FoldValues(s: seq<SubDoc>)
    requires DistinctDocIds(s)
    ensures forall i :: 0 <= i < |s| ==>
              s[i].id in DocIdAndData(DocsToQueryDocs(s)) && DocIdAndData(DocsToQueryDocs(s))[s[i].id] == s[i].data
  {
    var qdocs := DocsToQueryDocs(s);
    assert DistinctIds(qdocs);
    forall i | 0 <= i < |s| ensures s[i].id in DocIdAndData(qdocs) && DocIdAndData(qdocs)[s[i].id] == s[i].data {
      DocIdAndDataAt(qdocs, i);
    }
  }

  /** The range's documents have distinct ids when their sub-collection has. */
  lemma HistoriesInRangeDistinct(db: Db, videoDocId: DocId, from: Field, to: Field)
    requires from.Timestamp? && to.Timestamp?
    requires DistinctDocIds(SubsAt(db, HistoryKey(videoDocId)))
    ensures DistinctDocIds(HistoriesInRange(db, videoDocId, from, to))
  {
    var stored := SubsAt(db, HistoryKey(videoDocId));
    HistoriesInRangeSpec(db, videoDocId, from, to);
    FilterInRangeIsPart(stored, from, to);
    SubMultisetDistinct(HistoriesInRange(db, videoDocId, from, to), stored);
  }

  /**
   * `getViewHistoriesBetween(docId, from, to)`: the documents of
   * `HistoriesInRange`, as a record of id to data and as references; the
   * store keeps ids unique within a sub-collection (`ApplyAllKeepsDistinct`),
   * so each document's data is the record's value at its id.
   */
  function GetViewHistoriesBetween(db: Db, videoDocId: DocId, from: Field, to: Field): (r: HistoriesBetween)
    requires from.Timestamp? && to.Timestamp?
    requires DistinctDocIds(SubsAt(db, HistoryKey(videoDocId)))
    ensures r.docRefs == RefsOf(HistoryKey(videoDocId), HistoriesInRange(db, videoDocId, from, to))
    ensures r.docIdAndData.Keys == set i | 0 <= i < |r.docRefs| :: r.docRefs[i].id
    ensures forall i :: 0 <= i < |HistoriesInRange(db, videoDocId, from, to)| ==>
              r.docIdAndData[HistoriesInRange(db, videoDocId, from, to)[i].id] == HistoriesInRange(db, videoDocId, from, to)[i].data
  {
    var filtered := HistoriesInRange(db, videoDocId, from, to);
    var qdocs := DocsToQueryDocs(filtered);
    DocIdAndDataKeys(qdocs);
    var refs := RefsOf(HistoryKey(videoDocId), filtered);
    assert (set i | 0 <= i < |qdocs| :: qdocs[i].id) == (set i | 0 <= i < |refs| :: refs[i].id) by {
      assert forall i :: 0 <= i < |refs| ==> refs[i].id == qdocs[i].id;
    }
    HistoriesInRangeDistinct(db, videoDocId, from, to);
    FoldValues(filtered);
    HistoriesBetween(DocIdAndData(qdocs), refs)
  }

  /**
   * What the read returns: the video's entries with `created` in `[from, to)`,
   * each exactly as often as stored, in ascending `created` order, all of
   * them passing `canAlternateWithUpdated`.
   */
  lemma HistoriesInRangeSpec(db: Db, videoDocId: DocId, from: Field, to: Field)
    requires from.Timestamp? && to.Timestamp?
    ensures SortedByCreated(HistoriesInRange(db, videoDocId, from, to))
    ensures multiset(HistoriesInRange(db, videoDocId, from, to)) ==
            multiset(FilterInRange(SubsAt(db, HistoryKey(videoDocId)), from, to))
    ensures forall d :: d in HistoriesInRange(db, videoDocId, from, to) ==>
              d in SubsAt(db, HistoryKey(videoDocId)) && CreatedInRange(d.data, from, to) && CanAlternateWithUpdated(d.data)
  {
    var inRange := FilterInRange(SubsAt(db, HistoryKey(videoDocId)), from, to);
    var queried := SortByCreated(inRange);
    SortIsSorted(inRange);
    forall i | 0 <= i < |queried| ensures CreatedInRange(queried[i].data, from, to) {
      assert queried[i] in multiset(inRange);
    }
    FilterIsIdentityOnRange(queried, from, to);
    assert HistoriesInRange(db, videoDocId, from, to) == queried;
    forall d | d in queried ensures d in inRange {
      assert d in multiset(queried);
    }
  }

  // ------------------------------------------------------------ chunked delete

  /** The caller's array of references, which the delete shrinks in place. */
  class RefArray {
    var elems: seq<SubRef>

    constructor (elems: seq<SubRef>)
      ensures this.elems == elems
    {
      this.elems := elems;
    }
  }

  function Min(a: int, b: int): int
  {
    if a <= b then a else b
  }

  /** The deletes of one batch, one per reference, in order. */
  function DeleteOps(refs: seq<SubRef>): (ops: seq<Op>)
    ensures |ops| == |refs|
    ensures forall i :: 0 <= i < |refs| ==> ops[i] == DeleteSub(refs[i])
    decreases |refs|
  {
    if refs == [] then [] else DeleteOps(refs[..|refs| - 1]) + [DeleteSub(refs[|refs| - 1])]
  }

  /**
   * The batches committed one after another, each on its own: a refused
   * batch leaves the database as it was and the others still apply; the
   * flag tells whether every commit succeeded.
   */
  function CommitEach(db: Db, batches: seq<seq<SubRef>>): (r: (Db, bool))
    decreases |batches|
  {
    if batches == [] then (db, true)
    else
      var (d, ok) := CommitEach(db, batches[..|batches| - 1]);
      match BatchCommit(d, DeleteOps(batches[|batches| - 1]))
      case Ok(d') => (d', ok)
      case Err(_) => (d, false)
  }

  /**
   * The loop of `deleteViewHistriesWithRefs` AS WRITTEN, from index `i`:
   * `splice(i, i + BATCH_SIZE)` removes up to `i + 500` references starting
   * at `i` from the array it is iterating, then `i` advances by 500. The
   * result is the batches and what is left in the array.
   */
  function SpliceLoop(s: seq<SubRef>, i: nat): (r: (seq<seq<SubRef>>, seq<SubRef>))
    decreases |s| - i
  {
    if i >= |s| then ([], s)
    else
      var end := Min(i + (i + BatchSize), |s|);
      var rest := SpliceLoop(s[..i] + s[end..], i + BatchSize);
      ([s[i..end]] + rest.0, rest.1)
  }

  /** `refs.forEach((ref) => batch.delete(ref))` on a new batch. */
  method EnqueueDeletes(batch: WriteBatch, refs: seq<SubRef>)
    requires batch.ops == []
    modifies batch
    ensures batch.ops == DeleteOps(refs)
  {
    var j := 0;
    while j < |refs|
      invariant 0 <= j <= |refs|
      invariant batch.ops == DeleteOps(refs[..j])
    {
      assert refs[..j + 1][..j] == refs[..j];
      batch.Enqueue(DeleteSub(refs[j]));
      j := j + 1;
    }
    assert refs[..j] == refs;
  }

  /**
   * `deleteViewHistriesWithRefs(refs)` as written: batches cut by `splice`
   * from the argument array, each committed (concurrently in the source, one
   * after another here).
   */
  method DeleteViewHistriesWithRefsAsWritten(fs: Firestore, refs: RefArray) returns (r: Result<(), StoreError>, ghost batches: seq<seq<SubRef>>)
    requires fs.Valid()
    modifies fs, refs
    ensures fs.Valid()
    ensures (batches, refs.elems) == SpliceLoop(old(refs.elems), 0)
    ensures fs.db == CommitEach(old(fs.db), batches).0
    ensures r.Ok? <==> CommitEach(old(fs.db), batches).1
  {
    var i: nat := 0;
    batches := [];
    var ok := true;
    assert batches + SpliceLoop(refs.elems, i).0 == SpliceLoop(refs.elems, i).0;
    while i < |refs.elems|
      invariant fs.Valid()
      invariant SpliceLoop(old(refs.elems), 0) ==
                (batches + SpliceLoop(refs.elems, i).0, SpliceLoop(refs.elems, i).1)
      invariant (fs.db, ok) == CommitEach(old(fs.db), batches)
      decreases |refs.elems| - i
    {
      ghost var before := refs.elems;
      var removed, committed := SpliceAndCommit(fs, refs, i);
      SpliceProgress(old(refs.elems), batches, before, i, removed, refs.elems);
      CommitEachSnoc(old(fs.db), batches, removed);
      if !committed {
        ok := false;
      }
      batches := batches + [removed];
      i := i + BatchSize;
    }
    assert batches + SpliceLoop(refs.elems, i).0 == batches;
    r := if ok then Ok(()) else Err(TooManyWrites);
  }

  /**
   * One pass of the loop as written: `splice(i, i + BATCH_SIZE)` cuts the
   * batch out of the array, whose deletes are then committed.
   */
  method SpliceAndCommit(fs: Firestore, refs: RefArray, i: nat) returns (removed: seq<SubRef>, committed: bool)
    requires fs.Valid() && i < |refs.elems|
    modifies fs, refs
    ensures fs.Valid()
    ensures SpliceLoop(old(refs.elems), i) ==
            ([removed] + SpliceLoop(refs.elems, i + BatchSize).0, SpliceLoop(refs.elems, i + BatchSize).1)
    ensures |refs.elems| < |old(refs.elems)|
    ensures match BatchCommit(old(fs.db), DeleteOps(removed))
            case Ok(d) => committed && fs.db == d
            case Err(_) => !committed && fs.db == old(fs.db)
  {
    var batch := fs.StartBatch();
    var end := Min(i + (i + BatchSize), |refs.elems|);
    removed := refs.elems[i..end];
    refs.elems := refs.elems[..i] + refs.elems[end..];
    EnqueueDeletes(batch, removed);
    var c := fs.CommitBatch(batch);
    committed := c.Ok?;
  }

  /** The batches so far and the loop's rest, after one more pass. */
  lemma SpliceProgress(s0: seq<SubRef>, batches: seq<seq<SubRef>>, s: seq<SubRef>, i: nat, removed: seq<SubRef>, s': seq<SubRef>)
    requires SpliceLoop(s0, 0) == (batches + SpliceLoop(s, i).0, SpliceLoop(s, i).1)
    requires SpliceLoop(s, i) == ([removed] + SpliceLoop(s', i + BatchSize).0, SpliceLoop(s', i + BatchSize).1)
    ensures SpliceLoop(s0, 0) == ((batches + [removed]) + SpliceLoop(s', i + BatchSize).0, SpliceLoop(s', i + BatchSize).1)
  {
    assert batches + ([removed] + SpliceLoop(s', i + BatchSize).0) == (batches + [removed]) + SpliceLoop(s', i + BatchSize).0;
  }

  /** One more batch committed on its own. */
  lemma CommitEachSnoc(db: Db, batches: seq<seq<SubRef>>, b: seq<SubRef>)
    ensures CommitEach(db, batches + [b]) ==
            match BatchCommit(CommitEach(db, batches).0, DeleteOps(b))
            case Ok(d) => (d, CommitEach(db, batches).1)
            case Err(_) => (CommitEach(db, batches).0, false)
  {
    assert (batches + [b])[..|batches|] == batches;
  }

  /** `doc` is in sub-collection `k` after the deletes exactly when it was there before and is not referenced. */
  ghost predicate Kept(before: Db, after: Db, refs: seq<SubRef>, k: SubKey, doc: SubDoc)
  {
    doc in SubsAt(after, k) <==> doc in SubsAt(before, k) && SubRef(k, doc.id) !in refs
  }

  /** Deleting by references: a delete never fails, and exactly the referenced documents are gone. */
  lemma {:induction false} DeleteAllEffect(db: Db, refs: seq<SubRef>)
    ensures ApplyAll(db, DeleteOps(refs)).Ok?
    ensures var d := ApplyAll(db, DeleteOps(refs)).value;
            d.videos == db.videos && d.news == db.news && d.nextId == db.nextId
    ensures forall k, doc :: Kept(db, ApplyAll(db, DeleteOps(refs)).value, refs, k, doc)
    decreases |refs|
  {
    if refs != [] {
      var init := refs[..|refs| - 1];
      var last := refs[|refs| - 1];
      assert refs == init + [last];
      DeleteAllEffect(db, init);
      ApplyAllConcat(db, DeleteOps(init), [DeleteSub(last)]);
      var mid := ApplyAll(db, DeleteOps(init)).value;
      assert DeleteOps(refs) == DeleteOps(init) + [DeleteSub(last)];
      var fin := ApplyOp(mid, DeleteSub(last)).value;
      assert ApplyAll(mid, [DeleteSub(last)]) == Ok(fin);
      assert ApplyAll(db, DeleteOps(refs)) == Ok(fin);
      forall k, doc
        ensures Kept(db, fin, refs, k, doc)
      {
        assert Kept(db, mid, init, k, doc);
        assert SubRef(k, doc.id) in refs <==> SubRef(k, doc.id) in init || SubRef(k, doc.id) == last;
      }
    }
  }

  /** After the deletes no referenced document is left. */
  lemma DeletedAreGone(db: Db, refs: seq<SubRef>, ref: SubRef)
    requires ref in refs
    ensures ApplyAll(db, DeleteOps(refs)).Ok?
    ensures forall doc :: doc in SubsAt(ApplyAll(db, DeleteOps(refs)).value, ref.key) ==> doc.id != ref.id
  {
    DeleteAllEffect(db, refs);
    forall doc | doc in SubsAt(ApplyAll(db, DeleteOps(refs)).value, ref.key) ensures doc.id != ref.id {
      assert Kept(db, ApplyAll(db, DeleteOps(refs)).value, refs, ref.key, doc);
    }
  }

  /** One pass of the loop as written, unfolded. */
  lemma SpliceStep(s: seq<SubRef>, i: nat)
    requires i < |s|
    ensures SpliceLoop(s, i) ==
            ([s[i..Min(i + (i + BatchSize), |s|)]] + SpliceLoop(s[..i] + s[Min(i + (i + BatchSize), |s|)..], i + BatchSize).0,
             SpliceLoop(s[..i] + s[Min(i + (i + BatchSize), |s|)..], i + BatchSize).1)
  {
  }

  /** Up to one batch of references: the loop as written deletes them all and empties the array. */
  lemma SpliceOneBatch(s: seq<SubRef>)
    requires 0 < |s| <= BatchSize
    ensures SpliceLoop(s, 0) == ([s], [])
  {
    SpliceStep(s, 0);
    assert Min(0 + (0 + BatchSize), |s|) == |s|;
    assert s[0..|s|] == s;
    assert s[..0] + s[|s|..] == [];
    assert SpliceLoop([], BatchSize) == ([], []);
    assert [s] + [] == [s];
  }

  /**
   * 700 references: the loop as written deletes the first 500 and stops,
   * because the array has shrunk to 200 and `i` is already 500; the last 200
   * stay in the array and in the database.
   */
  lemma SpliceSevenHundred(db: Db, s: seq<SubRef>)
    requires |s| == 700
    ensures SpliceLoop(s, 0) == ([s[..500]], s[500..])
    ensures ApplyAll(db, DeleteOps(s[..500])).Ok?
    ensures CommitEach(db, SpliceLoop(s, 0).0) == (ApplyAll(db, DeleteOps(s[..500])).value, true)
    ensures forall k, doc :: doc in SubsAt(db, k) && SubRef(k, doc.id) in s[500..] && SubRef(k, doc.id) !in s[..500] ==>
                             doc in SubsAt(CommitEach(db, SpliceLoop(s, 0).0).0, k)
  {
    SpliceStep(s, 0);
    assert Min(0 + (0 + BatchSize), |s|) == 500;
    assert s[0..500] == s[..500];
    assert s[..0] + s[500..] == s[500..];
    assert SpliceLoop(s[500..], BatchSize) == ([], s[500..]);
    assert [s[..500]] + [] == [s[..500]];
    assert SpliceLoop(s, 0) == ([s[..500]], s[500..]);
    DeleteAllEffect(db, s[..500]);
    assert [s[..500]][..0] == [];
    var after := ApplyAll(db, DeleteOps(s[..500])).value;
    assert CommitEach(db, [s[..500]]) == (after, true);
    forall k, doc | doc in SubsAt(db, k) && SubRef(k, doc.id) in s[500..] && SubRef(k, doc.id) !in s[..500]
      ensures doc in SubsAt(after, k)
    {
      assert Kept(db, after, s[..500], k, doc);
    }
  }

  /**
   * 2000 references: the second pass splices 1000 references (`splice(500,
   * 1000)` takes a count, not an end index) into one batch, whose commit is
   * refused; references 500 to 999 are never deleted.
   */
  lemma SpliceTwoThousand(db: Db, s: seq<SubRef>)
    requires |s| == 2000
    ensures SpliceLoop(s, 0) == ([s[..500], s[1000..]], s[500..1000])
    ensures |s[1000..]| > MaxWritesPerBatch
    ensures ApplyAll(db, DeleteOps(s[..500])).Ok?
    ensures CommitEach(db, SpliceLoop(s, 0).0) == (ApplyAll(db, DeleteOps(s[..500])).value, false)
  {
    SpliceStep(s, 0);
    assert Min(0 + (0 + BatchSize), |s|) == 500;
    var t := s[..0] + s[500..];
    assert s[0..500] == s[..500];
    assert t == s[500..];
    SpliceStep(t, 500);
    assert Min(500 + (500 + BatchSize), |t|) == 1500;
    assert t[500..1500] == s[1000..];
    assert t[..500] + t[1500..] == s[500..1000];
    assert SpliceLoop(s[500..1000], 1000) == ([], s[500..1000]);
    assert [s[1000..]] + [] == [s[1000..]];
    assert [s[..500]] + [s[1000..]] == [s[..500], s[1000..]];
    assert SpliceLoop(t, 500) == ([s[1000..]], s[500..1000]);
    assert SpliceLoop(s, 0) == ([s[..500], s[1000..]], s[500..1000]);
    var batches := [s[..500], s[1000..]];
    assert batches[..1] == [s[..500]];
    assert [s[..500]][..0] == [];
    DeleteAllEffect(db, s[..500]);
    var after := ApplyAll(db, DeleteOps(s[..500])).value;
    assert CommitEach(db, [s[..500]]) == (after, true);
    assert BatchCommit(after, DeleteOps(s[1000..])) == Err(TooManyWrites);
    assert CommitEach(db, batches) == (after, false);
  }

  /** The batches concatenated. */
  function Flatten(batches: seq<seq<SubRef>>): (r: seq<SubRef>)
    decreases |batches|
  {
    if batches == [] then [] else Flatten(batches[..|batches| - 1]) + batches[|batches| - 1]
  }

  lemma DeleteOpsConcat(a: seq<SubRef>, b: seq<SubRef>)
    ensures DeleteOps(a + b) == DeleteOps(a) + DeleteOps(b)
  {
  }

  /** One slice of at most one batch: its deletes are committed, and all apply. */
  method DeleteChunk(fs: Firestore, chunk: seq<SubRef>)
    requires fs.Valid() && |chunk| <= BatchSize
    modifies fs
    ensures fs.Valid()
    ensures ApplyAll(old(fs.db), DeleteOps(chunk)) == Ok(fs.db)
  {
    var batch := fs.StartBatch();
    EnqueueDeletes(batch, chunk);
    DeleteAllEffect(fs.db, chunk);
    var c := fs.CommitBatch(batch);
    assert c.Ok?;
  }

  /** The deletes of a prefix, followed by those of the next slice, are the deletes of the longer prefix. */
  lemma DeletedPrefixGrows(db0: Db, db: Db, db': Db, refs: seq<SubRef>, i: nat, end: nat)
    requires i <= end <= |refs|
    requires ApplyAll(db0, DeleteOps(refs[..i])) == Ok(db)
    requires ApplyAll(db, DeleteOps(refs[i..end])) == Ok(db')
    ensures ApplyAll(db0, DeleteOps(refs[..end])) == Ok(db')
  {
    assert refs[..i] + refs[i..end] == refs[..end];
    DeleteOpsConcat(refs[..i], refs[i..end]);
    ApplyAllConcat(db0, DeleteOps(refs[..i]), DeleteOps(refs[i..end]));
  }

  /** The slices so far, and the next one, flatten to the longer prefix. */
  lemma FlattenSnoc(batches: seq<seq<SubRef>>, refs: seq<SubRef>, i: nat, end: nat)
    requires i <= end <= |refs| && Flatten(batches) == refs[..i]
    ensures Flatten(batches + [refs[i..end]]) == refs[..end]
  {
    assert (batches + [refs[i..end]])[..|batches|] == batches;
    assert refs[..i] + refs[i..end] == refs[..end];
  }

  /** Batch `j` is the `j`-th slice of 500 references, the last one shorter. */
  predicate ConsecutiveSlices(batches: seq<seq<SubRef>>, refs: seq<SubRef>)
  {
    forall j :: 0 <= j < |batches| ==>
      j * BatchSize <= |refs| && batches[j] == refs[j * BatchSize .. Min((j + 1) * BatchSize, |refs|)]
  }

  /** The next slice extends the batches so far by one, and ends where the next would start. */
  lemma SlicesSnoc(batches: seq<seq<SubRef>>, refs: seq<SubRef>, i: nat)
    requires i == Min(|batches| * BatchSize, |refs|) && i < |refs|
    requires |batches| == (i + BatchSize - 1) / BatchSize
    requires ConsecutiveSlices(batches, refs)
    ensures i == |batches| * BatchSize
    ensures ConsecutiveSlices(batches + [refs[i..Min(i + BatchSize, |refs|)]], refs)
    ensures Min(i + BatchSize, |refs|) == Min((|batches| + 1) * BatchSize, |refs|)
    ensures |batches| + 1 == (Min(i + BatchSize, |refs|) + BatchSize - 1) / BatchSize
  {
    var b' := batches + [refs[i..Min(i + BatchSize, |refs|)]];
    forall j | 0 <= j < |b'|
      ensures j * BatchSize <= |refs| && b'[j] == refs[j * BatchSize .. Min((j + 1) * BatchSize, |refs|)]
    {
      if j < |batches| {
        assert b'[j] == batches[j];
      }
    }
  }

  /**
   * `deleteViewHistriesWithRefs` as evidently intended: consecutive slices of
   * at most 500 references, the argument left untouched; every commit
   * succeeds and the result is that of deleting every reference.
   */
  method DeleteViewHistoriesWithRefs(fs: Firestore, refs: seq<SubRef>) returns (r: Result<(), StoreError>, ghost batches: seq<seq<SubRef>>)
    requires fs.Valid()
    modifies fs
    ensures fs.Valid()
    ensures r == Ok(())
    ensures ApplyAll(old(fs.db), DeleteOps(refs)) == Ok(fs.db)
    ensures Flatten(batches) == refs
    ensures forall b :: b in batches ==> 0 < |b| <= BatchSize
    ensures |batches| == (|refs| + BatchSize - 1) / BatchSize
    ensures ConsecutiveSlices(batches, refs)
  {
    var i := 0;
    batches := [];
    while i < |refs|
      invariant 0 <= i <= |refs|
      invariant fs.Valid()
      invariant ApplyAll(old(fs.db), DeleteOps(refs[..i])) == Ok(fs.db)
      invariant Flatten(batches) == refs[..i]
      invariant forall b :: b in batches ==> 0 < |b| <= BatchSize
      invariant i == Min(|batches| * BatchSize, |refs|)
      invariant |batches| == (i + BatchSize - 1) / BatchSize
      invariant ConsecutiveSlices(batches, refs)
    {
      SlicesSnoc(batches, refs, i);
      var end := Min(i + BatchSize, |refs|);
      var chunk := refs[i..end];
      ghost var before := fs.db;
      DeleteChunk(fs, chunk);
      DeletedPrefixGrows(old(fs.db), before, fs.db, refs, i, end);
      FlattenSnoc(batches, refs, i, end);
      batches := batches + [chunk];
      i := end;
    }
    assert refs[..i] == refs;
    r := Ok(());
  }
}
