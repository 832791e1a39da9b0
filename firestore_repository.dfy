/**
 * The generic repository every collection repository builds on: the
 * converter between models and stored objects, the batch and transaction
 * write helpers, the `exists` rule over the snapshot shapes, and the
 * document-id-to-data fold `idAndData`.
 */
module FirestoreRepository {
  import opened Wrappers
  import opened Documents
  import opened DocumentStore

  // ---------------------------------------------------------------- converter

  /** A stored plain object: field name to value; a missing key is `undefined`. */
  type Obj = map<string, Field>

  /**
   * `toFirestore(model)`: the model's `parseObj()`, the document's own fields
   * as a plain object.
   */
  function ToFirestore(v: VideoDocument): (o: Obj)
    ensures o.Keys == {"videoId", "title", "channelId", "publishedAt", "milestone", "updated"}
  {
    map["videoId" := Text(v.videoId), "title" := Text(v.title), "channelId" := Text(v.channelId),
        "publishedAt" := v.publishedAt, "milestone" := Number(v.milestone), "updated" := v.updated]
  }

  /** `fromFirestore(snapshot)`: the stored data, unchanged (a type cast only). */
  function FromFirestore(o: Obj): (r: Obj)
    ensures r == o
  {
    o
  }

  /** Reading a video document's fields back out of a stored object. */
  function AsVideo(o: Obj): (r: Option<VideoDocument>)
    ensures r.Some? ==> ToFirestore(r.value) == o
  {
    if o.Keys == {"videoId", "title", "channelId", "publishedAt", "milestone", "updated"}
       && o["videoId"].Text? && o["title"].Text? && o["channelId"].Text?
       && o["milestone"].Number? && o["milestone"].n >= 0
    then Some(VideoDocument(o["videoId"].s, o["title"].s, o["channelId"].s,
                            o["publishedAt"], o["milestone"].n, o["updated"]))
    else None
  }

  /** Writing a model and reading it back yields the same model. */
  lemma ConverterRoundTrip(v: VideoDocument)
    ensures AsVideo(FromFirestore(ToFirestore(v))) == Some(v)
  {
  }

  // ------------------------------------------------------------- batch writes

  /** `startBatch()`. */
  method StartBatch(fs: Firestore) returns (b: WriteBatch)
    ensures fresh(b) && b.ops == []
  {
    b := fs.StartBatch();
  }

  /** `addWithBatch(batch, data)`: one `set` at a newly generated id of the collection. */
  method AddWithBatch(fs: Firestore, batch: WriteBatch, data: VideoDocument)
    requires fs.Valid()
    modifies fs, batch
    ensures fs.Valid()
    ensures fs.db == old(fs.db).(nextId := old(fs.db.nextId) + 1)
    ensures batch.ops == old(batch.ops) + [SetVideo(old(fs.db.nextId), data, None)]
  {
    var id := fs.AllocateId();
    batch.Enqueue(SetVideo(id, data, None));
  }

  /** `setWithBatch(batch, ref, data, options?)`: `options` reaches `set` only when it is given. */
  method SetWithBatch(batch: WriteBatch, ref: DocId, data: VideoDocument, options: Option<SetOptions>)
    modifies batch
    ensures batch.ops == old(batch.ops) + [SetVideo(ref, data, options)]
  {
    if options.None? {
      batch.Enqueue(SetVideo(ref, data, None));
    } else {
      batch.Enqueue(SetVideo(ref, data, options));
    }
  }

  /** `addSubDocumentWithBatch(batch, parent, name, data)`: one `set` at a new id inside that sub-collection. */
  method AddSubDocumentWithBatch(fs: Firestore, batch: WriteBatch, parent: DocId, name: string, data: ViewHistory)
    returns (ghost ref: SubRef)
    requires fs.Valid()
    modifies fs, batch
    ensures fs.Valid()
    ensures fs.db == old(fs.db).(nextId := old(fs.db.nextId) + 1)
    ensures ref == SubRef(SubKey(parent, name), old(fs.db.nextId))
    ensures batch.ops == old(batch.ops) + [SetSub(ref, data, None)]
  {
    var id := fs.AllocateId();
    ref := SubRef(SubKey(parent, name), id);
    batch.Enqueue(SetSub(SubRef(SubKey(parent, name), id), data, None));
  }

  /** `updateWithBatch(batch, ref, data)`. */
  method UpdateWithBatch(batch: WriteBatch, ref: DocId, data: VideoDocument)
    modifies batch
    ensures batch.ops == old(batch.ops) + [UpdateVideo(ref, data)]
  {
    batch.Enqueue(UpdateVideo(ref, data));
  }

  /** `deleteInBatch(batch, ref)`. */
  method DeleteInBatch(batch: WriteBatch, ref: DocId)
    modifies batch
    ensures batch.ops == old(batch.ops) + [DeleteVideo(ref)]
  {
    batch.Enqueue(DeleteVideo(ref));
  }

  /** `commitBatch(batch)`: the store's atomic batch commit. */
  method CommitBatch(fs: Firestore, batch: WriteBatch) returns (r: Result<(), StoreError>)
    requires fs.Valid()
    modifies fs
    ensures fs.Valid()
    ensures var c := BatchCommit(old(fs.db), batch.ops);
            (c.Ok? ==> r.Ok? && fs.db == c.value) && (c.Err? ==> r == Err(c.error) && fs.db == old(fs.db))
  {
    r := fs.CommitBatch(batch);
  }

  /** Enqueuing changes nothing in the database until the batch is committed. */
  lemma EnqueuedWritesWaitForCommit(db: Db, ops: seq<Op>, op: Op)
    requires |ops| < MaxWritesPerBatch
    ensures BatchCommit(db, ops + [op]) ==
            match BatchCommit(db, ops)
            case Err(e) => Err(e)
            case Ok(d) => ApplyOp(d, op)
  {
    ApplyAllConcat(db, ops, [op]);
    assert [op][1..] == [];
    if ApplyAll(db, ops).Ok? {
      var d := ApplyAll(db, ops).value;
      match ApplyOp(d, op)
      case Ok(d') => assert ApplyAll(d', []) == Ok(d');
      case Err(e) =>
    }
  }

  // ------------------------------------------------------- transaction writes

  /** `addInTx(tx, ref, data, options?)`: `options` reaches `set` only when it is given. */
  method AddInTx(tx: Transaction, ref: SubRef, data: ViewHistory, options: Option<SetOptions>)
    modifies tx
    ensures tx.writes == old(tx.writes) + [SetSub(ref, data, options)]
  {
    if options.None? {
      tx.Stage(SetSub(ref, data, None));
    } else {
      tx.Stage(SetSub(ref, data, options));
    }
  }

  /** `addSubDocInTx(tx, parent, name, data)`: one `set` at a new id inside that sub-collection. */
  method AddSubDocInTx(fs: Firestore, tx: Transaction, parent: DocId, name: string, data: ViewHistory)
    returns (ghost ref: SubRef)
    requires fs.Valid()
    modifies fs, tx
    ensures fs.Valid()
    ensures fs.db == old(fs.db).(nextId := old(fs.db.nextId) + 1)
    ensures ref == SubRef(SubKey(parent, name), old(fs.db.nextId))
    ensures tx.writes == old(tx.writes) + [SetSub(ref, data, None)]
  {
    var id := fs.AllocateId();
    ref := SubRef(SubKey(parent, name), id);
    tx.Stage(SetSub(SubRef(SubKey(parent, name), id), data, None));
  }

  /**
   * `updateInTx(tx, ref, data)`: stages an update with `data.parseObj()`,
   * which reads back as `data` (ConverterRoundTrip).
   */
  method UpdateInTx(tx: Transaction, ref: DocId, data: VideoDocument)
    modifies tx
    ensures tx.writes == old(tx.writes) + [UpdateVideo(ref, data)]
  {
    var obj := ToFirestore(data);
    ConverterRoundTrip(data);
    var parsed := AsVideo(obj);
    tx.Stage(UpdateVideo(ref, parsed.value));
  }

  /** A write is independent of the documents it does not address: one new sub-document only. */
  lemma SubDocumentWriteTouchesOnlyItsTarget(db: Db, ref: SubRef, data: ViewHistory, k: SubKey)
    requires db.Valid() && ref.id == db.nextId
    ensures ApplyOp(db, SetSub(ref, data, None)).Ok?
    ensures var d := ApplyOp(db, SetSub(ref, data, None)).value;
            && d.videos == db.videos && d.news == db.news
            && SubsAt(d, ref.key) == SubsAt(db, ref.key) + [SubDoc(ref.id, data)]
            && (k != ref.key ==> SubsAt(d, k) == SubsAt(db, k))
  {
    assert AllBelow(SubsAt(db, ref.key), db.nextId);
  }

  // ------------------------------------------------------------------ exists

  /** A document of a query result: query result documents always exist. */
  datatype QueryDoc<T> = QueryDoc(id: DocId, exist: bool, data: T)

  /** The snapshot shapes `exists` distinguishes; `Unexpected` is any other value. */
  datatype Snapshot<T> =
    | QuerySnapshot(docs: seq<QueryDoc<T>>)
    | QueryDocumentSnapshot(doc: QueryDoc<T>)
    | DocumentSnapshot(exist: bool)
    | Unexpected

  datatype ExistsError = UnexpectedType

  /** Some document of the sequence exists. */
  predicate AnyExists<T>(docs: seq<QueryDoc<T>>)
  {
    exists i :: 0 <= i < |docs| && docs[i].exist
  }

  /** A query's own result: every document in it exists. */
  predicate IsQueryResult<T>(docs: seq<QueryDoc<T>>)
  {
    forall i :: 0 <= i < |docs| ==> docs[i].exist
  }

  /** `exists(ss)` as a value, for the functions that use it. */
  function ExistsOf<T>(ss: Snapshot<T>): (r: Result<bool, ExistsError>)
    ensures ss.QuerySnapshot? ==> r == Ok(AnyExists(ss.docs))
    ensures ss.QueryDocumentSnapshot? ==> r == Ok(ss.doc.exist)
    ensures ss.DocumentSnapshot? ==> r == Ok(ss.exist)
    ensures ss.Unexpected? ==> r == Err(UnexpectedType)
  {
    match ss
    case QuerySnapshot(docs) => Ok(AnyExists(docs))
    case QueryDocumentSnapshot(d) => Ok(d.exist)
    case DocumentSnapshot(e) => Ok(e)
    case Unexpected => Err(UnexpectedType)
  }

  /**
   * `exists(ss)`: for a query snapshot, whether some contained document
   * exists, found by a scan that raises a flag; for a single document, its
   * own flag; anything else raises "unexpected type".
   */
  method Exists<T>(ss: Snapshot<T>) returns (r: Result<bool, ExistsError>)
    ensures ss.QuerySnapshot? ==> (r == Ok(true) <==> exists i :: 0 <= i < |ss.docs| && ss.docs[i].exist)
    ensures ss.QuerySnapshot? ==> r.Ok?
    ensures ss.QueryDocumentSnapshot? ==> r == Ok(ss.doc.exist)
    ensures ss.DocumentSnapshot? ==> r == Ok(ss.exist)
    ensures ss.Unexpected? ==> r == Err(UnexpectedType)
  {
    match ss
    case QuerySnapshot(docs) =>
      var exist := false;
      var i := 0;
      while i < |docs|
        invariant 0 <= i <= |docs|
        invariant exist <==> exists j :: 0 <= j < i && docs[j].exist
      {
        if docs[i].exist {
          exist := true;
        }
        i := i + 1;
      }
      r := Ok(exist);
    case QueryDocumentSnapshot(d) =>
      r := Ok(d.exist);
    case DocumentSnapshot(e) =>
      r := Ok(e);
    case Unexpected =>
      r := Err(UnexpectedType);
  }

  /** A non-empty query result exists; an empty one does not. */
  lemma QueryResultExistsIffNonEmpty<T>(docs: seq<QueryDoc<T>>)
    requires IsQueryResult(docs)
    ensures ExistsOf(QuerySnapshot(docs)) == Ok(docs != [])
  {
    if docs != [] {
      assert docs[0].exist;
    }
  }

  // ------------------------------------------------------------- id and data

  /** The `reduce` that folds documents into a document-id-to-data record; a later id overwrites. */
  function DocIdAndData<T>(docs: seq<QueryDoc<T>>): (m: map<DocId, T>)
    decreases |docs|
  {
    if docs == [] then map[]
    else DocIdAndData(docs[..|docs| - 1])[docs[|docs| - 1].id := docs[|docs| - 1].data]
  }

  /** The fold has a key for every document id, and no other. */
  lemma {:induction false} DocIdAndDataKeys<T>(docs: seq<QueryDoc<T>>)
    ensures DocIdAndData(docs).Keys == set i | 0 <= i < |docs| :: docs[i].id
    decreases |docs|
  {
    if docs != [] {
      var init := docs[..|docs| - 1];
      DocIdAndDataKeys(init);
      assert forall i :: 0 <= i < |init| ==> init[i] == docs[i];
      var s1 := set i | 0 <= i < |init| :: init[i].id;
      var s2 := set i | 0 <= i < |docs| :: docs[i].id;
      assert s2 == s1 + {docs[|docs| - 1].id} by {
        forall x | x in s2 ensures x in s1 + {docs[|docs| - 1].id} {
          var i :| 0 <= i < |docs| && docs[i].id == x;
          if i < |init| { assert init[i].id == x; }
        }
      }
    }
  }

  /** Ids of documents in a sequence are pairwise distinct. */
  predicate DistinctIds<T>(docs: seq<QueryDoc<T>>)
  {
    forall i, j :: 0 <= i < j < |docs| ==> docs[i].id != docs[j].id
  }

  /** With distinct ids, each document's data is stored under its id. */
  lemma {:induction false} DocIdAndDataAt<T>(docs: seq<QueryDoc<T>>, i: nat)
    requires DistinctIds(docs) && i < |docs|
    ensures docs[i].id in DocIdAndData(docs)
    ensures DocIdAndData(docs)[docs[i].id] == docs[i].data
    decreases |docs|
  {
    var init := docs[..|docs| - 1];
    if i < |docs| - 1 {
      assert forall a, b :: 0 <= a < b < |init| ==> init[a] == docs[a] && init[b] == docs[b];
      DocIdAndDataAt(init, i);
      assert init[i] == docs[i];
    }
  }

  /**
   * `idAndData(ss)` as written: the guard returns `{}` when the snapshot
   * EXISTS, so in a query result (whose documents all exist) it is `{}` in
   * every case.
   */
  function IdAndDataAsWritten<T>(docs: seq<QueryDoc<T>>): (m: map<DocId, T>)
    ensures AnyExists(docs) ==> m == map[]
    ensures !AnyExists(docs) ==> m == DocIdAndData(docs)
  {
    if AnyExists(docs) then map[] else DocIdAndData(docs)
  }

  /** As written, a query result never produces any entry. */
  lemma IdAndDataAsWrittenIsAlwaysEmpty<T>(docs: seq<QueryDoc<T>>)
    requires IsQueryResult(docs)
    ensures IdAndDataAsWritten(docs) == map[]
  {
    if docs != [] {
      assert docs[0].exist;
    }
  }

  /** The input that shows it: one existing document yields `{}` rather than its entry. */
  lemma IdAndDataAsWrittenDropsTheDocument(d: int)
    ensures var docs := [QueryDoc(7, true, d)];
            IsQueryResult(docs) && IdAndDataAsWritten(docs) == map[] && DocIdAndData(docs) == map[7 := d]
  {
    var docs := [QueryDoc(7, true, d)];
    assert docs[0].exist;
    assert docs[..0] == [];
  }

  /** `idAndData(ss)` with the guard the surrounding repositories use: `{}` only when nothing exists. */
  function IdAndData<T>(docs: seq<QueryDoc<T>>): (m: map<DocId, T>)
    ensures !AnyExists(docs) ==> m == map[]
    ensures AnyExists(docs) ==> m == DocIdAndData(docs)
  {
    if !AnyExists(docs) then map[] else DocIdAndData(docs)
  }

  /** Corrected, a query result yields exactly one entry per document, holding its data. */
  lemma IdAndDataIsTheFold<T>(docs: seq<QueryDoc<T>>)
    requires IsQueryResult(docs) && DistinctIds(docs)
    ensures IdAndData(docs).Keys == set i | 0 <= i < |docs| :: docs[i].id
    ensures forall i :: 0 <= i < |docs| ==> IdAndData(docs)[docs[i].id] == docs[i].data
  {
    DocIdAndDataKeys(docs);
    if docs != [] {
      assert docs[0].exist;
    }
    forall i | 0 <= i < |docs| ensures IdAndData(docs)[docs[i].id] == docs[i].data {
      DocIdAndDataAt(docs, i);
    }
  }
}
