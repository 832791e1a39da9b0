/**
 * The document database as the repositories see it: the `video` collection,
 * the sub-collections under each video document, the append-only `news` log,
 * a client-side id allocator, write operations, and their atomic commit.
 * The storage engine is not modelled beyond this; a commit applies its
 * operations in order and either all of them take effect or none does.
 */
module DocumentStore {
  import opened Wrappers
  import opened Documents

  /** The largest number of writes one batch commit accepts. */
  const MaxWritesPerBatch: nat := 500

  /** The largest number of values an `in` filter accepts. */
  const MaxInValues: nat := 30

  /** A sub-collection: its parent document in `video` and its name. */
  datatype SubKey = SubKey(parent: DocId, name: string)

  /** A reference to a document of a sub-collection. */
  datatype SubRef = SubRef(key: SubKey, id: DocId)

  /** A stored document of a sub-collection. */
  datatype SubDoc = SubDoc(id: DocId, data: ViewHistory)

  datatype SetOptions = SetOptions(merge: bool)

  /** One staged write of a batch or a transaction. */
  datatype Op =
    | SetVideo(id: DocId, video: VideoDocument, options: Option<SetOptions>)
    | UpdateVideo(id: DocId, video: VideoDocument)
    | DeleteVideo(id: DocId)
    | SetSub(ref: SubRef, history: ViewHistory, options: Option<SetOptions>)
    | UpdateSubTimes(ref: SubRef, created: Option<Field>, updated: Field)
    | DeleteSub(ref: SubRef)
    | AddNews(news: NewsDocument)

  datatype StoreError = NotFound | TooManyWrites | InvalidQuery

  /** The whole database, with the allocator's next id. */
  datatype Db = Db(
    videos: map<DocId, VideoDocument>,
    subs: map<SubKey, seq<SubDoc>>,
    news: seq<NewsDocument>,
    nextId: DocId)
  {
    /** Every id in use is below the allocator. */
    ghost predicate Valid()
    {
      && (forall id :: id in videos ==> id < nextId)
      && (forall k :: k in subs ==> AllBelow(subs[k], nextId))
    }
  }

  ghost predicate AllBelow(s: seq<SubDoc>, n: nat)
  {
    forall i :: 0 <= i < |s| ==> s[i].id < n
  }

  /** An empty database. */
  function EmptyDb(): (db: Db)
    ensures db.Valid() && db.videos == map[] && db.news == []
  {
    Db(map[], map[], [], 0)
  }

  /** The documents of a sub-collection, `[]` when it has none. */
  function SubsAt(db: Db, k: SubKey): seq<SubDoc>
  {
    if k in db.subs then db.subs[k] else []
  }

  /** The index of the document with id `id`, or `|s|` when there is none. */
  function IndexOf(s: seq<SubDoc>, id: DocId): (i: nat)
    ensures i <= |s|
    ensures i < |s| ==> s[i].id == id
    ensures forall j :: 0 <= j < i ==> s[j].id != id
  {
    if s == [] then 0
    else if s[0].id == id then 0
    else 1 + IndexOf(s[1..], id)
  }

  /** `set` on a sub-collection: overwrite the document with that id, or append a new one. */
  function Upsert(s: seq<SubDoc>, id: DocId, h: ViewHistory): (r: seq<SubDoc>)
    ensures (forall j :: 0 <= j < |s| ==> s[j].id != id) ==> r == s + [SubDoc(id, h)]
  {
    var i := IndexOf(s, id);
    if i < |s| then s[i := SubDoc(id, h)] else s + [SubDoc(id, h)]
  }

  /** `delete` on a sub-collection: the document with that id is gone, the others keep their order. */
  function RemoveId(s: seq<SubDoc>, id: DocId): (r: seq<SubDoc>)
    ensures |r| <= |s|
    ensures forall j :: 0 <= j < |r| ==> r[j].id != id
    ensures forall d :: d in r <==> d in s && d.id != id
  {
    if s == [] then []
    else if s[0].id == id then RemoveId(s[1..], id)
    else [s[0]] + RemoveId(s[1..], id)
  }

  /** The allocator never hands out an id a `set` has already used. */
  function Bump(n: DocId, id: DocId): (r: DocId)
    ensures r >= n && r > id
  {
    if id < n then n else id + 1
  }

  /** The effect of one write: an `update` of a missing document fails, every other write succeeds. */
  function ApplyOp(db: Db, op: Op): (r: Result<Db, StoreError>)
  {
    match op
    case SetVideo(id, v, _) =>
      Ok(db.(videos := db.videos[id := v], nextId := Bump(db.nextId, id)))
    case UpdateVideo(id, v) =>
      if id in db.videos then Ok(db.(videos := db.videos[id := v])) else Err(NotFound)
    case DeleteVideo(id) =>
      Ok(db.(videos := db.videos - {id}))
    case SetSub(ref, h, _) =>
      Ok(db.(subs := db.subs[ref.key := Upsert(SubsAt(db, ref.key), ref.id, h)],
             nextId := Bump(db.nextId, ref.id)))
    case UpdateSubTimes(ref, created, updated) =>
      var s := SubsAt(db, ref.key);
      var i := IndexOf(s, ref.id);
      if i < |s| then
        Ok(db.(subs := db.subs[ref.key := s[i := SubDoc(ref.id, s[i].data.(created := created, updated := Some(updated)))]]))
      else Err(NotFound)
    case DeleteSub(ref) =>
      if ref.key in db.subs then Ok(db.(subs := db.subs[ref.key := RemoveId(db.subs[ref.key], ref.id)]))
      else Ok(db)
    case AddNews(n) =>
      Ok(db.(news := db.news + [n]))
  }

  lemma ApplyAddNews(db: Db, n: NewsDocument)
    ensures ApplyOp(db, AddNews(n)) == Ok(db.(news := db.news + [n]))
  {
  }

  lemma ApplyUpdateVideo(db: Db, id: DocId, v: VideoDocument)
    requires id in db.videos
    ensures ApplyOp(db, UpdateVideo(id, v)) == Ok(db.(videos := db.videos[id := v]))
  {
  }

  /** The writes applied in order; the first failure aborts the whole sequence. */
  function ApplyAll(db: Db, ops: seq<Op>): (r: Result<Db, StoreError>)
    decreases |ops|
  {
    if ops == [] then Ok(db)
    else
      match ApplyOp(db, ops[0])
      case Err(e) => Err(e)
      case Ok(db') => ApplyAll(db', ops[1..])
  }

  /** The state after the writes, when they all apply (`db` itself otherwise). */
  function After(db: Db, ops: seq<Op>): Db
  {
    match ApplyAll(db, ops)
    case Ok(d) => d
    case Err(_) => db
  }

  /** A batch commit: too many writes are refused before any is applied. */
  function BatchCommit(db: Db, ops: seq<Op>): (r: Result<Db, StoreError>)
    ensures |ops| > MaxWritesPerBatch ==> r == Err(TooManyWrites)
    ensures |ops| <= MaxWritesPerBatch ==> r == ApplyAll(db, ops)
  {
    if |ops| > MaxWritesPerBatch then Err(TooManyWrites) else ApplyAll(db, ops)
  }

  /** A batch within the limit whose writes all apply commits to the state after them. */
  lemma CommitWithinLimit(db: Db, ops: seq<Op>)
    requires |ops| <= MaxWritesPerBatch && ApplyAll(db, ops).Ok?
    ensures BatchCommit(db, ops) == Ok(After(db, ops))
  {
  }

  lemma UpsertKeepsValid(s: seq<SubDoc>, id: DocId, h: ViewHistory, n: nat)
    requires AllBelow(s, n)
    ensures AllBelow(Upsert(s, id, h), Bump(n, id))
  {
  }

  lemma RemoveKeepsValid(s: seq<SubDoc>, id: DocId, n: nat)
    requires AllBelow(s, n)
    ensures AllBelow(RemoveId(s, id), n)
  {
    var r := RemoveId(s, id);
    forall j | 0 <= j < |r| ensures r[j].id < n {
      assert r[j] in s;
    }
  }

  /** Every write keeps the database well formed and never moves the allocator back. */
  lemma ApplyOpValid(db: Db, op: Op)
    requires db.Valid()
    ensures ApplyOp(db, op).Ok? ==> ApplyOp(db, op).value.Valid()
    ensures ApplyOp(db, op).Ok? ==> ApplyOp(db, op).value.nextId >= db.nextId
  {
    match op
    case SetSub(ref, h, _) =>
      var s := SubsAt(db, ref.key);
      assert AllBelow(s, db.nextId);
      UpsertKeepsValid(s, ref.id, h, db.nextId);
      var n := Bump(db.nextId, ref.id);
      forall k | k in db.subs ensures AllBelow(db.subs[k], n) {
        assert AllBelow(db.subs[k], db.nextId);
      }
    case UpdateSubTimes(ref, c, u) =>
      var s := SubsAt(db, ref.key);
      assert AllBelow(s, db.nextId);
    case DeleteSub(ref) =>
      if ref.key in db.subs {
        RemoveKeepsValid(db.subs[ref.key], ref.id, db.nextId);
      }
    case SetVideo(id, v, _) =>
      var n := Bump(db.nextId, id);
      forall k | k in db.subs ensures AllBelow(db.subs[k], n) {
        assert AllBelow(db.subs[k], db.nextId);
      }
    case _ =>
  }

  lemma {:induction false} ApplyAllValid(db: Db, ops: seq<Op>)
    requires db.Valid()
    ensures ApplyAll(db, ops).Ok? ==> ApplyAll(db, ops).value.Valid()
    ensures ApplyAll(db, ops).Ok? ==> ApplyAll(db, ops).value.nextId >= db.nextId
    decreases |ops|
  {
    if ops != [] {
      ApplyOpValid(db, ops[0]);
      if ApplyOp(db, ops[0]).Ok? {
        ApplyAllValid(ApplyOp(db, ops[0]).value, ops[1..]);
      }
    }
  }

  /** No two documents of a sub-collection share an id. */
  predicate DistinctDocIds(s: seq<SubDoc>)
  {
    forall i, j :: 0 <= i < j < |s| ==> s[i].id != s[j].id
  }

  /** Every sub-collection of the database has distinct document ids. */
  ghost predicate SubIdsDistinct(db: Db)
  {
    forall k :: k in db.subs ==> DistinctDocIds(db.subs[k])
  }

  lemma {:induction false} RemoveKeepsDistinct(s: seq<SubDoc>, id: DocId)
    requires DistinctDocIds(s)
    ensures DistinctDocIds(RemoveId(s, id))
    decreases |s|
  {
    if s != [] {
      var tail := s[1..];
      assert DistinctDocIds(tail) by {
        forall i, j | 0 <= i < j < |tail| ensures tail[i].id != tail[j].id {
          assert tail[i] == s[i + 1] && tail[j] == s[j + 1];
        }
      }
      RemoveKeepsDistinct(tail, id);
      if s[0].id != id {
        var rest := RemoveId(tail, id);
        var r := [s[0]] + rest;
        forall i, j | 0 <= i < j < |r| ensures r[i].id != r[j].id {
          if i == 0 {
            assert r[j] == rest[j - 1] && r[j] in tail;
            var k :| 0 <= k < |tail| && tail[k] == r[j];
            assert tail[k] == s[k + 1];
          } else {
            assert r[i] == rest[i - 1] && r[j] == rest[j - 1];
          }
        }
      }
    }
  }

  /**
   * Every write keeps document ids unique within each sub-collection: `set`
   * overwrites the document it finds or appends a new id, an `update` keeps
   * the id it rewrites, and `delete` only removes.
   */
  lemma ApplyOpKeepsDistinct(db: Db, op: Op)
    requires SubIdsDistinct(db)
    ensures ApplyOp(db, op).Ok? ==> SubIdsDistinct(ApplyOp(db, op).value)
  {
    match op
    case SetSub(ref, h, _) =>
      var s := SubsAt(db, ref.key);
      assert DistinctDocIds(s);
      var i := IndexOf(s, ref.id);
      var r := Upsert(s, ref.id, h);
      if i < |s| {
        assert forall j :: 0 <= j < |r| ==> r[j].id == s[j].id;
      } else {
        assert forall j :: 0 <= j < |s| ==> r[j] == s[j] && s[j].id != ref.id;
      }
      assert DistinctDocIds(r);
    case UpdateSubTimes(ref, c, u) =>
      var s := SubsAt(db, ref.key);
      assert DistinctDocIds(s);
      var i := IndexOf(s, ref.id);
      if i < |s| {
        var r := s[i := SubDoc(ref.id, s[i].data.(created := c, updated := Some(u)))];
        assert forall j :: 0 <= j < |r| ==> r[j].id == s[j].id;
        assert DistinctDocIds(r);
      }
    case DeleteSub(ref) =>
      if ref.key in db.subs {
        RemoveKeepsDistinct(db.subs[ref.key], ref.id);
      }
    case _ =>
  }

  lemma {:induction false} ApplyAllKeepsDistinct(db: Db, ops: seq<Op>)
    requires SubIdsDistinct(db)
    ensures ApplyAll(db, ops).Ok? ==> SubIdsDistinct(ApplyAll(db, ops).value)
    decreases |ops|
  {
    if ops != [] {
      ApplyOpKeepsDistinct(db, ops[0]);
      if ApplyOp(db, ops[0]).Ok? {
        ApplyAllKeepsDistinct(ApplyOp(db, ops[0]).value, ops[1..]);
      }
    }
  }

  /** Applying `a + b` is applying `a`, then `b` to what `a` produced. */
  lemma {:induction false} ApplyAllConcat(db: Db, a: seq<Op>, b: seq<Op>)
    ensures ApplyAll(db, a + b) ==
            match ApplyAll(db, a)
            case Err(e) => Err(e)
            case Ok(d) => ApplyAll(d, b)
    decreases |a|
  {
    if a == [] {
      assert a + b == b;
    } else {
      assert (a + b)[0] == a[0];
      assert (a + b)[1..] == a[1..] + b;
      if ApplyOp(db, a[0]).Ok? {
        ApplyAllConcat(ApplyOp(db, a[0]).value, a[1..], b);
      }
    }
  }

  /** Two runs of writes that each apply, one after the other. */
  lemma ApplyAllThen(db: Db, a: seq<Op>, b: seq<Op>, mid: Db, end: Db)
    requires ApplyAll(db, a) == Ok(mid) && ApplyAll(mid, b) == Ok(end)
    ensures ApplyAll(db, a + b) == Ok(end)
  {
    ApplyAllConcat(db, a, b);
  }

  /** A staged write: the queue of a `WriteBatch`. Nothing reaches the database before commit. */
  class WriteBatch {
    var ops: seq<Op>

    constructor ()
      ensures ops == []
    {
      ops := [];
    }

    /** Enqueues one write at the end of the queue. */
    method Enqueue(op: Op)
      modifies this
      ensures ops == old(ops) + [op]
    {
      ops := ops + [op];
    }
  }

  /**
   * A transaction: its reads see `snapshot`, its writes are staged in
   * `writes` and applied together when it commits.
   */
  class Transaction {
    const snapshot: Db
    var writes: seq<Op>

    constructor (snapshot: Db)
      ensures this.snapshot == snapshot && writes == []
    {
      this.snapshot := snapshot;
      writes := [];
    }

    /** Stages one write; the database is not touched. */
    method Stage(op: Op)
      modifies this
      ensures writes == old(writes) + [op]
    {
      writes := writes + [op];
    }
  }

  /** The database connection: the current state and the id allocator. */
  class Firestore {
    var db: Db

    ghost predicate Valid()
      reads this
    {
      db.Valid()
    }

    constructor (initial: Db)
      requires initial.Valid()
      ensures Valid() && db == initial
    {
      db := initial;
    }

    /** `collection.doc()`: a new id, distinct from every id in use; no document is written. */
    method AllocateId() returns (id: DocId)
      requires Valid()
      modifies this
      ensures Valid()
      ensures id == old(db.nextId)
      ensures db == old(db).(nextId := old(db.nextId) + 1)
    {
      id := db.nextId;
      db := db.(nextId := db.nextId + 1);
      forall k | k in db.subs ensures AllBelow(db.subs[k], db.nextId) {
        assert AllBelow(old(db).subs[k], old(db).nextId);
      }
    }

    /** `firestore.batch()`: a new, empty batch. */
    method StartBatch() returns (b: WriteBatch)
      ensures fresh(b) && b.ops == []
    {
      b := new WriteBatch();
    }

    /** `batch.commit()`: all of the batch's writes take effect, or none does. */
    method CommitBatch(b: WriteBatch) returns (r: Result<(), StoreError>)
      requires Valid()
      modifies this
      ensures Valid()
      ensures var c := BatchCommit(old(db), b.ops);
              (c.Ok? ==> r.Ok? && db == c.value) && (c.Err? ==> r == Err(c.error) && db == old(db))
    {
      var c := BatchCommit(db, b.ops);
      if c.Ok? {
        ApplyAllValid(db, b.ops);
        db := c.value;
        r := Ok(());
      } else {
        r := Err(c.error);
      }
    }

    /** The commit of a transaction started on the current state: its writes, atomically. */
    method CommitTransaction(tx: Transaction) returns (r: Result<(), StoreError>)
      requires Valid()
      modifies this
      ensures Valid()
      ensures var c := ApplyAll(old(db), tx.writes);
              (c.Ok? ==> r.Ok? && db == c.value) && (c.Err? ==> r == Err(c.error) && db == old(db))
    {
      var c := ApplyAll(db, tx.writes);
      if c.Ok? {
        ApplyAllValid(db, tx.writes);
        db := c.value;
        r := Ok(());
      } else {
        r := Err(c.error);
      }
    }
  }
}
