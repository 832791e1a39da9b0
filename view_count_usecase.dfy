/**
 * The batch's use case: fetch the video statistics, and in one transaction
 * record a view-history entry for every known video, move its milestone
 * when its view count reached it and write the matching news; then insert
 * the videos the collection did not know yet, with their first entry.
 */
module ViewCountUseCase {
  import opened Wrappers
  import opened Documents
  import opened DocumentStore
  import opened FirestoreRepository
  import opened VideoRepository

  // ------------------------------------------------------------ fetched items

  /** The ids of the items. */
  function ItemIds(items: seq<VideoInfoItem>): set<string>
  {
    set it | it in items :: it.id
  }

  /**
   * `fetchFromYouTube`'s reduce: the items keyed by id; of two items with
   * the same id the later one is kept.
   */
  function ItemsById(items: seq<VideoInfoItem>): (r: map<string, VideoInfoItem>)
    ensures r.Keys == ItemIds(items)
    ensures forall id :: id in r ==> r[id].id == id && r[id] in items
    decreases |items|
  {
    if items == [] then map[]
    else
      var init := items[..|items| - 1];
      var last := items[|items| - 1];
      assert items == init + [last];
      var m := ItemsById(init);
      m[last.id := last]
  }

  /** Of the items sharing an id, the record keeps the last one. */
  lemma {:induction false} LaterItemWins(items: seq<VideoInfoItem>, i: nat)
    requires i < |items| && forall j :: i < j < |items| ==> items[j].id != items[i].id
    ensures items[i].id in ItemsById(items) && ItemsById(items)[items[i].id] == items[i]
    decreases |items|
  {
    var init := items[..|items| - 1];
    if i < |items| - 1 {
      assert items[|items| - 1].id != items[i].id;
      assert init[i] == items[i];
      forall j | i < j < |init| ensures init[j].id != init[i].id {
        assert init[j] == items[j];
      }
      LaterItemWins(init, i);
    }
  }

  /**
   * `Object.keys` of that record: each id once, in the order it was first
   * inserted.
   */
  function KeyOrder(items: seq<VideoInfoItem>): (r: seq<string>)
    ensures forall v :: v in r <==> v in ItemIds(items)
    ensures forall i, j :: 0 <= i < j < |r| ==> r[i] != r[j]
    decreases |items|
  {
    if items == [] then []
    else
      var init := items[..|items| - 1];
      var last := items[|items| - 1];
      assert items == init + [last];
      var k := KeyOrder(init);
      if last.id in k then k else k + [last.id]
  }

  /** `fetchAndStore`'s first reduce: each id's view count. */
  function ViewCounts(byId: map<string, VideoInfoItem>): map<string, nat>
  {
    map id | id in byId :: byId[id].viewCount
  }

  // ----------------------------------------------------- milestones and news

  /**
   * The outcome for one loaded document: reached when the view count is at
   * least the milestone, else approaching when the policy says it is close,
   * else nothing.
   */
  function Decide(doc: VideoDocument, viewCount: nat, policy: Policy): Option<NewsCategory>
  {
    if viewCount >= doc.milestone then Some(ViewCountReached)
    else if policy.isCloseToNextMilestone(viewCount) then Some(ViewCountApproach)
    else None
  }

  /**
   * The news of that outcome: the view count with the milestone it was
   * measured against (the old one when reached, the current one when close).
   */
  function NewsFor(doc: VideoDocument, viewCount: nat, policy: Policy): (r: Option<NewsDocument>)
    ensures (r.Some? && r.value.category == ViewCountReached) <==> viewCount >= doc.milestone
    ensures (r.Some? && r.value.category == ViewCountApproach) <==>
            viewCount < doc.milestone && policy.isCloseToNextMilestone(viewCount)
    ensures r.Some? <==> Decide(doc, viewCount, policy).Some?
    ensures r.Some? ==> r.value.category == Decide(doc, viewCount, policy).value
    ensures r.Some? ==> r.value.videoId == doc.videoId && r.value.videoTitle == doc.title
    ensures r.Some? ==> r.value.properties == NewsProperties(viewCount, doc.milestone)
  {
    match Decide(doc, viewCount, policy)
    case None => None
    case Some(c) => Some(NewsDocument(doc.videoId, doc.title, c, NewsProperties(viewCount, doc.milestone)))
  }

  /** `setNewMilestone`'s document: the old one with only the milestone moved. */
  function WithNewMilestone(doc: VideoDocument, viewCount: nat, policy: Policy): (r: VideoDocument)
    ensures r.milestone == policy.calcMilestone(viewCount)
    ensures r.(milestone := doc.milestone) == doc
  {
    doc.(milestone := policy.calcMilestone(viewCount))
  }

  /** `celebrateReaching(tx, videoId, title, viewCount, oldMilestone)`: stages a "reached" news. */
  method CelebrateReaching(tx: Transaction, videoId: string, videoTitle: string, viewCount: nat, oldMilestone: nat)
    modifies tx
    ensures tx.writes == old(tx.writes) +
                         [AddNews(NewsDocument(videoId, videoTitle, ViewCountReached, NewsProperties(viewCount, oldMilestone)))]
  {
    tx.Stage(AddNews(NewsDocument(videoId, videoTitle, ViewCountReached, NewsProperties(viewCount, oldMilestone))));
  }

  /** `notifyApproacingMilestone(tx, videoId, title, viewCount, currentMilestone)`: stages an "approach" news. */
  method NotifyApproachingMilestone(tx: Transaction, videoId: string, videoTitle: string, viewCount: nat, currentMilestone: nat)
    modifies tx
    ensures tx.writes == old(tx.writes) +
                         [AddNews(NewsDocument(videoId, videoTitle, ViewCountApproach, NewsProperties(viewCount, currentMilestone)))]
  {
    tx.Stage(AddNews(NewsDocument(videoId, videoTitle, ViewCountApproach, NewsProperties(viewCount, currentMilestone))));
  }

  /** `setNewMilestone(tx, docId, oldDoc, viewCount)`: stages the update of the milestone. */
  method SetNewMilestone(tx: Transaction, docId: DocId, oldDoc: VideoDocument, viewCount: nat, policy: Policy)
    modifies tx
    ensures tx.writes == old(tx.writes) + [UpdateVideo(docId, WithNewMilestone(oldDoc, viewCount, policy))]
  {
    var newVideoDoc := oldDoc.(milestone := policy.calcMilestone(viewCount));
    UpdateVideoInTx(tx, docId, newVideoDoc);
  }

  // -------------------------------------------------------- the transaction

  /** Every loaded document's `videoId` has a view count. */
  predicate Counted(docs: seq<QueryDoc<VideoDocument>>, counts: map<string, nat>)
  {
    forall i :: 0 <= i < |docs| ==> docs[i].data.videoId in counts
  }

  /** The writes staged for one loaded document, in the order the loop stages them. */
  function DocOps(doc: QueryDoc<VideoDocument>, viewCount: nat, policy: Policy, historyId: DocId): (ops: seq<Op>)
    ensures 0 < |ops| <= 3 && ops[|ops| - 1] == SetSub(SubRef(HistoryKey(doc.id), historyId), NewViewHistory(viewCount), None)
  {
    var d := doc.data;
    (if viewCount >= d.milestone
     then [AddNews(NewsFor(d, viewCount, policy).value), UpdateVideo(doc.id, WithNewMilestone(d, viewCount, policy))]
     else if policy.isCloseToNextMilestone(viewCount) then [AddNews(NewsFor(d, viewCount, policy).value)]
     else []) +
    [SetSub(SubRef(HistoryKey(doc.id), historyId), NewViewHistory(viewCount), None)]
  }

  /** The transaction's writes: each document's in turn, the history entries at consecutive new ids from `base`. */
  function ReconcileOps(docs: seq<QueryDoc<VideoDocument>>, counts: map<string, nat>, policy: Policy, base: nat): seq<Op>
    requires Counted(docs, counts)
    decreases |docs|
  {
    if docs == [] then []
    else
      var n := |docs| - 1;
      ReconcileOps(docs[..n], counts, policy, base) + DocOps(docs[n], counts[docs[n].data.videoId], policy, base + n)
  }

  /** The news the transaction writes, in order: at most one per loaded document. */
  function NewsLog(docs: seq<QueryDoc<VideoDocument>>, counts: map<string, nat>, policy: Policy): (r: seq<NewsDocument>)
    requires Counted(docs, counts)
    ensures |r| <= |docs|
    decreases |docs|
  {
    if docs == [] then []
    else
      var last := docs[|docs| - 1];
      NewsLog(docs[..|docs| - 1], counts, policy) + NewsOf(last.data, counts[last.data.videoId], policy)
  }

  /** The news one document's view count announces: none or one. */
  function NewsOf(doc: VideoDocument, viewCount: nat, policy: Policy): seq<NewsDocument>
  {
    match NewsFor(doc, viewCount, policy)
    case None => []
    case Some(n) => [n]
  }

  /** The `videoId`s of the loaded documents. */
  function LoadedVideoIds(docs: seq<QueryDoc<VideoDocument>>): set<string>
  {
    set d | d in docs :: d.data.videoId
  }

  /** The decision for the `i`th loaded document. */
  function DecisionAt(docs: seq<QueryDoc<VideoDocument>>, counts: map<string, nat>, policy: Policy, i: nat): Option<NewsCategory>
    requires Counted(docs, counts) && i < |docs|
  {
    Decide(docs[i].data, counts[docs[i].data.videoId], policy)
  }

  /** The loop's updates of the result record: a `videoId` is set to its document's outcome when there is one. */
  function Announced(m: map<string, Option<NewsCategory>>, docs: seq<QueryDoc<VideoDocument>>, counts: map<string, nat>, policy: Policy):
    (r: map<string, Option<NewsCategory>>)
    requires Counted(docs, counts)
    decreases |docs|
  {
    if docs == [] then m
    else
      var init := docs[..|docs| - 1];
      var last := docs[|docs| - 1];
      assert docs == init + [last];
      var prev := Announced(m, init, counts, policy);
      match Decide(last.data, counts[last.data.videoId], policy)
      case None => prev
      case Some(c) => prev[last.data.videoId := Some(c)]
  }

  /**
   * The record the transaction returns: every loaded `videoId`, first with
   * `None` (the source's `null`), then updated by the loop.
   */
  function Outcomes(docs: seq<QueryDoc<VideoDocument>>, counts: map<string, nat>, policy: Policy): (r: map<string, Option<NewsCategory>>)
    requires Counted(docs, counts)
  {
    Announced(map v | v in LoadedVideoIds(docs) :: None, docs, counts, policy)
  }

  /** The loop only overwrites entries that are already there. */
  lemma {:induction false} AnnouncedKeys(m: map<string, Option<NewsCategory>>, docs: seq<QueryDoc<VideoDocument>>, counts: map<string, nat>, policy: Policy)
    requires Counted(docs, counts)
    requires forall i :: 0 <= i < |docs| ==> docs[i].data.videoId in m
    ensures Announced(m, docs, counts, policy).Keys == m.Keys
    decreases |docs|
  {
    if docs != [] {
      var init := docs[..|docs| - 1];
      assert forall i :: 0 <= i < |init| ==> init[i] == docs[i];
      AnnouncedKeys(m, init, counts, policy);
    }
  }

  /** The record's keys are exactly the loaded `videoId`s. */
  lemma OutcomesKeys(docs: seq<QueryDoc<VideoDocument>>, counts: map<string, nat>, policy: Policy)
    requires Counted(docs, counts)
    ensures Outcomes(docs, counts, policy).Keys == LoadedVideoIds(docs)
  {
    var m := map v | v in LoadedVideoIds(docs) :: None;
    assert forall i :: 0 <= i < |docs| ==> docs[i] in docs;
    AnnouncedKeys(m, docs, counts, policy);
  }

  /**
   * A `videoId`'s entry: the outcome of its last document that has one, or
   * what it was before when none of its documents has one.
   */
  lemma {:induction false} AnnouncedValue(m: map<string, Option<NewsCategory>>, docs: seq<QueryDoc<VideoDocument>>, counts: map<string, nat>, policy: Policy, v: string)
    requires Counted(docs, counts) && v in m
    ensures v in Announced(m, docs, counts, policy)
    ensures (forall i :: 0 <= i < |docs| && docs[i].data.videoId == v ==> DecisionAt(docs, counts, policy, i).None?) ==>
              Announced(m, docs, counts, policy)[v] == m[v]
    ensures forall i :: 0 <= i < |docs| && docs[i].data.videoId == v && DecisionAt(docs, counts, policy, i).Some? &&
                        (forall j :: i < j < |docs| && docs[j].data.videoId == v ==> DecisionAt(docs, counts, policy, j).None?) ==>
              Announced(m, docs, counts, policy)[v] == DecisionAt(docs, counts, policy, i)
    decreases |docs|
  {
    if docs != [] {
      var n := |docs| - 1;
      var init := docs[..n];
      assert forall i :: 0 <= i < n ==> init[i] == docs[i];
      assert forall i :: 0 <= i < n ==> DecisionAt(init, counts, policy, i) == DecisionAt(docs, counts, policy, i);
      AnnouncedValue(m, init, counts, policy, v);
      var prev := Announced(m, init, counts, policy);
      var r := Announced(m, docs, counts, policy);
      AnnouncedStep(m, docs, counts, policy);
      if DecisionAt(docs, counts, policy, n).Some? && docs[n].data.videoId == v {
        assert r[v] == DecisionAt(docs, counts, policy, n);
        forall i | 0 <= i < |docs| && docs[i].data.videoId == v && DecisionAt(docs, counts, policy, i).Some? &&
                   (forall j :: i < j < |docs| && docs[j].data.videoId == v ==> DecisionAt(docs, counts, policy, j).None?)
          ensures r[v] == DecisionAt(docs, counts, policy, i)
        {
          assert i == n;
        }
      } else {
        assert r[v] == prev[v];
        forall i | 0 <= i < |docs| && docs[i].data.videoId == v && DecisionAt(docs, counts, policy, i).Some? &&
                   (forall j :: i < j < |docs| && docs[j].data.videoId == v ==> DecisionAt(docs, counts, policy, j).None?)
          ensures r[v] == DecisionAt(docs, counts, policy, i)
        {
          assert i < n;
          assert forall j :: i < j < |init| && init[j].data.videoId == v ==> DecisionAt(init, counts, policy, j).None?;
        }
      }
    }
  }

  /** One step of the loop's record updates. */
  lemma AnnouncedStep(m: map<string, Option<NewsCategory>>, docs: seq<QueryDoc<VideoDocument>>, counts: map<string, nat>, policy: Policy)
    requires Counted(docs, counts) && docs != []
    ensures var n := |docs| - 1;
            var prev := Announced(m, docs[..n], counts, policy);
            Announced(m, docs, counts, policy) ==
              if DecisionAt(docs, counts, policy, n).Some?
              then prev[docs[n].data.videoId := DecisionAt(docs, counts, policy, n)]
              else prev
  {
  }

  /** A loaded `videoId` whose documents all have no outcome is `None`; otherwise it is its last document's outcome. */
  lemma OutcomesValue(docs: seq<QueryDoc<VideoDocument>>, counts: map<string, nat>, policy: Policy, v: string)
    requires Counted(docs, counts) && v in LoadedVideoIds(docs)
    ensures v in Outcomes(docs, counts, policy)
    ensures (forall i :: 0 <= i < |docs| && docs[i].data.videoId == v ==> DecisionAt(docs, counts, policy, i).None?) ==>
              Outcomes(docs, counts, policy)[v] == None
    ensures forall i :: 0 <= i < |docs| && docs[i].data.videoId == v && DecisionAt(docs, counts, policy, i).Some? &&
                        (forall j :: i < j < |docs| && docs[j].data.videoId == v ==> DecisionAt(docs, counts, policy, j).None?) ==>
              Outcomes(docs, counts, policy)[v] == DecisionAt(docs, counts, policy, i)
  {
    AnnouncedValue(map v | v in LoadedVideoIds(docs) :: None, docs, counts, policy, v);
  }

  /**
   * The state after one loaded document's writes: its milestone moved when
   * the view count reached it, the news its outcome calls for appended, and
   * its history entry upserted at `historyId`.
   */
  function DocEffect(db: Db, doc: QueryDoc<VideoDocument>, viewCount: nat, policy: Policy, historyId: DocId): Db
  {
    db.(videos := if viewCount >= doc.data.milestone
                  then db.videos[doc.id := WithNewMilestone(doc.data, viewCount, policy)]
                  else db.videos,
        news := db.news + NewsOf(doc.data, viewCount, policy),
        subs := db.subs[HistoryKey(doc.id) := Upsert(SubsAt(db, HistoryKey(doc.id)), historyId, NewViewHistory(viewCount))],
        nextId := Bump(db.nextId, historyId))
  }

  /** One loaded document's writes all apply, with the effect `DocEffect` describes. */
  lemma DocOpsEffect(db: Db, doc: QueryDoc<VideoDocument>, viewCount: nat, policy: Policy, historyId: DocId)
    requires doc.id in db.videos
    ensures ApplyAll(db, DocOps(doc, viewCount, policy, historyId)) == Ok(DocEffect(db, doc, viewCount, policy, historyId))
  {
    if viewCount >= doc.data.milestone {
      ReachedOpsEffect(db, doc, viewCount, policy, historyId);
    } else if policy.isCloseToNextMilestone(viewCount) {
      ApproachingOpsEffect(db, doc, viewCount, policy, historyId);
    } else {
      QuietOpsEffect(db, doc, viewCount, policy, historyId);
    }
  }

  /** The milestone is reached: the news, the milestone update, then the history entry. */
  lemma ReachedOpsEffect(db: Db, doc: QueryDoc<VideoDocument>, viewCount: nat, policy: Policy, historyId: DocId)
    requires doc.id in db.videos && viewCount >= doc.data.milestone
    ensures ApplyAll(db, DocOps(doc, viewCount, policy, historyId)) == Ok(DocEffect(db, doc, viewCount, policy, historyId))
  {
    var key := HistoryKey(doc.id);
    var h := NewViewHistory(viewCount);
    var set_ := SetSub(SubRef(key, historyId), h, None);
    var n := NewsFor(doc.data, viewCount, policy).value;
    var upd := UpdateVideo(doc.id, WithNewMilestone(doc.data, viewCount, policy));
    assert DocOps(doc, viewCount, policy, historyId) == [AddNews(n), upd, set_];
    var d1 := db.(news := db.news + [n]);
    var d2 := d1.(videos := d1.videos[doc.id := WithNewMilestone(doc.data, viewCount, policy)]);
    var d3 := d2.(subs := d2.subs[key := Upsert(SubsAt(d2, key), historyId, h)], nextId := Bump(d2.nextId, historyId));
    ApplyAddNews(db, n);
    ApplyUpdateVideo(d1, doc.id, WithNewMilestone(doc.data, viewCount, policy));
    assert ApplyOp(d2, set_) == Ok(d3);
    ApplyThree(db, AddNews(n), upd, set_, d1, d2, d3);
  }

  lemma ApplyThree(db: Db, a: Op, b: Op, c: Op, d1: Db, d2: Db, d3: Db)
    requires ApplyOp(db, a) == Ok(d1) && ApplyOp(d1, b) == Ok(d2) && ApplyOp(d2, c) == Ok(d3)
    ensures ApplyAll(db, [a, b, c]) == Ok(d3)
  {
    ApplyAllCons(d2, c, [], d3);
    ApplyAllCons(d1, b, [c], d2);
    ApplyAllCons(db, a, [b, c], d1);
  }

  /** The milestone is close: the news, then the history entry. */
  lemma ApproachingOpsEffect(db: Db, doc: QueryDoc<VideoDocument>, viewCount: nat, policy: Policy, historyId: DocId)
    requires viewCount < doc.data.milestone && policy.isCloseToNextMilestone(viewCount)
    ensures ApplyAll(db, DocOps(doc, viewCount, policy, historyId)) == Ok(DocEffect(db, doc, viewCount, policy, historyId))
  {
    var key := HistoryKey(doc.id);
    var h := NewViewHistory(viewCount);
    var set_ := SetSub(SubRef(key, historyId), h, None);
    var n := NewsFor(doc.data, viewCount, policy).value;
    assert DocOps(doc, viewCount, policy, historyId) == [AddNews(n), set_];
    var d1 := db.(news := db.news + [n]);
    var d3 := d1.(subs := d1.subs[key := Upsert(SubsAt(d1, key), historyId, h)], nextId := Bump(d1.nextId, historyId));
    ApplyAllCons(d1, set_, [], d3);
    ApplyAllCons(db, AddNews(n), [set_], d1);
  }

  /** Nothing to announce: only the history entry. */
  lemma QuietOpsEffect(db: Db, doc: QueryDoc<VideoDocument>, viewCount: nat, policy: Policy, historyId: DocId)
    requires viewCount < doc.data.milestone && !policy.isCloseToNextMilestone(viewCount)
    ensures ApplyAll(db, DocOps(doc, viewCount, policy, historyId)) == Ok(DocEffect(db, doc, viewCount, policy, historyId))
  {
    var key := HistoryKey(doc.id);
    var h := NewViewHistory(viewCount);
    var set_ := SetSub(SubRef(key, historyId), h, None);
    assert DocOps(doc, viewCount, policy, historyId) == [set_];
    var d3 := db.(subs := db.subs[key := Upsert(SubsAt(db, key), historyId, h)], nextId := Bump(db.nextId, historyId));
    ApplyAllCons(db, set_, [], d3);
    assert NewsOf(doc.data, viewCount, policy) == [];
    assert db.news + [] == db.news;
  }

  /** A write that succeeds, followed by others. */
  lemma ApplyAllCons(db: Db, op: Op, rest: seq<Op>, next: Db)
    requires ApplyOp(db, op) == Ok(next)
    ensures ApplyAll(db, [op] + rest) == ApplyAll(next, rest)
  {
    assert ([op] + rest)[0] == op;
    assert ([op] + rest)[1..] == rest;
  }

  /** The requirements under which the transaction's writes are committed: fresh history ids, loaded documents. */
  ghost predicate ReconcilePre(db: Db, docs: seq<QueryDoc<VideoDocument>>, counts: map<string, nat>, base: nat)
  {
    && (forall k :: k in db.subs ==> AllBelow(db.subs[k], base))
    && (forall i :: 0 <= i < |docs| ==> docs[i].id in db.videos)
    && (forall i, j :: 0 <= i < j < |docs| ==> docs[i].id < docs[j].id)
    && Counted(docs, counts)
    && base + |docs| <= db.nextId
  }

  /** The state after the transaction's writes: each loaded document's effect in turn, its history entry at `base + i`. */
  function ReconcileState(db: Db, docs: seq<QueryDoc<VideoDocument>>, counts: map<string, nat>, policy: Policy, base: nat): Db
    requires Counted(docs, counts)
    decreases |docs|
  {
    if docs == [] then db
    else
      var n := |docs| - 1;
      DocEffect(ReconcileState(db, docs[..n], counts, policy, base), docs[n], counts[docs[n].data.videoId], policy, base + n)
  }

  /** The transaction neither moves the allocator nor adds or removes a video document. */
  lemma {:induction false} ReconcileShape(db: Db, docs: seq<QueryDoc<VideoDocument>>, counts: map<string, nat>, policy: Policy, base: nat)
    requires ReconcilePre(db, docs, counts, base)
    ensures ReconcileState(db, docs, counts, policy, base).nextId == db.nextId
    ensures ReconcileState(db, docs, counts, policy, base).videos.Keys == db.videos.Keys
    decreases |docs|
  {
    if docs != [] {
      var n := |docs| - 1;
      assert ReconcilePre(db, docs[..n], counts, base);
      ReconcileShape(db, docs[..n], counts, policy, base);
    }
  }

  /** The writes and the state of all documents are those of all but the last, then the last one's. */
  lemma ReconcileSnoc(db: Db, docs: seq<QueryDoc<VideoDocument>>, counts: map<string, nat>, policy: Policy, base: nat)
    requires docs != [] && Counted(docs, counts)
    ensures var n := |docs| - 1;
            ReconcileOps(docs, counts, policy, base) ==
            ReconcileOps(docs[..n], counts, policy, base) + DocOps(docs[n], counts[docs[n].data.videoId], policy, base + n)
    ensures var n := |docs| - 1;
            ReconcileState(db, docs, counts, policy, base) ==
            DocEffect(ReconcileState(db, docs[..n], counts, policy, base), docs[n], counts[docs[n].data.videoId], policy, base + n)
  {
  }

  /** The last document's writes apply after the others', from the state `m` they leave. */
  lemma OpsThenDoc(db: Db, pre: seq<Op>, m: Db, doc: QueryDoc<VideoDocument>, viewCount: nat, policy: Policy, historyId: DocId)
    requires ApplyAll(db, pre) == Ok(m) && doc.id in m.videos
    ensures ApplyAll(db, pre + DocOps(doc, viewCount, policy, historyId)) == Ok(DocEffect(m, doc, viewCount, policy, historyId))
  {
    DocOpsEffect(m, doc, viewCount, policy, historyId);
    ApplyAllThen(db, pre, DocOps(doc, viewCount, policy, historyId), m, DocEffect(m, doc, viewCount, policy, historyId));
  }

  /** The transaction's writes all apply, and leave the state `ReconcileState` describes. */
  lemma {:induction false} ReconcileApplies(db: Db, docs: seq<QueryDoc<VideoDocument>>, counts: map<string, nat>, policy: Policy, base: nat)
    requires ReconcilePre(db, docs, counts, base)
    ensures ApplyAll(db, ReconcileOps(docs, counts, policy, base)) == Ok(ReconcileState(db, docs, counts, policy, base))
    decreases |docs|
  {
    if docs != [] {
      assert ReconcilePre(db, docs[..|docs| - 1], counts, base);
      ReconcileApplies(db, docs[..|docs| - 1], counts, policy, base);
      ReconcileShape(db, docs[..|docs| - 1], counts, policy, base);
      ReconcileAppliesStep(db, docs, counts, policy, base, ReconcileState(db, docs[..|docs| - 1], counts, policy, base));
    }
  }

  /** The last document's writes apply after the others', from the state `m` they leave. */
  lemma ReconcileAppliesStep(db: Db, docs: seq<QueryDoc<VideoDocument>>, counts: map<string, nat>, policy: Policy, base: nat, m: Db)
    requires docs != [] && Counted(docs, counts)
    requires m == ReconcileState(db, docs[..|docs| - 1], counts, policy, base)
    requires ApplyAll(db, ReconcileOps(docs[..|docs| - 1], counts, policy, base)) == Ok(m)
    requires docs[|docs| - 1].id in m.videos
    ensures ApplyAll(db, ReconcileOps(docs, counts, policy, base)) == Ok(ReconcileState(db, docs, counts, policy, base))
  {
    OpsThenDoc(db, ReconcileOps(docs[..|docs| - 1], counts, policy, base), m,
               docs[|docs| - 1], counts[docs[|docs| - 1].data.videoId], policy, base + (|docs| - 1));
  }

  /** The sub-collections of the documents not loaded are untouched. */
  lemma {:induction false} ReconcileFrame(db: Db, docs: seq<QueryDoc<VideoDocument>>, counts: map<string, nat>, policy: Policy, base: nat)
    requires Counted(docs, counts)
    ensures forall k :: (forall i :: 0 <= i < |docs| ==> k != HistoryKey(docs[i].id)) ==>
              SubsAt(ReconcileState(db, docs, counts, policy, base), k) == SubsAt(db, k)
    decreases |docs|
  {
    if docs != [] {
      var n := |docs| - 1;
      var init := docs[..n];
      ReconcileFrame(db, init, counts, policy, base);
      forall k | (forall i :: 0 <= i < |docs| ==> k != HistoryKey(docs[i].id))
        ensures SubsAt(ReconcileState(db, docs, counts, policy, base), k) == SubsAt(db, k)
      {
        assert forall i :: 0 <= i < n ==> init[i] == docs[i];
        assert k != HistoryKey(docs[n].id);
      }
    }
  }

  lemma AppendAssoc<T>(a: seq<T>, b: seq<T>, c: seq<T>)
    ensures (a + b) + c == a + (b + c)
  {
  }

  /** The news log grows by the news of the announcing documents, in order. */
  lemma {:induction false} ReconcileNews(db: Db, docs: seq<QueryDoc<VideoDocument>>, counts: map<string, nat>, policy: Policy, base: nat)
    requires Counted(docs, counts)
    ensures ReconcileState(db, docs, counts, policy, base).news == db.news + NewsLog(docs, counts, policy)
    decreases |docs|
  {
    if docs != [] {
      ReconcileNews(db, docs[..|docs| - 1], counts, policy, base);
      AppendAssoc(db.news, NewsLog(docs[..|docs| - 1], counts, policy),
                  NewsOf(docs[|docs| - 1].data, counts[docs[|docs| - 1].data.videoId], policy));
    }
  }

  /**
   * From `before` to `after`, a loaded document's milestone moved exactly
   * when its view count reached it, and every other document is as it was.
   */
  ghost predicate MilestonesMoved(before: Db, after: Db, docs: seq<QueryDoc<VideoDocument>>, counts: map<string, nat>, policy: Policy)
    requires Counted(docs, counts)
  {
    && (forall i :: 0 <= i < |docs| ==>
          docs[i].id in before.videos && docs[i].id in after.videos &&
          after.videos[docs[i].id] ==
          if counts[docs[i].data.videoId] >= docs[i].data.milestone
          then WithNewMilestone(docs[i].data, counts[docs[i].data.videoId], policy)
          else before.videos[docs[i].id])
    && (forall id :: id in before.videos && (forall i :: 0 <= i < |docs| ==> docs[i].id != id) ==>
          id in after.videos && after.videos[id] == before.videos[id])
  }

  lemma MilestonesStep(db: Db, m: Db, d: Db, docs: seq<QueryDoc<VideoDocument>>, counts: map<string, nat>, policy: Policy, base: nat)
    requires docs != [] && ReconcilePre(db, docs, counts, base)
    requires MilestonesMoved(db, m, docs[..|docs| - 1], counts, policy)
    requires var last := docs[|docs| - 1]; var vc := counts[last.data.videoId];
             d.videos == if vc >= last.data.milestone then m.videos[last.id := WithNewMilestone(last.data, vc, policy)] else m.videos
    ensures MilestonesMoved(db, d, docs, counts, policy)
  {
    var n := |docs| - 1;
    assert forall i :: 0 <= i < n ==> docs[..n][i] == docs[i] && docs[i].id != docs[n].id;
    MilestonesStepLoaded(db, m, d, docs, counts, policy);
    MilestonesStepFrame(db, m, d, docs, counts, policy);
  }

  lemma MilestonesStepLoaded(db: Db, m: Db, d: Db, docs: seq<QueryDoc<VideoDocument>>, counts: map<string, nat>, policy: Policy)
    requires docs != [] && Counted(docs, counts) && docs[|docs| - 1].id in db.videos
    requires forall i :: 0 <= i < |docs| - 1 ==> docs[..|docs| - 1][i] == docs[i] && docs[i].id != docs[|docs| - 1].id
    requires MilestonesMoved(db, m, docs[..|docs| - 1], counts, policy)
    requires var last := docs[|docs| - 1]; var vc := counts[last.data.videoId];
             d.videos == if vc >= last.data.milestone then m.videos[last.id := WithNewMilestone(last.data, vc, policy)] else m.videos
    ensures forall i :: 0 <= i < |docs| ==>
              docs[i].id in db.videos && docs[i].id in d.videos &&
              d.videos[docs[i].id] ==
              if counts[docs[i].data.videoId] >= docs[i].data.milestone
              then WithNewMilestone(docs[i].data, counts[docs[i].data.videoId], policy)
              else db.videos[docs[i].id]
  {
    var n := |docs| - 1;
    var init := docs[..n];
    forall i | 0 <= i < |docs|
      ensures docs[i].id in db.videos && docs[i].id in d.videos &&
              d.videos[docs[i].id] ==
              if counts[docs[i].data.videoId] >= docs[i].data.milestone
              then WithNewMilestone(docs[i].data, counts[docs[i].data.videoId], policy)
              else db.videos[docs[i].id]
    {
      if i < n { assert docs[i] == init[i]; }
    }
  }

  lemma MilestonesStepFrame(db: Db, m: Db, d: Db, docs: seq<QueryDoc<VideoDocument>>, counts: map<string, nat>, policy: Policy)
    requires docs != [] && Counted(docs, counts)
    requires forall i :: 0 <= i < |docs| - 1 ==> docs[..|docs| - 1][i] == docs[i]
    requires MilestonesMoved(db, m, docs[..|docs| - 1], counts, policy)
    requires var last := docs[|docs| - 1]; var vc := counts[last.data.videoId];
             d.videos == if vc >= last.data.milestone then m.videos[last.id := WithNewMilestone(last.data, vc, policy)] else m.videos
    ensures forall id :: id in db.videos && (forall i :: 0 <= i < |docs| ==> docs[i].id != id) ==>
              id in d.videos && d.videos[id] == db.videos[id]
  {
    var n := |docs| - 1;
    forall id | id in db.videos && (forall i :: 0 <= i < |docs| ==> docs[i].id != id)
      ensures id in d.videos && d.videos[id] == db.videos[id]
    {
      assert forall i :: 0 <= i < n ==> docs[..n][i].id != id;
      assert docs[n].id != id;
    }
  }

  /** The transaction moves exactly the reached milestones. */
  lemma {:induction false} ReconcileMilestones(db: Db, docs: seq<QueryDoc<VideoDocument>>, counts: map<string, nat>, policy: Policy, base: nat)
    requires ReconcilePre(db, docs, counts, base)
    ensures MilestonesMoved(db, ReconcileState(db, docs, counts, policy, base), docs, counts, policy)
    decreases |docs|
  {
    if docs != [] {
      var n := |docs| - 1;
      var init := docs[..n];
      assert ReconcilePre(db, init, counts, base);
      ReconcileMilestones(db, init, counts, policy, base);
      MilestonesStep(db, ReconcileState(db, init, counts, policy, base), ReconcileState(db, docs, counts, policy, base),
                     docs, counts, policy, base);
    }
  }

  /** From `before` to `after`, each loaded document gained the history entry at id `base + i`, with its view count. */
  ghost predicate HistoriesAdded(before: Db, after: Db, docs: seq<QueryDoc<VideoDocument>>, counts: map<string, nat>, base: nat)
    requires Counted(docs, counts)
  {
    forall i :: 0 <= i < |docs| ==>
      SubsAt(after, HistoryKey(docs[i].id)) ==
      SubsAt(before, HistoryKey(docs[i].id)) + [SubDoc(base + i, NewViewHistory(counts[docs[i].data.videoId]))]
  }

  lemma HistoriesStep(db: Db, m: Db, d: Db, docs: seq<QueryDoc<VideoDocument>>, counts: map<string, nat>, base: nat)
    requires docs != [] && ReconcilePre(db, docs, counts, base)
    requires HistoriesAdded(db, m, docs[..|docs| - 1], counts, base)
    requires var last := docs[|docs| - 1]; var key := HistoryKey(last.id);
             && SubsAt(m, key) == SubsAt(db, key)
             && d.subs == m.subs[key := Upsert(SubsAt(m, key), base + |docs| - 1, NewViewHistory(counts[last.data.videoId]))]
    ensures HistoriesAdded(db, d, docs, counts, base)
  {
    var n := |docs| - 1;
    var init := docs[..n];
    var last := docs[n];
    var key := HistoryKey(last.id);
    assert forall i :: 0 <= i < n ==> init[i] == docs[i] && key != HistoryKey(init[i].id);
    assert AllBelow(SubsAt(db, key), base);
    assert SubsAt(d, key) == SubsAt(db, key) + [SubDoc(base + n, NewViewHistory(counts[last.data.videoId]))];
    forall i | 0 <= i < |docs|
      ensures SubsAt(d, HistoryKey(docs[i].id)) ==
              SubsAt(db, HistoryKey(docs[i].id)) + [SubDoc(base + i, NewViewHistory(counts[docs[i].data.videoId]))]
    {
      if i < n { assert HistoryKey(docs[i].id) != key; }
    }
  }

  /** Each loaded document gains exactly one history entry, with its view count, at its own new id. */
  lemma {:induction false} ReconcileHistories(db: Db, docs: seq<QueryDoc<VideoDocument>>, counts: map<string, nat>, policy: Policy, base: nat)
    requires ReconcilePre(db, docs, counts, base)
    ensures HistoriesAdded(db, ReconcileState(db, docs, counts, policy, base), docs, counts, base)
    decreases |docs|
  {
    if docs != [] {
      var n := |docs| - 1;
      var init := docs[..n];
      var key := HistoryKey(docs[n].id);
      assert ReconcilePre(db, init, counts, base);
      var m := ReconcileState(db, init, counts, policy, base);
      assert SubsAt(m, key) == SubsAt(db, key) by {
        ReconcileFrame(db, init, counts, policy, base);
        assert forall i :: 0 <= i < n ==> init[i] == docs[i] && key != HistoryKey(init[i].id);
      }
      ReconcileHistories(db, init, counts, policy, base);
      HistoriesStep(db, m, ReconcileState(db, docs, counts, policy, base), docs, counts, base);
    }
  }

  /** One more document's writes and outcome: the loop's step. */
  lemma ReconcilePrefix(docs: seq<QueryDoc<VideoDocument>>, counts: map<string, nat>, policy: Policy, base: nat, i: nat,
                        m: map<string, Option<NewsCategory>>)
    requires Counted(docs, counts) && i < |docs|
    ensures ReconcileOps(docs[..i + 1], counts, policy, base) ==
            ReconcileOps(docs[..i], counts, policy, base) + DocOps(docs[i], counts[docs[i].data.videoId], policy, base + i)
    ensures Announced(m, docs[..i + 1], counts, policy) ==
            match Decide(docs[i].data, counts[docs[i].data.videoId], policy)
            case None => Announced(m, docs[..i], counts, policy)
            case Some(c) => Announced(m, docs[..i], counts, policy)[docs[i].data.videoId := Some(c)]
  {
    assert docs[..i + 1][..i] == docs[..i];
  }

  /**
   * The loop body for one loaded document: its news and milestone when its
   * outcome calls for them, its history entry, and its entry of the result
   * record.
   */
  method ReconcileOne(fs: Firestore, tx: Transaction, doc: QueryDoc<VideoDocument>, viewCount: nat, policy: Policy,
                      results: map<string, Option<NewsCategory>>)
    returns (results': map<string, Option<NewsCategory>>)
    requires fs.Valid()
    modifies fs, tx
    ensures fs.Valid()
    ensures fs.db == old(fs.db).(nextId := old(fs.db.nextId) + 1)
    ensures tx.writes == old(tx.writes) + DocOps(doc, viewCount, policy, old(fs.db.nextId))
    ensures results' == match Decide(doc.data, viewCount, policy)
                        case None => results
                        case Some(c) => results[doc.data.videoId := Some(c)]
  {
    results' := results;
    if viewCount >= doc.data.milestone {
      CelebrateReaching(tx, doc.data.videoId, doc.data.title, viewCount, doc.data.milestone);
      SetNewMilestone(tx, doc.id, doc.data, viewCount, policy);
      results' := results[doc.data.videoId := Some(ViewCountReached)];
    } else if policy.isCloseToNextMilestone(viewCount) {
      NotifyApproachingMilestone(tx, doc.data.videoId, doc.data.title, viewCount, doc.data.milestone);
      results' := results[doc.data.videoId := Some(ViewCountApproach)];
    }
    AddViewHistoryInTx(fs, tx, doc.id, NewViewHistory(viewCount));
  }

  /** What the load hands the loop: counted documents, whose writes commit once their history ids are allocated. */
  lemma LoadedDocuments(db: Db, keys: seq<string>, counts: map<string, nat>)
    requires db.Valid()
    requires forall v :: v in keys <==> v in counts
    requires InFilterAccepted(keys)
    ensures GetByVideoIdsInTx(db, keys).Ok?
    ensures Counted(GetByVideoIdsInTx(db, keys).value, counts)
    ensures ReconcilePre(db.(nextId := db.nextId + |GetByVideoIdsInTx(db, keys).value|),
                         GetByVideoIdsInTx(db, keys).value, counts, db.nextId)
  {
  }

  /**
   * The loop so far, from `db0`, over the documents `docs`: one history id
   * drawn per document, their writes staged, and the result record
   * `initial` updated with their outcomes.
   */
  ghost predicate Staged(db0: Db, db: Db, writes: seq<Op>, results: map<string, Option<NewsCategory>>,
                         initial: map<string, Option<NewsCategory>>, docs: seq<QueryDoc<VideoDocument>>,
                         counts: map<string, nat>, policy: Policy)
  {
    && Counted(docs, counts)
    && db == db0.(nextId := db0.nextId + |docs|)
    && writes == ReconcileOps(docs, counts, policy, db0.nextId)
    && results == Announced(initial, docs, counts, policy)
  }

  /** One more document's pass keeps `Staged`. */
  lemma StagedSnoc(db0: Db, db: Db, writes: seq<Op>, results: map<string, Option<NewsCategory>>,
                   initial: map<string, Option<NewsCategory>>, docs: seq<QueryDoc<VideoDocument>>,
                   counts: map<string, nat>, policy: Policy, i: nat,
                   db': Db, writes': seq<Op>, results': map<string, Option<NewsCategory>>)
    requires Counted(docs, counts) && i < |docs|
    requires Staged(db0, db, writes, results, initial, docs[..i], counts, policy)
    requires db' == db.(nextId := db.nextId + 1)
    requires writes' == writes + DocOps(docs[i], counts[docs[i].data.videoId], policy, db.nextId)
    requires results' == match Decide(docs[i].data, counts[docs[i].data.videoId], policy)
                         case None => results
                         case Some(c) => results[docs[i].data.videoId := Some(c)]
    ensures Staged(db0, db', writes', results', initial, docs[..i + 1], counts, policy)
  {
    ReconcilePrefix(docs, counts, policy, db0.nextId, i, initial);
  }

  /** The transaction's loop over the loaded documents, from the result record with every `videoId` at `None`. */
  method ReconcileAll(fs: Firestore, tx: Transaction, docs: seq<QueryDoc<VideoDocument>>, counts: map<string, nat>, policy: Policy)
    returns (results: map<string, Option<NewsCategory>>)
    requires fs.Valid() && Counted(docs, counts) && tx.writes == []
    modifies fs, tx
    ensures fs.Valid()
    ensures Staged(old(fs.db), fs.db, tx.writes, results, map v | v in LoadedVideoIds(docs) :: None, docs, counts, policy)
  {
    results := map v | v in LoadedVideoIds(docs) :: None;
    ghost var initial := results;
    var i := 0;
    while i < |docs|
      invariant 0 <= i <= |docs|
      invariant fs.Valid()
      invariant Staged(old(fs.db), fs.db, tx.writes, results, initial, docs[..i], counts, policy)
    {
      ghost var db := fs.db;
      ghost var writes := tx.writes;
      ghost var prev := results;
      results := ReconcileOne(fs, tx, docs[i], counts[docs[i].data.videoId], policy, results);
      StagedSnoc(old(fs.db), db, writes, prev, initial, docs, counts, policy, i, fs.db, tx.writes, results);
      i := i + 1;
    }
    assert docs[..i] == docs;
  }

  /**
   * What a committed transaction over `docs` leaves behind: the result
   * record of the loop, and the state with one history id allocated per
   * document (from `before.nextId`) and each document's writes applied.
   */
  ghost predicate Reconciled(before: Db, after: Db, docs: seq<QueryDoc<VideoDocument>>, counts: map<string, nat>,
                             policy: Policy, results: map<string, Option<NewsCategory>>)
  {
    && Counted(docs, counts)
    && results == Outcomes(docs, counts, policy)
    && after == ReconcileState(before.(nextId := before.nextId + |docs|), docs, counts, policy, before.nextId)
  }

  /** The loop's writes and record, once committed, are what `Reconciled` describes. */
  lemma ReconcileCommitted(db0: Db, d2: Db, writes: seq<Op>, results: map<string, Option<NewsCategory>>, final: Db,
                           docs: seq<QueryDoc<VideoDocument>>, counts: map<string, nat>, policy: Policy)
    requires ReconcilePre(db0.(nextId := db0.nextId + |docs|), docs, counts, db0.nextId)
    requires Staged(db0, d2, writes, results, map v | v in LoadedVideoIds(docs) :: None, docs, counts, policy)
    requires var c := ApplyAll(d2, writes); (c.Ok? ==> final == c.value) && (c.Err? ==> final == d2)
    ensures Reconciled(db0, final, docs, counts, policy, results)
  {
    ReconcileApplies(d2, docs, counts, policy, db0.nextId);
  }

  /**
   * The transaction once its documents are loaded from the state it started
   * on: the loop, then the commit of what it staged.
   */
  method ReconcileAndCommit(fs: Firestore, docs: seq<QueryDoc<VideoDocument>>, counts: map<string, nat>, policy: Policy)
    returns (results: map<string, Option<NewsCategory>>)
    requires fs.Valid()
    requires ReconcilePre(fs.db.(nextId := fs.db.nextId + |docs|), docs, counts, fs.db.nextId)
    modifies fs
    ensures fs.Valid()
    ensures Reconciled(old(fs.db), fs.db, docs, counts, policy, results)
  {
    ghost var db0 := fs.db;
    var tx := new Transaction(fs.db);
    results := ReconcileAll(fs, tx, docs, counts, policy);
    ghost var d2 := fs.db;
    var c := fs.CommitTransaction(tx);
    ReconcileCommitted(db0, d2, tx.writes, results, fs.db, docs, counts, policy);
  }

  /**
   * `updateVideoAndCreateNewsIfNeeded(videoIdAndViewCounts)`, with `keys`
   * the record's `Object.keys`: one transaction that loads the known videos,
   * stages each one's news, milestone and history entry, and commits. The
   * load refuses an empty list and one over the `in` limit, which aborts
   * the transaction; otherwise the commit always succeeds.
   */
  method UpdateVideoAndCreateNewsIfNeeded(fs: Firestore, policy: Policy, counts: map<string, nat>, keys: seq<string>)
    returns (r: Result<map<string, Option<NewsCategory>>, StoreError>, ghost docs: seq<QueryDoc<VideoDocument>>)
    requires fs.Valid()
    requires forall v :: v in keys <==> v in counts
    modifies fs
    ensures fs.Valid()
    ensures r.Err? <==> !InFilterAccepted(keys)
    ensures r.Err? ==> r.error == InvalidQuery
    ensures r.Err? ==> fs.db == old(fs.db)
    ensures r.Ok? ==>
              && GetByVideoIdsInTx(old(fs.db), keys) == Ok(docs)
              && ReconcilePre(old(fs.db).(nextId := old(fs.db.nextId) + |docs|), docs, counts, old(fs.db.nextId))
              && Reconciled(old(fs.db), fs.db, docs, counts, policy, r.value)
  {
    var got := GetByVideoIdsInTx(fs.db, keys);
    if got.Err? {
      r := Err(got.error);
      docs := [];
      return;
    }
    docs := got.value;
    LoadedDocuments(fs.db, keys, counts);
    var results := ReconcileAndCommit(fs, got.value, counts, policy);
    r := Ok(results);
  }

  // ------------------------------------------------------------------ insert

  /**
   * `Timestamp.fromDate`'s conversion of a date's milliseconds since the
   * epoch: whole seconds rounded down, the rest as nanoseconds.
   */
  function TimestampFromMillis(ms: int): Field
  {
    Timestamp(ms / 1000, (ms % 1000) * 1000000)
  }

  /** The conversion loses nothing: whole milliseconds of nanoseconds, and the date back from the two parts. */
  lemma TimestampFromMillisExact(ms: int)
    ensures TimestampFromMillis(ms).Timestamp?
    ensures 0 <= TimestampFromMillis(ms).nanoseconds < 1000000000
    ensures TimestampFromMillis(ms).nanoseconds % 1000000 == 0
    ensures TimestampFromMillis(ms).seconds * 1000 + TimestampFromMillis(ms).nanoseconds / 1000000 == ms
  {
  }

  /**
   * `convert(item)`: the root document of a new video, its milestone from
   * the view count and `updated` the server-timestamp sentinel; `None` when
   * converting `publishedAt` throws. `parseDate` gives the milliseconds of
   * `publishedAt`, or `None` when the conversion to a Timestamp fails.
   */
  function Convert(item: VideoInfoItem, parseDate: string -> Option<int>, policy: Policy): (r: Option<VideoDocument>)
    ensures r.None? <==> parseDate(item.publishedAt).None?
    ensures r.Some? ==> && r.value.videoId == item.id && r.value.title == item.title
                        && r.value.channelId == item.channelId
                        && r.value.publishedAt == TimestampFromMillis(parseDate(item.publishedAt).value)
                        && r.value.milestone == policy.calcMilestone(item.viewCount)
                        && r.value.updated == ServerTimestamp
  {
    match parseDate(item.publishedAt)
    case None => None
    case Some(ms) =>
      Some(VideoDocument(item.id, item.title, item.channelId, TimestampFromMillis(ms),
                         policy.calcMilestone(item.viewCount), ServerTimestamp))
  }

  /** The record's entries that convert, in the record's order, with their documents. */
  function Converted(items: map<string, VideoInfoItem>, order: seq<string>, parseDate: string -> Option<int>, policy: Policy):
    (r: seq<(string, VideoDocument)>)
    requires forall k :: k in order ==> k in items
    ensures |r| <= |order|
    ensures forall j :: 0 <= j < |r| ==>
              r[j].0 in order && Convert(items[r[j].0], parseDate, policy) == Some(r[j].1)
    decreases |order|
  {
    if order == [] then []
    else
      var init := order[..|order| - 1];
      var k := order[|order| - 1];
      assert order == init + [k];
      var prev := Converted(items, init, parseDate, policy);
      match Convert(items[k], parseDate, policy)
      case None => prev
      case Some(d) =>
        var r := prev + [(k, d)];
        assert forall j :: 0 <= j < |prev| ==> r[j] == prev[j];
        r
  }

  /** A subsequence of distinct keys has distinct keys. */
  lemma {:induction false} ConvertedDistinct(items: map<string, VideoInfoItem>, order: seq<string>, parseDate: string -> Option<int>, policy: Policy)
    requires forall k :: k in order ==> k in items
    requires forall i, j :: 0 <= i < j < |order| ==> order[i] != order[j]
    ensures forall i, j :: 0 <= i < j < |Converted(items, order, parseDate, policy)| ==>
              Converted(items, order, parseDate, policy)[i].0 != Converted(items, order, parseDate, policy)[j].0
    decreases |order|
  {
    if order != [] {
      var init := order[..|order| - 1];
      var k := order[|order| - 1];
      assert forall i :: 0 <= i < |init| ==> init[i] == order[i] && init[i] != k;
      ConvertedDistinct(items, init, parseDate, policy);
    }
  }

  /** Some entry of `conv` has key `k`. */
  predicate HasKey(conv: seq<(string, VideoDocument)>, k: string)
  {
    exists j :: 0 <= j < |conv| && conv[j].0 == k
  }

  lemma HasKeySnoc(prev: seq<(string, VideoDocument)>, x: (string, VideoDocument), k: string)
    ensures HasKey(prev + [x], k) <==> HasKey(prev, k) || x.0 == k
  {
    var conv := prev + [x];
    if HasKey(prev, k) {
      var j :| 0 <= j < |prev| && prev[j].0 == k;
      assert conv[j].0 == k;
    }
    if x.0 == k {
      assert conv[|prev|].0 == k;
    }
    if HasKey(conv, k) {
      var j :| 0 <= j < |conv| && conv[j].0 == k;
      if j < |prev| {
        assert prev[j].0 == k;
      }
    }
  }

  /** One step of `Converted`: the last key is kept exactly when its item converts. */
  lemma ConvertedStep(items: map<string, VideoInfoItem>, order: seq<string>, parseDate: string -> Option<int>, policy: Policy)
    requires forall k :: k in order ==> k in items
    requires order != []
    ensures Converted(items, order, parseDate, policy) ==
            Converted(items, order[..|order| - 1], parseDate, policy) +
            (match Convert(items[order[|order| - 1]], parseDate, policy)
             case None => []
             case Some(d) => [(order[|order| - 1], d)])
  {
  }

  /** Every item of the record that converts is among the converted ones, and exactly those are. */
  lemma {:induction false} ConvertedCovers(items: map<string, VideoInfoItem>, order: seq<string>, parseDate: string -> Option<int>, policy: Policy, k: string)
    requires forall k :: k in order ==> k in items
    ensures (k in order && Convert(items[k], parseDate, policy).Some?) <==> HasKey(Converted(items, order, parseDate, policy), k)
    decreases |order|
  {
    if order != [] {
      var init := order[..|order| - 1];
      var last := order[|order| - 1];
      assert order == init + [last];
      assert k in order <==> k in init || k == last;
      var prev := Converted(items, init, parseDate, policy);
      ConvertedCovers(items, init, parseDate, policy, k);
      ConvertedStep(items, order, parseDate, policy);
      match Convert(items[last], parseDate, policy)
      case None =>
        assert Converted(items, order, parseDate, policy) == prev + [];
        assert prev + [] == prev;
      case Some(d) =>
        HasKeySnoc(prev, (last, d), k);
    }
  }

  function DocsOf(conv: seq<(string, VideoDocument)>): (r: seq<VideoDocument>)
    ensures |r| == |conv| && forall j :: 0 <= j < |conv| ==> r[j] == conv[j].1
  {
    seq(|conv|, j requires 0 <= j < |conv| => conv[j].1)
  }

  /** The second batch: one history entry per new video document, at `base` onwards. */
  function FirstHistoryOps(parents: seq<DocId>, viewCounts: seq<nat>, base: nat): (ops: seq<Op>)
    requires |parents| == |viewCounts|
    ensures |ops| == |parents|
    ensures forall j :: 0 <= j < |ops| ==>
              ops[j] == SetSub(SubRef(HistoryKey(parents[j]), base + j), NewViewHistory(viewCounts[j]), None)
  {
    seq(|parents|, j requires 0 <= j < |parents| =>
      SetSub(SubRef(HistoryKey(parents[j]), base + j), NewViewHistory(viewCounts[j]), None))
  }

  /** From `before` to `after`, each parent gained its one history entry at `base + j`, and nothing else changed. */
  ghost predicate FirstHistoriesIn(before: Db, after: Db, parents: seq<DocId>, viewCounts: seq<nat>, base: nat)
    requires |parents| == |viewCounts|
  {
    && (forall j :: 0 <= j < |parents| ==>
          SubsAt(after, HistoryKey(parents[j])) ==
          SubsAt(before, HistoryKey(parents[j])) + [SubDoc(base + j, NewViewHistory(viewCounts[j]))])
    && (forall k: SubKey :: !(k.name == SubCollectionName && k.parent in parents) ==>
          SubsAt(after, k) == SubsAt(before, k))
    && after.(subs := before.subs) == before
  }

  lemma FirstHistoriesStep(db: Db, d1: Db, d: Db, parents: seq<DocId>, viewCounts: seq<nat>, base: nat)
    requires |parents| == |viewCounts| && parents != []
    requires forall i, j :: 0 <= i < j < |parents| ==> parents[i] != parents[j]
    requires AllBelow(SubsAt(db, HistoryKey(parents[0])), base)
    requires d1 == HeadEntry(db, parents, viewCounts, base)
    requires FirstHistoriesIn(d1, d, parents[1..], viewCounts[1..], base + 1)
    ensures FirstHistoriesIn(db, d, parents, viewCounts, base)
  {
    var k0 := HistoryKey(parents[0]);
    var tail := parents[1..];
    assert forall i :: 0 <= i < |tail| ==> tail[i] == parents[i + 1] && viewCounts[1..][i] == viewCounts[i + 1];
    assert forall i :: 0 <= i < |tail| ==> k0 != HistoryKey(tail[i]);
    assert SubsAt(d, k0) == SubsAt(d1, k0);
    forall j | 0 <= j < |parents|
      ensures SubsAt(d, HistoryKey(parents[j])) == SubsAt(db, HistoryKey(parents[j])) + [SubDoc(base + j, NewViewHistory(viewCounts[j]))]
    {
      if j > 0 {
        assert tail[j - 1] == parents[j];
        assert HistoryKey(parents[j]) != k0;
      }
    }
    forall k: SubKey | !(k.name == SubCollectionName && k.parent in parents)
      ensures SubsAt(d, k) == SubsAt(db, k)
    {
      assert k != k0;
      assert !(k.name == SubCollectionName && k.parent in tail);
    }
  }

  /**
   * The second batch's writes at ids the allocator has handed out: they all
   * apply, each parent gains exactly its one entry, and nothing else changes.
   */
  lemma {:induction false} FirstHistoriesEffect(db: Db, parents: seq<DocId>, viewCounts: seq<nat>, base: nat)
    requires |parents| == |viewCounts|
    requires forall i, j :: 0 <= i < j < |parents| ==> parents[i] != parents[j]
    requires forall k :: k in db.subs ==> AllBelow(db.subs[k], base)
    requires base + |parents| <= db.nextId
    ensures ApplyAll(db, FirstHistoryOps(parents, viewCounts, base)).Ok?
    ensures FirstHistoriesIn(db, After(db, FirstHistoryOps(parents, viewCounts, base)), parents, viewCounts, base)
    decreases |parents|
  {
    if parents != [] {
      FirstHistoryHead(db, parents, viewCounts, base);
      FirstHistoriesEffect(HeadEntry(db, parents, viewCounts, base), parents[1..], viewCounts[1..], base + 1);
      FirstHistoriesStep(db, HeadEntry(db, parents, viewCounts, base),
                         After(HeadEntry(db, parents, viewCounts, base), FirstHistoryOps(parents[1..], viewCounts[1..], base + 1)),
                         parents, viewCounts, base);
    }
  }

  /** The state after the second batch's first write: the first parent's entry at `base`. */
  function HeadEntry(db: Db, parents: seq<DocId>, viewCounts: seq<nat>, base: nat): Db
    requires |parents| == |viewCounts| && parents != []
  {
    var k0 := HistoryKey(parents[0]);
    db.(subs := db.subs[k0 := SubsAt(db, k0) + [SubDoc(base, NewViewHistory(viewCounts[0]))]])
  }

  /** The second batch's first write applies, and leaves the rest of the batch with the same requirements. */
  lemma FirstHistoryHead(db: Db, parents: seq<DocId>, viewCounts: seq<nat>, base: nat)
    requires |parents| == |viewCounts| && parents != []
    requires forall i, j :: 0 <= i < j < |parents| ==> parents[i] != parents[j]
    requires forall k :: k in db.subs ==> AllBelow(db.subs[k], base)
    requires base + |parents| <= db.nextId
    ensures ApplyAll(db, FirstHistoryOps(parents, viewCounts, base)) ==
            ApplyAll(HeadEntry(db, parents, viewCounts, base), FirstHistoryOps(parents[1..], viewCounts[1..], base + 1))
    ensures AllBelow(SubsAt(db, HistoryKey(parents[0])), base)
    ensures forall k :: k in HeadEntry(db, parents, viewCounts, base).subs ==> AllBelow(HeadEntry(db, parents, viewCounts, base).subs[k], base + 1)
    ensures forall i, j :: 0 <= i < j < |parents[1..]| ==> parents[1..][i] != parents[1..][j]
    ensures base + 1 + |parents[1..]| <= HeadEntry(db, parents, viewCounts, base).nextId
  {
    FirstHistoryHeadApplies(db, parents, viewCounts, base);
    FirstHistoryHeadBelow(db, parents, viewCounts, base);
    TailDistinct(parents);
  }

  lemma FirstHistoryHeadApplies(db: Db, parents: seq<DocId>, viewCounts: seq<nat>, base: nat)
    requires |parents| == |viewCounts| && parents != []
    requires base < db.nextId
    requires forall k :: k in db.subs ==> AllBelow(db.subs[k], base)
    ensures ApplyAll(db, FirstHistoryOps(parents, viewCounts, base)) ==
            ApplyAll(HeadEntry(db, parents, viewCounts, base), FirstHistoryOps(parents[1..], viewCounts[1..], base + 1))
    ensures AllBelow(SubsAt(db, HistoryKey(parents[0])), base)
  {
    var op := SetSub(SubRef(HistoryKey(parents[0]), base), NewViewHistory(viewCounts[0]), None);
    assert FirstHistoryOps(parents, viewCounts, base) == [op] + FirstHistoryOps(parents[1..], viewCounts[1..], base + 1);
    assert AllBelow(SubsAt(db, HistoryKey(parents[0])), base);
    assert ApplyOp(db, op) == Ok(HeadEntry(db, parents, viewCounts, base));
    ApplyAllCons(db, op, FirstHistoryOps(parents[1..], viewCounts[1..], base + 1), HeadEntry(db, parents, viewCounts, base));
  }

  lemma FirstHistoryHeadBelow(db: Db, parents: seq<DocId>, viewCounts: seq<nat>, base: nat)
    requires |parents| == |viewCounts| && parents != []
    requires forall k :: k in db.subs ==> AllBelow(db.subs[k], base)
    ensures forall k :: k in HeadEntry(db, parents, viewCounts, base).subs ==> AllBelow(HeadEntry(db, parents, viewCounts, base).subs[k], base + 1)
  {
    var k0 := HistoryKey(parents[0]);
    var d1 := HeadEntry(db, parents, viewCounts, base);
    forall k | k in d1.subs ensures AllBelow(d1.subs[k], base + 1) {
      if k != k0 { assert AllBelow(db.subs[k], base); }
    }
  }

  lemma TailDistinct<T>(s: seq<T>)
    requires s != []
    requires forall i, j :: 0 <= i < j < |s| ==> s[i] != s[j]
    ensures forall i, j :: 0 <= i < j < |s[1..]| ==> s[1..][i] != s[1..][j]
  {
    assert forall i, j :: 0 <= i < j < |s[1..]| ==> s[1..][i] == s[i + 1] && s[1..][j] == s[j + 1];
  }

  lemma FirstHistoryOpsSnoc(parents: seq<DocId>, viewCounts: seq<nat>, p: DocId, vc: nat, base: nat)
    requires |parents| == |viewCounts|
    ensures FirstHistoryOps(parents + [p], viewCounts + [vc], base) ==
            FirstHistoryOps(parents, viewCounts, base) + [SetSub(SubRef(HistoryKey(p), base + |parents|), NewViewHistory(vc), None)]
  {
    var a := FirstHistoryOps(parents + [p], viewCounts + [vc], base);
    var b := FirstHistoryOps(parents, viewCounts, base) + [SetSub(SubRef(HistoryKey(p), base + |parents|), NewViewHistory(vc), None)];
    assert |a| == |b|;
    forall j | 0 <= j < |a| ensures a[j] == b[j] {
      if j < |parents| { assert (parents + [p])[j] == parents[j] && (viewCounts + [vc])[j] == viewCounts[j]; }
    }
  }

  /** The ids `addVideoWithBatch` handed out, one per converted item. */
  function NewIds(base: nat, n: nat): (r: seq<DocId>)
    ensures |r| == n && forall j :: 0 <= j < n ==> r[j] == base + j
  {
    seq(n, j requires 0 <= j < n => base + j)
  }

  /** The view count of each converted item, in the same order. */
  function HistoryCounts(items: map<string, VideoInfoItem>, conv: seq<(string, VideoDocument)>): (r: seq<nat>)
    requires forall j :: 0 <= j < |conv| ==> conv[j].0 in items
    ensures |r| == |conv| && forall j :: 0 <= j < |conv| ==> r[j] == items[conv[j].0].viewCount
  {
    seq(|conv|, j requires 0 <= j < |conv| => items[conv[j].0].viewCount)
  }

  /**
   * The state and result after `insertVideo` has added `docs` with their
   * first view counts: the ids of both batches are drawn whether or not the
   * commits succeed, and a failed first commit throws before the second
   * batch is built.
   */
  function InsertState(db: Db, docs: seq<VideoDocument>, viewCounts: seq<nat>): (Db, Result<(), StoreError>)
    requires |docs| == |viewCounts|
  {
    var n := |docs|;
    var s1 := db.(nextId := db.nextId + n);
    var c1 := BatchCommit(s1, AddVideosOps(docs, db.nextId));
    if c1.Err? then (s1, Err(c1.error))
    else
      var s2 := c1.value.(nextId := c1.value.nextId + n);
      var c2 := BatchCommit(s2, FirstHistoryOps(NewIds(db.nextId, n), viewCounts, c1.value.nextId));
      if c2.Err? then (s2, Err(c2.error)) else (c2.value, Ok(()))
  }

  /** `videos` holds `db`'s video documents and, under the new ids `b + j`, `docs[j]`, where `b` is `db`'s next id. */
  ghost predicate NewVideosIn(db: Db, videos: map<DocId, VideoDocument>, docs: seq<VideoDocument>)
  {
    var b := db.nextId;
    && (forall j :: 0 <= j < |docs| ==> b + j in videos && videos[b + j] == docs[j])
    && (forall id :: id in videos <==> id in db.videos || b <= id < b + |docs|)
    && (forall id :: id in db.videos ==> videos[id] == db.videos[id])
  }

  /**
   * From `db` to `d`, the documents `b + j` each gained exactly one view
   * history, at id `b + n + j`, with view count `viewCounts[j]`; every other
   * sub-collection is as it was.
   */
  ghost predicate NewHistoriesIn(db: Db, d: Db, b: nat, viewCounts: seq<nat>)
  {
    var n := |viewCounts|;
    && (forall j :: 0 <= j < n ==>
          SubsAt(d, HistoryKey(b + j)) == SubsAt(db, HistoryKey(b + j)) + [SubDoc(b + n + j, NewViewHistory(viewCounts[j]))])
    && (forall k: SubKey :: !(k.name == SubCollectionName && b <= k.parent < b + n) ==> SubsAt(d, k) == SubsAt(db, k))
  }

  /**
   * From `db` to `d`, each of `docs` became a root document under a new id
   * and gained exactly one view history with its view count; the news and
   * every other document are as they were.
   */
  ghost predicate Inserted(db: Db, d: Db, docs: seq<VideoDocument>, viewCounts: seq<nat>)
  {
    && |docs| == |viewCounts|
    && d.news == db.news && d.nextId == db.nextId + 2 * |docs|
    && NewVideosIn(db, d.videos, docs)
    && NewHistoriesIn(db, d, db.nextId, viewCounts)
  }

  /** `FirstHistoriesIn` for the consecutive new ids `b`, `b + 1`, …: the entries. */
  lemma HistoryEntriesAtNewIds(db: Db, s2: Db, d: Db, b: nat, hb: nat, viewCounts: seq<nat>)
    requires s2.subs == db.subs && hb == b + |viewCounts|
    requires FirstHistoriesIn(s2, d, NewIds(b, |viewCounts|), viewCounts, hb)
    ensures forall j :: 0 <= j < |viewCounts| ==>
              SubsAt(d, HistoryKey(b + j)) ==
              SubsAt(db, HistoryKey(b + j)) + [SubDoc(b + |viewCounts| + j, NewViewHistory(viewCounts[j]))]
  {
    var parents := NewIds(b, |viewCounts|);
    assert forall j :: 0 <= j < |viewCounts| ==> parents[j] == b + j;
  }

  /** `FirstHistoriesIn` for the consecutive new ids `b`, `b + 1`, …: the frame. */
  lemma HistoryFrameAtNewIds(db: Db, s2: Db, d: Db, b: nat, hb: nat, viewCounts: seq<nat>)
    requires s2.subs == db.subs
    requires FirstHistoriesIn(s2, d, NewIds(b, |viewCounts|), viewCounts, hb)
    ensures forall k: SubKey :: !(k.name == SubCollectionName && b <= k.parent < b + |viewCounts|) ==> SubsAt(d, k) == SubsAt(db, k)
  {
    var parents := NewIds(b, |viewCounts|);
    forall k: SubKey | !(k.name == SubCollectionName && b <= k.parent < b + |viewCounts|) ensures SubsAt(d, k) == SubsAt(db, k) {
      assert k.parent in parents ==> b <= k.parent < b + |viewCounts|;
    }
  }

  /** The first commit's effect, read against the state before both. */
  lemma ComposeVideos(db: Db, d1: Db, docs: seq<VideoDocument>)
    requires db.Valid()
    requires VideosAdded(db.(nextId := db.nextId + |docs|), d1, docs, db.nextId)
    ensures NewVideosIn(db, d1.videos, docs)
  {
    forall id | id in db.videos ensures d1.videos[id] == db.videos[id] {
      assert id < db.nextId;
    }
  }

  /** The two commits' effects, put together. */
  lemma ComposeInserted(db: Db, d1: Db, d: Db, docs: seq<VideoDocument>, viewCounts: seq<nat>)
    requires db.Valid() && |docs| == |viewCounts| && d1.nextId == db.nextId + |docs|
    requires VideosAdded(db.(nextId := db.nextId + |docs|), d1, docs, db.nextId)
    requires FirstHistoriesIn(d1.(nextId := d1.nextId + |docs|), d, NewIds(db.nextId, |docs|), viewCounts, d1.nextId)
    ensures Inserted(db, d, docs, viewCounts)
  {
    var n := |docs|;
    var b := db.nextId;
    var s1 := db.(nextId := b + n);
    var s2 := d1.(nextId := d1.nextId + n);
    assert d1.(videos := s1.videos) == s1;
    assert d.(subs := s2.subs) == s2;
    ComposeVideos(db, d1, docs);
    HistoryEntriesAtNewIds(db, s2, d, b, d1.nextId, viewCounts);
    HistoryFrameAtNewIds(db, s2, d, b, d1.nextId, viewCounts);
    assert d.news == db.news && d.nextId == b + 2 * n;
    assert NewVideosIn(db, d.videos, docs);
    assert NewHistoriesIn(db, d, b, viewCounts);
  }

  /** The first commit of `insertVideo` applies when it is within the limit. */
  lemma VideoBatchCommits(db: Db, docs: seq<VideoDocument>)
    requires |docs| <= MaxWritesPerBatch
    ensures BatchCommit(db.(nextId := db.nextId + |docs|), AddVideosOps(docs, db.nextId)) ==
            Ok(After(db.(nextId := db.nextId + |docs|), AddVideosOps(docs, db.nextId)))
    ensures VideosAdded(db.(nextId := db.nextId + |docs|), After(db.(nextId := db.nextId + |docs|), AddVideosOps(docs, db.nextId)),
                        docs, db.nextId)
  {
    AddVideosEffect(db.(nextId := db.nextId + |docs|), docs, db.nextId);
    CommitWithinLimit(db.(nextId := db.nextId + |docs|), AddVideosOps(docs, db.nextId));
  }

  /** The second commit of `insertVideo` applies when it is within the limit and its ids are fresh. */
  lemma HistoryBatchCommits(d1: Db, b: nat, viewCounts: seq<nat>)
    requires |viewCounts| <= MaxWritesPerBatch
    requires forall k :: k in d1.subs ==> AllBelow(d1.subs[k], b)
    requires d1.nextId == b + |viewCounts|
    ensures BatchCommit(d1.(nextId := d1.nextId + |viewCounts|), FirstHistoryOps(NewIds(b, |viewCounts|), viewCounts, d1.nextId)) ==
            Ok(After(d1.(nextId := d1.nextId + |viewCounts|), FirstHistoryOps(NewIds(b, |viewCounts|), viewCounts, d1.nextId)))
    ensures FirstHistoriesIn(d1.(nextId := d1.nextId + |viewCounts|),
                             After(d1.(nextId := d1.nextId + |viewCounts|), FirstHistoryOps(NewIds(b, |viewCounts|), viewCounts, d1.nextId)),
                             NewIds(b, |viewCounts|), viewCounts, d1.nextId)
  {
    SubsStayBelow(d1, b, d1.nextId, d1.nextId + |viewCounts|);
    NewIdsDistinct(b, |viewCounts|);
    FirstHistoriesEffect(d1.(nextId := d1.nextId + |viewCounts|), NewIds(b, |viewCounts|), viewCounts, d1.nextId);
    CommitWithinLimit(d1.(nextId := d1.nextId + |viewCounts|), FirstHistoryOps(NewIds(b, |viewCounts|), viewCounts, d1.nextId));
  }

  /** Ids below `b` are below any later `base`, whatever the allocator is moved to. */
  lemma SubsStayBelow(db: Db, b: nat, base: nat, next: nat)
    requires forall k :: k in db.subs ==> AllBelow(db.subs[k], b)
    requires b <= base
    ensures forall k :: k in db.(nextId := next).subs ==> AllBelow(db.(nextId := next).subs[k], base)
  {
    forall k | k in db.subs ensures AllBelow(db.subs[k], base) {
      assert AllBelow(db.subs[k], b);
    }
  }

  /** The new ids are distinct. */
  lemma NewIdsDistinct(b: nat, n: nat)
    ensures forall i, j :: 0 <= i < j < |NewIds(b, n)| ==> NewIds(b, n)[i] != NewIds(b, n)[j]
  {
  }

  /** `InsertState` when the first commit fails. */
  lemma InsertStateFirstFails(db: Db, docs: seq<VideoDocument>, viewCounts: seq<nat>)
    requires |docs| == |viewCounts|
    requires BatchCommit(db.(nextId := db.nextId + |docs|), AddVideosOps(docs, db.nextId)).Err?
    ensures InsertState(db, docs, viewCounts).0 == db.(nextId := db.nextId + |docs|)
    ensures InsertState(db, docs, viewCounts).1 == Err(BatchCommit(db.(nextId := db.nextId + |docs|), AddVideosOps(docs, db.nextId)).error)
  {
  }

  /** `InsertState` after the first commit applied: the outcome of the second. */
  lemma InsertStateFirstCommits(db: Db, docs: seq<VideoDocument>, viewCounts: seq<nat>, d1: Db)
    requires |docs| == |viewCounts|
    requires BatchCommit(db.(nextId := db.nextId + |docs|), AddVideosOps(docs, db.nextId)) == Ok(d1)
    ensures var c2 := BatchCommit(d1.(nextId := d1.nextId + |docs|), FirstHistoryOps(NewIds(db.nextId, |docs|), viewCounts, d1.nextId));
            && (c2.Err? ==> InsertState(db, docs, viewCounts).0 == d1.(nextId := d1.nextId + |docs|)
                            && InsertState(db, docs, viewCounts).1 == Err(c2.error))
            && (c2.Ok? ==> InsertState(db, docs, viewCounts).0 == c2.value && InsertState(db, docs, viewCounts).1 == Ok(()))
  {
  }

  /**
   * `InsertState` at the end of `insertVideo`: after the first commit
   * applied, the outcome of the second commit, of the writes `ops2`.
   */
  lemma InsertVideoFinish(db: Db, docs: seq<VideoDocument>, viewCounts: seq<nat>, d1: Db, final: Db, r: Result<(), StoreError>)
    requires |docs| == |viewCounts|
    requires BatchCommit(db.(nextId := db.nextId + |docs|), AddVideosOps(docs, db.nextId)) == Ok(d1)
    requires var c := BatchCommit(d1.(nextId := d1.nextId + |docs|), FirstHistoryOps(NewIds(db.nextId, |docs|), viewCounts, d1.nextId));
             (c.Ok? ==> r.Ok? && final == c.value) && (c.Err? ==> r == Err(c.error) && final == d1.(nextId := d1.nextId + |docs|))
    ensures final == InsertState(db, docs, viewCounts).0
    ensures r == InsertState(db, docs, viewCounts).1
  {
    InsertStateFirstCommits(db, docs, viewCounts, d1);
    if r.Ok? {
      assert r.value == ();
    }
  }

  /** The converted entries' keys are all keys of the record. */
  ghost predicate KeysIn(items: map<string, VideoInfoItem>, conv: seq<(string, VideoDocument)>)
  {
    forall j :: 0 <= j < |conv| ==> conv[j].0 in items
  }

  /**
   * `insertVideo`'s outcome for the converted entries `conv` of the record
   * `items`: the state and result `InsertState` gives for their documents,
   * with their view counts.
   */
  ghost predicate InsertOutcome(db: Db, final: Db, r: Result<(), StoreError>, items: map<string, VideoInfoItem>,
                                conv: seq<(string, VideoDocument)>)
    requires KeysIn(items, conv)
  {
    final == InsertState(db, DocsOf(conv), HistoryCounts(items, conv)).0 &&
    r == InsertState(db, DocsOf(conv), HistoryCounts(items, conv)).1
  }

  /**
   * What phase one and its commit leave: from `db` to `d1` the batch of the
   * converted documents committed (or, refused, only their ids drawn), and
   * `pairs` the converted keys with the ids `db.nextId + j`.
   */
  ghost predicate VideosPhase(db: Db, d1: Db, r1: Result<(), StoreError>, pairs: seq<(string, DocId)>, conv: seq<(string, VideoDocument)>)
  {
    var s1 := db.(nextId := db.nextId + |conv|);
    var c := BatchCommit(s1, AddVideosOps(DocsOf(conv), db.nextId));
    && (c.Ok? ==> r1.Ok? && d1 == c.value) && (c.Err? ==> r1 == Err(c.error) && d1 == s1)
    && |pairs| == |conv| && forall j :: 0 <= j < |pairs| ==> pairs[j] == (conv[j].0, db.nextId + j)
  }

  /** What phase two and its commit leave: from `d1` to `final`, the first histories' batch committed, or only its ids drawn. */
  ghost predicate HistoriesPhase(d1: Db, final: Db, r: Result<(), StoreError>, items: map<string, VideoInfoItem>, pairs: seq<(string, DocId)>)
    requires forall j :: 0 <= j < |pairs| ==> pairs[j].0 in items
  {
    var s2 := d1.(nextId := d1.nextId + |pairs|);
    var c := BatchCommit(s2, FirstHistoryOps(ParentsOf(pairs), PairCounts(items, pairs), d1.nextId));
    (c.Ok? ==> r.Ok? && final == c.value) && (c.Err? ==> r == Err(c.error) && final == s2)
  }

  /** A refused first commit ends `insertVideo` with the outcome `InsertState` gives. */
  lemma InsertVideoStopsEarly(db: Db, d1: Db, r1: Result<(), StoreError>, pairs: seq<(string, DocId)>,
                              items: map<string, VideoInfoItem>, conv: seq<(string, VideoDocument)>)
    requires KeysIn(items, conv)
    requires VideosPhase(db, d1, r1, pairs, conv) && r1.Err?
    ensures InsertOutcome(db, d1, r1, items, conv)
  {
    InsertStateFirstFails(db, DocsOf(conv), HistoryCounts(items, conv));
  }

  /** Both phases together end `insertVideo` with the outcome `InsertState` gives. */
  lemma InsertVideoOutcome(db: Db, d1: Db, final: Db, r1: Result<(), StoreError>, r: Result<(), StoreError>, pairs: seq<(string, DocId)>,
                           items: map<string, VideoInfoItem>, conv: seq<(string, VideoDocument)>)
    requires KeysIn(items, conv)
    requires VideosPhase(db, d1, r1, pairs, conv) && r1.Ok?
    requires forall j :: 0 <= j < |pairs| ==> pairs[j].0 in items
    requires HistoriesPhase(d1, final, r, items, pairs)
    ensures InsertOutcome(db, final, r, items, conv)
  {
    PairsAreConverted(items, conv, pairs, db.nextId, d1.nextId);
    VideosCommitted(db, d1, r1, pairs, conv);
    HistoriesCommitted(d1, final, r, items, pairs, |DocsOf(conv)|,
                       FirstHistoryOps(NewIds(db.nextId, |DocsOf(conv)|), HistoryCounts(items, conv), d1.nextId));
    InsertVideoFinish(db, DocsOf(conv), HistoryCounts(items, conv), d1, final, r);
  }

  /** Phase one committed: its batch is the one `InsertState` commits first. */
  lemma VideosCommitted(db: Db, d1: Db, r1: Result<(), StoreError>, pairs: seq<(string, DocId)>, conv: seq<(string, VideoDocument)>)
    requires VideosPhase(db, d1, r1, pairs, conv) && r1.Ok?
    ensures BatchCommit(db.(nextId := db.nextId + |DocsOf(conv)|), AddVideosOps(DocsOf(conv), db.nextId)) == Ok(d1)
  {
  }

  /** Phase two's batch, once shown to be `ops2` over `n` new documents, with its commit. */
  lemma HistoriesCommitted(d1: Db, final: Db, r: Result<(), StoreError>, items: map<string, VideoInfoItem>, pairs: seq<(string, DocId)>,
                           n: nat, ops2: seq<Op>)
    requires forall j :: 0 <= j < |pairs| ==> pairs[j].0 in items
    requires HistoriesPhase(d1, final, r, items, pairs)
    requires |pairs| == n && FirstHistoryOps(ParentsOf(pairs), PairCounts(items, pairs), d1.nextId) == ops2
    ensures var c := BatchCommit(d1.(nextId := d1.nextId + n), ops2);
            (c.Ok? ==> r.Ok? && final == c.value) && (c.Err? ==> r == Err(c.error) && final == d1.(nextId := d1.nextId + n))
  {
  }

  /** `InsertState` when both commits apply. */
  lemma InsertStateWhenBothCommit(db: Db, docs: seq<VideoDocument>, viewCounts: seq<nat>, d1: Db, d: Db)
    requires |docs| == |viewCounts|
    requires BatchCommit(db.(nextId := db.nextId + |docs|), AddVideosOps(docs, db.nextId)) == Ok(d1)
    requires BatchCommit(d1.(nextId := d1.nextId + |docs|), FirstHistoryOps(NewIds(db.nextId, |docs|), viewCounts, d1.nextId)) == Ok(d)
    ensures InsertState(db, docs, viewCounts).0 == d
    ensures InsertState(db, docs, viewCounts).1 == Ok(())
  {
  }

  /**
   * `insertVideo`: with at most one batch's worth of new documents both
   * commits succeed, with the effect `Inserted` describes.
   */
  lemma InsertStateEffect(db: Db, docs: seq<VideoDocument>, viewCounts: seq<nat>)
    requires db.Valid()
    requires |docs| == |viewCounts| && |docs| <= MaxWritesPerBatch
    ensures InsertState(db, docs, viewCounts).1 == Ok(())
    ensures Inserted(db, InsertState(db, docs, viewCounts).0, docs, viewCounts)
  {
    VideoBatchCommits(db, docs);
    var d1 := After(db.(nextId := db.nextId + |docs|), AddVideosOps(docs, db.nextId));
    VideosLeaveSubs(db, d1, docs);
    HistoryBatchCommits(d1, db.nextId, viewCounts);
    BothCommitsInserted(db, docs, viewCounts, d1,
                        After(d1.(nextId := d1.nextId + |docs|), FirstHistoryOps(NewIds(db.nextId, |docs|), viewCounts, d1.nextId)));
  }

  /** After the first commit, the sub-collections are as they were, their ids below the first new one. */
  lemma VideosLeaveSubs(db: Db, d1: Db, docs: seq<VideoDocument>)
    requires db.Valid()
    requires VideosAdded(db.(nextId := db.nextId + |docs|), d1, docs, db.nextId)
    ensures forall k :: k in d1.subs ==> AllBelow(d1.subs[k], db.nextId)
    ensures d1.nextId == db.nextId + |docs|
  {
    assert d1.(videos := db.videos) == db.(nextId := db.nextId + |docs|);
    assert d1.subs == db.subs;
  }

  /** Both commits applied, with their effects: `InsertState` is their outcome, which `Inserted` describes. */
  lemma BothCommitsInserted(db: Db, docs: seq<VideoDocument>, viewCounts: seq<nat>, d1: Db, d: Db)
    requires db.Valid() && |docs| == |viewCounts|
    requires BatchCommit(db.(nextId := db.nextId + |docs|), AddVideosOps(docs, db.nextId)) == Ok(d1)
    requires VideosAdded(db.(nextId := db.nextId + |docs|), d1, docs, db.nextId)
    requires BatchCommit(d1.(nextId := d1.nextId + |docs|), FirstHistoryOps(NewIds(db.nextId, |docs|), viewCounts, d1.nextId)) == Ok(d)
    requires d1.nextId == db.nextId + |docs|
    requires FirstHistoriesIn(d1.(nextId := d1.nextId + |docs|), d, NewIds(db.nextId, |docs|), viewCounts, d1.nextId)
    ensures InsertState(db, docs, viewCounts).1 == Ok(())
    ensures Inserted(db, InsertState(db, docs, viewCounts).0, docs, viewCounts)
  {
    InsertStateWhenBothCommit(db, docs, viewCounts, d1, d);
    ComposeInserted(db, d1, d, docs, viewCounts);
  }

  /** One more key of the record: its entry joins the converted ones when it converts. */
  lemma ConvertedSnoc(items: map<string, VideoInfoItem>, order: seq<string>, parseDate: string -> Option<int>, policy: Policy, i: nat)
    requires i < |order| && forall k :: k in order ==> k in items
    ensures Convert(items[order[i]], parseDate, policy).None? ==>
              Converted(items, order[..i + 1], parseDate, policy) == Converted(items, order[..i], parseDate, policy)
    ensures Convert(items[order[i]], parseDate, policy).Some? ==>
              Converted(items, order[..i + 1], parseDate, policy) ==
              Converted(items, order[..i], parseDate, policy) + [(order[i], Convert(items[order[i]], parseDate, policy).value)]
  {
    assert order[..i + 1][..i] == order[..i];
  }

  /** The converted entries after one more key: its entry is added when it converts. */
  function ConvertedThen(conv: seq<(string, VideoDocument)>, k: string, doc: Option<VideoDocument>): seq<(string, VideoDocument)>
  {
    match doc
    case None => conv
    case Some(d) => conv + [(k, d)]
  }

  /**
   * Phase one so far, from `db0`: one id drawn per converted entry of
   * `conv`, the batch holding their documents' `set`s at those ids, and
   * `pairs` the entries' keys with the ids.
   */
  ghost predicate Enqueued(db0: Db, db: Db, ops: seq<Op>, pairs: seq<(string, DocId)>, conv: seq<(string, VideoDocument)>)
  {
    && db == db0.(nextId := db0.nextId + |conv|)
    && ops == AddVideosOps(DocsOf(conv), db0.nextId)
    && |pairs| == |conv| && forall j :: 0 <= j < |pairs| ==> pairs[j] == (conv[j].0, db0.nextId + j)
  }

  /**
   * Phase one's loop body for one key: when its item converts, a `set` of the
   * new document at a fresh id, and the key kept with that id.
   */
  method EnqueueOne(fs: Firestore, batch: WriteBatch, k: string, item: VideoInfoItem,
                    parseDate: string -> Option<int>, policy: Policy,
                    ghost db0: Db, ghost conv: seq<(string, VideoDocument)>, pairs: seq<(string, DocId)>)
    returns (pairs': seq<(string, DocId)>)
    requires fs.Valid() && Enqueued(db0, fs.db, batch.ops, pairs, conv)
    modifies fs, batch
    ensures fs.Valid()
    ensures Enqueued(db0, fs.db, batch.ops, pairs', ConvertedThen(conv, k, Convert(item, parseDate, policy)))
  {
    pairs' := pairs;
    var doc := Convert(item, parseDate, policy);
    if doc.Some? {
      ghost var db := fs.db;
      ghost var ops := batch.ops;
      var docId := AddVideoWithBatch(fs, batch, doc.value);
      EnqueuedSnoc(db0, db, ops, pairs, conv, k, doc.value, docId, fs.db, batch.ops);
      pairs' := pairs + [(k, docId)];
    }
  }

  /** One more converted entry, its document `set` at the next id. */
  lemma EnqueuedSnoc(db0: Db, db: Db, ops: seq<Op>, pairs: seq<(string, DocId)>, conv: seq<(string, VideoDocument)>,
                     k: string, d: VideoDocument, docId: DocId, db': Db, ops': seq<Op>)
    requires Enqueued(db0, db, ops, pairs, conv)
    requires docId == db.nextId && db' == db.(nextId := db.nextId + 1) && ops' == ops + [SetVideo(docId, d, None)]
    ensures Enqueued(db0, db', ops', pairs + [(k, docId)], conv + [(k, d)])
  {
    assert DocsOf(conv + [(k, d)]) == DocsOf(conv) + [d];
    AddVideosOpsSnoc(DocsOf(conv), d, db0.nextId);
  }

  /** Phase one of `insertVideo`: one `set` per convertible item, keeping the item's key with its new id. */
  method EnqueueNewVideos(fs: Firestore, batch: WriteBatch, items: map<string, VideoInfoItem>, order: seq<string>,
                          parseDate: string -> Option<int>, policy: Policy)
    returns (pairs: seq<(string, DocId)>)
    requires fs.Valid() && batch.ops == []
    requires forall k :: k in order ==> k in items
    modifies fs, batch
    ensures fs.Valid()
    ensures Enqueued(old(fs.db), fs.db, batch.ops, pairs, Converted(items, order, parseDate, policy))
  {
    pairs := [];
    ghost var conv: seq<(string, VideoDocument)> := [];
    var i := 0;
    while i < |order|
      invariant 0 <= i <= |order|
      invariant fs.Valid()
      invariant conv == Converted(items, order[..i], parseDate, policy)
      invariant Enqueued(old(fs.db), fs.db, batch.ops, pairs, conv)
    {
      ConvertedSnoc(items, order, parseDate, policy, i);
      pairs := EnqueueOne(fs, batch, order[i], items[order[i]], parseDate, policy, old(fs.db), conv, pairs);
      conv := ConvertedThen(conv, order[i], Convert(items[order[i]], parseDate, policy));
      i := i + 1;
    }
    assert order[..i] == order;
  }

  /** The new document ids of the first phase, in order. */
  function ParentsOf(pairs: seq<(string, DocId)>): (r: seq<DocId>)
    ensures |r| == |pairs| && forall j :: 0 <= j < |pairs| ==> r[j] == pairs[j].1
  {
    seq(|pairs|, j requires 0 <= j < |pairs| => pairs[j].1)
  }

  /** The fetched view count behind each new document. */
  function PairCounts(items: map<string, VideoInfoItem>, pairs: seq<(string, DocId)>): (r: seq<nat>)
    requires forall j :: 0 <= j < |pairs| ==> pairs[j].0 in items
    ensures |r| == |pairs| && forall j :: 0 <= j < |pairs| ==> r[j] == items[pairs[j].0].viewCount
  {
    seq(|pairs|, j requires 0 <= j < |pairs| => items[pairs[j].0].viewCount)
  }

  /** The second batch phase two builds from the kept pairs is the one `InsertState` commits. */
  lemma PairsAreConverted(items: map<string, VideoInfoItem>, conv: seq<(string, VideoDocument)>, pairs: seq<(string, DocId)>, b: nat, base: nat)
    requires KeysIn(items, conv)
    requires |pairs| == |conv| && forall j :: 0 <= j < |pairs| ==> pairs[j] == (conv[j].0, b + j)
    ensures forall j :: 0 <= j < |pairs| ==> pairs[j].0 in items
    ensures |pairs| == |DocsOf(conv)|
    ensures FirstHistoryOps(ParentsOf(pairs), PairCounts(items, pairs), base) ==
            FirstHistoryOps(NewIds(b, |DocsOf(conv)|), HistoryCounts(items, conv), base)
  {
    assert ParentsOf(pairs) == NewIds(b, |conv|);
    assert PairCounts(items, pairs) == HistoryCounts(items, conv);
  }

  /** Phase two of `insertVideo`: one view history per new video document. */
  method EnqueueFirstHistories(fs: Firestore, batch: WriteBatch, items: map<string, VideoInfoItem>, pairs: seq<(string, DocId)>)
    requires fs.Valid() && batch.ops == []
    requires forall j :: 0 <= j < |pairs| ==> pairs[j].0 in items
    modifies fs, batch
    ensures fs.Valid()
    ensures fs.db == old(fs.db).(nextId := old(fs.db.nextId) + |pairs|)
    ensures batch.ops == FirstHistoryOps(ParentsOf(pairs), PairCounts(items, pairs), old(fs.db.nextId))
  {
    var base := fs.db.nextId;
    var j := 0;
    while j < |pairs|
      invariant 0 <= j <= |pairs|
      invariant fs.Valid()
      invariant fs.db == old(fs.db).(nextId := base + j)
      invariant batch.ops == FirstHistoryOps(ParentsOf(pairs[..j]), PairCounts(items, pairs[..j]), base)
    {
      var (videoId, docId) := pairs[j];
      var vc := items[videoId].viewCount;
      FirstHistoryOpsSnoc(ParentsOf(pairs[..j]), PairCounts(items, pairs[..j]), docId, vc, base);
      assert pairs[..j + 1] == pairs[..j] + [pairs[j]];
      assert ParentsOf(pairs[..j + 1]) == ParentsOf(pairs[..j]) + [docId];
      assert PairCounts(items, pairs[..j + 1]) == PairCounts(items, pairs[..j]) + [vc];
      AddViewHistoryWithBatch(fs, batch, docId, NewViewHistory(vc));
      j := j + 1;
    }
    assert pairs[..j] == pairs;
  }

  /** Phase one of `insertVideo` with its commit: the converted items' documents, and the keys with their new ids. */
  method AddConvertedVideos(fs: Firestore, items: map<string, VideoInfoItem>, order: seq<string>,
                            parseDate: string -> Option<int>, policy: Policy)
    returns (pairs: seq<(string, DocId)>, r: Result<(), StoreError>)
    requires fs.Valid()
    requires forall k :: k in order ==> k in items
    modifies fs
    ensures fs.Valid()
    ensures VideosPhase(old(fs.db), fs.db, r, pairs, Converted(items, order, parseDate, policy))
    ensures forall j :: 0 <= j < |pairs| ==> pairs[j].0 in items
  {
    ghost var db0 := fs.db;
    var videoBatch := StartBatch(fs);
    pairs := EnqueueNewVideos(fs, videoBatch, items, order, parseDate, policy);
    ghost var s1 := fs.db;
    r := CommitBatch(fs, videoBatch);
    VideosPhaseCommitted(db0, s1, videoBatch.ops, pairs, Converted(items, order, parseDate, policy), fs.db, r);
  }

  /** Phase one's enqueued writes and ids, with the commit's outcome, are what `VideosPhase` describes. */
  lemma VideosPhaseCommitted(db0: Db, s1: Db, ops: seq<Op>, pairs: seq<(string, DocId)>, conv: seq<(string, VideoDocument)>,
                             final: Db, r: Result<(), StoreError>)
    requires Enqueued(db0, s1, ops, pairs, conv)
    requires var c := BatchCommit(s1, ops); (c.Ok? ==> r.Ok? && final == c.value) && (c.Err? ==> r == Err(c.error) && final == s1)
    ensures VideosPhase(db0, final, r, pairs, conv)
  {
  }

  /** Phase two of `insertVideo` with its commit: one first view history per new video document. */
  method AddFirstHistories(fs: Firestore, items: map<string, VideoInfoItem>, pairs: seq<(string, DocId)>)
    returns (r: Result<(), StoreError>)
    requires fs.Valid()
    requires forall j :: 0 <= j < |pairs| ==> pairs[j].0 in items
    modifies fs
    ensures fs.Valid()
    ensures HistoriesPhase(old(fs.db), fs.db, r, items, pairs)
  {
    var viewBatch := StartBatch(fs);
    EnqueueFirstHistories(fs, viewBatch, items, pairs);
    r := CommitBatch(fs, viewBatch);
  }

  /**
   * `insertVideo(items)`: the convertible items are added in one batch, then
   * their first view histories in a second; a failed commit ends the call.
   */
  method InsertVideo(fs: Firestore, policy: Policy, parseDate: string -> Option<int>,
                     items: map<string, VideoInfoItem>, order: seq<string>)
    returns (r: Result<(), StoreError>)
    requires fs.Valid()
    requires forall k :: k in order ==> k in items
    modifies fs
    ensures fs.Valid()
    ensures InsertOutcome(old(fs.db), fs.db, r, items, Converted(items, order, parseDate, policy))
  {
    ghost var db0 := fs.db;
    var pairs, c1 := AddConvertedVideos(fs, items, order, parseDate, policy);
    if c1.Err? {
      InsertVideoStopsEarly(db0, fs.db, c1, pairs, items, Converted(items, order, parseDate, policy));
      r := c1;
      return;
    }
    ghost var d1 := fs.db;
    r := AddFirstHistories(fs, items, pairs);
    InsertVideoOutcome(db0, d1, fs.db, c1, r, pairs, items, Converted(items, order, parseDate, policy));
  }

  // ------------------------------------------------------ what a run proves

  /** The news log of the transaction holds exactly the news the loaded documents' outcomes call for. */
  lemma {:induction false} NewsLogMembers(docs: seq<QueryDoc<VideoDocument>>, counts: map<string, nat>, policy: Policy, n: NewsDocument)
    requires Counted(docs, counts)
    ensures n in NewsLog(docs, counts, policy) <==>
            exists i :: 0 <= i < |docs| && NewsFor(docs[i].data, counts[docs[i].data.videoId], policy) == Some(n)
    decreases |docs|
  {
    if docs != [] {
      var k := |docs| - 1;
      var init := docs[..k];
      NewsLogMembers(init, counts, policy, n);
      assert forall i :: 0 <= i < k ==> init[i] == docs[i];
      if exists i :: 0 <= i < |docs| && NewsFor(docs[i].data, counts[docs[i].data.videoId], policy) == Some(n) {
        var i :| 0 <= i < |docs| && NewsFor(docs[i].data, counts[docs[i].data.videoId], policy) == Some(n);
        if i < k {
          assert NewsFor(init[i].data, counts[init[i].data.videoId], policy) == Some(n);
        } else {
          assert NewsOf(docs[k].data, counts[docs[k].data.videoId], policy) == [n];
        }
      }
    }
  }

  /**
   * A committed transaction, document by document: the news log grew by the
   * outcomes' news, each loaded document's milestone moved exactly when its
   * view count reached it (the other documents unchanged), each gained one
   * view-history entry with its view count, and the result record has a key
   * for every loaded `videoId`.
   */
  lemma ReconciledSpec(before: Db, after: Db, docs: seq<QueryDoc<VideoDocument>>, counts: map<string, nat>, policy: Policy,
                       results: map<string, Option<NewsCategory>>)
    requires ReconcilePre(before.(nextId := before.nextId + |docs|), docs, counts, before.nextId)
    requires Reconciled(before, after, docs, counts, policy, results)
    ensures after.news == before.news + NewsLog(docs, counts, policy)
    ensures MilestonesMoved(before, after, docs, counts, policy)
    ensures HistoriesAdded(before, after, docs, counts, before.nextId)
    ensures results.Keys == LoadedVideoIds(docs)
    ensures after.nextId == before.nextId + |docs|
  {
    var start := before.(nextId := before.nextId + |docs|);
    ReconcileNews(start, docs, counts, policy, before.nextId);
    ReconcileMilestones(start, docs, counts, policy, before.nextId);
    ReconcileHistories(start, docs, counts, policy, before.nextId);
    ReconcileShape(start, docs, counts, policy, before.nextId);
    OutcomesKeys(docs, counts, policy);
  }

  /** Some document of the collection has this `videoId`. */
  ghost predicate StoredVideoId(db: Db, v: string)
  {
    exists id :: id in db.videos && db.videos[id].videoId == v
  }

  /** The `videoId`s the transaction loads are exactly the listed ones that some stored document has. */
  lemma LoadedIdsAreStoredIds(db: Db, keys: seq<string>)
    requires db.Valid() && InFilterAccepted(keys)
    ensures GetByVideoIdsInTx(db, keys).Ok?
    ensures LoadedVideoIds(GetByVideoIdsInTx(db, keys).value) == set v | v in keys && StoredVideoId(db, v)
  {
    var docs := GetByVideoIdsInTx(db, keys).value;
    DocIdAndDataKeys(docs);
    forall v | v in keys && StoredVideoId(db, v) ensures v in LoadedVideoIds(docs) {
      var id :| id in db.videos && db.videos[id].videoId == v;
      assert id in DocIdAndData(docs);
      var i :| 0 <= i < |docs| && docs[i].id == id;
      assert docs[i] in docs;
    }
    forall v | v in LoadedVideoIds(docs) ensures v in keys && StoredVideoId(db, v) {
      var d :| d in docs && d.data.videoId == v;
      var i :| 0 <= i < |docs| && docs[i] == d;
      assert db.videos[d.id].videoId == v;
    }
  }

  // ------------------------------------------------------------ fetchAndStore

  /**
   * `fetchAndStore`'s filter and reduce: the fetched items whose id is not a
   * key of the transaction's result record.
   */
  function NotDocumented(byId: map<string, VideoInfoItem>, documented: set<string>): (r: map<string, VideoInfoItem>)
    ensures r.Keys !! documented
    ensures r.Keys + (documented * byId.Keys) == byId.Keys
    ensures forall id :: id in r ==> r[id] == byId[id]
  {
    map id | id in byId && id !in documented :: byId[id]
  }

  /** `Object.keys(...).filter(id => !documented.has(id))`: the order kept, the documented ids dropped. */
  function WithoutDocumented(order: seq<string>, documented: set<string>): (r: seq<string>)
    ensures forall v :: v in r <==> v in order && v !in documented
    ensures |r| <= |order|
    decreases |order|
  {
    if order == [] then []
    else
      assert order == [order[0]] + order[1..];
      (if order[0] in documented then [] else [order[0]]) + WithoutDocumented(order[1..], documented)
  }

  /** Filtering keeps ids distinct. */
  lemma {:induction false} WithoutDocumentedDistinct(order: seq<string>, documented: set<string>)
    requires forall i, j :: 0 <= i < j < |order| ==> order[i] != order[j]
    ensures forall i, j :: 0 <= i < j < |WithoutDocumented(order, documented)| ==>
              WithoutDocumented(order, documented)[i] != WithoutDocumented(order, documented)[j]
    decreases |order|
  {
    if order != [] {
      var tail := order[1..];
      assert forall i, j :: 0 <= i < j < |tail| ==> tail[i] == order[i + 1] && tail[j] == order[j + 1];
      WithoutDocumentedDistinct(tail, documented);
      assert forall v :: v in tail ==> v != order[0];
      var rest := WithoutDocumented(tail, documented);
      assert forall v :: v in rest ==> v in tail;
    }
  }

  /** `r` is `order` with some elements left out, the rest in the same order. */
  predicate IsSubsequence(r: seq<string>, order: seq<string>)
    decreases |order|
  {
    if r == [] then true
    else if order == [] then false
    else if r[0] == order[0] then IsSubsequence(r[1..], order[1..])
    else IsSubsequence(r, order[1..])
  }

  /** Filtering keeps the ids in their order: the kept ids are a subsequence of `order`. */
  lemma {:induction false} WithoutDocumentedKeepsOrder(order: seq<string>, documented: set<string>)
    ensures IsSubsequence(WithoutDocumented(order, documented), order)
    decreases |order|
  {
    if order != [] {
      var tail := order[1..];
      var rest := WithoutDocumented(tail, documented);
      WithoutDocumentedKeepsOrder(tail, documented);
      if order[0] in documented {
        assert WithoutDocumented(order, documented) == rest;
        SubsequenceOfLonger(rest, order);
      } else {
        var r := [order[0]] + rest;
        assert WithoutDocumented(order, documented) == r;
        assert r[1..] == rest;
      }
    }
  }

  /** A subsequence of the tail is a subsequence of the whole. */
  lemma {:induction false} SubsequenceOfLonger(r: seq<string>, order: seq<string>)
    requires order != [] && IsSubsequence(r, order[1..])
    ensures IsSubsequence(r, order)
    decreases |order|, 0
  {
    if r != [] && r[0] == order[0] {
      SubsequenceDropHead(r, order[1..]);
    }
  }

  /** Dropping the first element keeps a subsequence. */
  lemma {:induction false} SubsequenceDropHead(r: seq<string>, order: seq<string>)
    requires r != [] && IsSubsequence(r, order)
    ensures IsSubsequence(r[1..], order)
    decreases |order|, 1
  {
    assert order != [];
    if r[0] == order[0] {
      assert IsSubsequence(r[1..], order[1..]);
      if r[1..] != [] {
        SubsequenceOfLonger(r[1..], order);
      }
    } else {
      SubsequenceDropHead(r, order[1..]);
      SubsequenceOfLonger(r[1..], order);
    }
  }

  /**
   * The ids the run inserts: the fetched ids that no stored document has.
   * Tracked and new ids partition the fetched ids.
   */
  lemma NewIdsAreUntracked(db: Db, fetched: seq<VideoInfoItem>)
    requires db.Valid() && InFilterAccepted(KeyOrder(fetched))
    ensures GetByVideoIdsInTx(db, KeyOrder(fetched)).Ok?
    ensures var docs := GetByVideoIdsInTx(db, KeyOrder(fetched)).value;
            && LoadedVideoIds(docs) <= ItemIds(fetched)
            && NotDocumented(ItemsById(fetched), LoadedVideoIds(docs)).Keys ==
               set v | v in ItemIds(fetched) && !StoredVideoId(db, v)
  {
    LoadedIdsAreStoredIds(db, KeyOrder(fetched));
  }

  /** The ids left to insert, in order, all have an item among the new ones. */
  lemma NewOrderHasItems(fetched: seq<VideoInfoItem>, documented: set<string>)
    ensures forall k :: k in WithoutDocumented(KeyOrder(fetched), documented) ==> k in NotDocumented(ItemsById(fetched), documented)
  {
    var byId := ItemsById(fetched);
    var newItems := NotDocumented(byId, documented);
    forall k | k in WithoutDocumented(KeyOrder(fetched), documented) ensures k in newItems {
      assert k in ItemIds(fetched) && k !in documented;
      assert k in byId.Keys;
    }
  }

  /** The record's keys, in `Object.keys` order, are exactly the ids with a view count. */
  lemma KeysAreCounted(fetched: seq<VideoInfoItem>)
    ensures forall v :: v in KeyOrder(fetched) <==> v in ViewCounts(ItemsById(fetched))
  {
  }

  /** After the run's transaction, the record's keys are the resolved ids and the rest are untracked. */
  lemma AfterTransaction(db: Db, mid: Db, docs: seq<QueryDoc<VideoDocument>>, policy: Policy,
                         results: map<string, Option<NewsCategory>>, fetched: seq<VideoInfoItem>)
    requires db.Valid() && InFilterAccepted(KeyOrder(fetched))
    requires GetByVideoIdsInTx(db, KeyOrder(fetched)) == Ok(docs)
    requires ReconcilePre(db.(nextId := db.nextId + |docs|), docs, ViewCounts(ItemsById(fetched)), db.nextId)
    requires Reconciled(db, mid, docs, ViewCounts(ItemsById(fetched)), policy, results)
    ensures results.Keys == LoadedVideoIds(docs)
    ensures NotDocumented(ItemsById(fetched), results.Keys).Keys == set v | v in ItemIds(fetched) && !StoredVideoId(db, v)
  {
    ReconciledSpec(db, mid, docs, ViewCounts(ItemsById(fetched)), policy, results);
    NewIdsAreUntracked(db, fetched);
  }

  /**
   * `fetchAndStore(targetVideoIds)`, given what the video API returned for
   * them: the transaction over the fetched view counts, then the insertion
   * of the fetched items the transaction did not resolve. A failed
   * transaction ends the run before anything is inserted.
   */
  method FetchAndStore(fs: Firestore, policy: Policy, parseDate: string -> Option<int>, fetched: seq<VideoInfoItem>)
    returns (r: Result<(), StoreError>, ghost docs: seq<QueryDoc<VideoDocument>>,
             ghost results: map<string, Option<NewsCategory>>, ghost mid: Db)
    requires fs.Valid()
    modifies fs
    ensures fs.Valid()
    ensures !InFilterAccepted(KeyOrder(fetched)) ==> r == Err(InvalidQuery) && fs.db == old(fs.db)
    ensures InFilterAccepted(KeyOrder(fetched)) ==>
              var counts := ViewCounts(ItemsById(fetched));
              var newItems := NotDocumented(ItemsById(fetched), results.Keys);
              && GetByVideoIdsInTx(old(fs.db), KeyOrder(fetched)) == Ok(docs)
              && ReconcilePre(old(fs.db).(nextId := old(fs.db.nextId) + |docs|), docs, counts, old(fs.db.nextId))
              && Reconciled(old(fs.db), mid, docs, counts, policy, results)
              && results.Keys == LoadedVideoIds(docs)
              && newItems.Keys == set v | v in ItemIds(fetched) && !StoredVideoId(old(fs.db), v)
              && InsertOutcome(mid, fs.db, r, newItems,
                               Converted(newItems, WithoutDocumented(KeyOrder(fetched), results.Keys), parseDate, policy))
  {
    var byId := ItemsById(fetched);
    var counts := ViewCounts(byId);
    var keys := KeyOrder(fetched);
    var tx: Result<map<string, Option<NewsCategory>>, StoreError>;
    KeysAreCounted(fetched);
    tx, docs := UpdateVideoAndCreateNewsIfNeeded(fs, policy, counts, keys);
    if tx.Err? {
      results := map[];
      mid := fs.db;
      r := Err(tx.error);
      return;
    }
    results := tx.value;
    mid := fs.db;
    AfterTransaction(old(fs.db), mid, docs, policy, results, fetched);
    var documented := tx.value.Keys;
    NewOrderHasItems(fetched, documented);
    var newItems := NotDocumented(byId, documented);
    var order := WithoutDocumented(keys, documented);
    r := InsertVideo(fs, policy, parseDate, newItems, order);
  }
}
