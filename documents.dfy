/**
 * The records the job stores and reads: field values as the document store
 * returns them, the `video` root document, its `view-history` entries, the
 * `news` record, the item the video API returns, and the milestone policy.
 */
module Documents {
  import opened Wrappers

  /** Document ids are opaque tokens; the store's allocator hands them out in order. */
  type DocId = nat

  /**
   * A stored field value as the application sees it after a read: a
   * Timestamp (with its `_seconds` and `_nanoseconds`), the server-timestamp
   * sentinel, a plain object, a number or a string.
   */
  datatype Field =
    | Timestamp(seconds: int, nanoseconds: int)
    | ServerTimestamp
    | Object(entries: map<string, Field>)
    | Number(n: int)
    | Text(s: string)

  /** JavaScript truthiness of a defined value. */
  predicate Truthy(f: Field)
  {
    match f
    case Number(n) => n != 0
    case Text(s) => s != ""
    case _ => true
  }

  /** JavaScript truthiness of a possibly undefined value. */
  predicate Defined(f: Option<Field>)
  {
    f.Some? && Truthy(f.value)
  }

  /** Truthiness of `f._seconds`: a Timestamp's seconds, or an object's `_seconds` key. */
  predicate HasSeconds(f: Option<Field>)
  {
    f.Some? &&
    match f.value
    case Timestamp(seconds, _) => seconds != 0
    case Object(entries) => "_seconds" in entries && Truthy(entries["_seconds"])
    case _ => false
  }

  /** Order of Timestamps: seconds first, then nanoseconds. */
  predicate Before(a: Field, b: Field)
    requires a.Timestamp? && b.Timestamp?
  {
    a.seconds < b.seconds || (a.seconds == b.seconds && a.nanoseconds < b.nanoseconds)
  }

  /** A root document of the `video` collection. */
  datatype VideoDocument = VideoDocument(
    videoId: string,
    title: string,
    channelId: string,
    publishedAt: Field,
    milestone: nat,
    updated: Field)

  /** An entry of a video's `view-history` sub-collection. */
  datatype ViewHistory = ViewHistory(viewCount: nat, created: Option<Field>, updated: Option<Field>)

  /** `new ViewHistory({viewCount})`: the class's own defaults for the timestamps are not shown, so they are absent. */
  function NewViewHistory(viewCount: nat): (h: ViewHistory)
    ensures h.viewCount == viewCount
  {
    ViewHistory(viewCount, None, None)
  }

  datatype NewsCategory = ViewCountReached | ViewCountApproach

  datatype NewsProperties = NewsProperties(viewCount: nat, milestone: nat)

  /** A record of the `news` collection. */
  datatype NewsDocument = NewsDocument(
    videoId: string,
    videoTitle: string,
    category: NewsCategory,
    properties: NewsProperties)

  /** The part of a video API item the job reads: id, snippet and statistics. */
  datatype VideoInfoItem = VideoInfoItem(
    id: string,
    title: string,
    channelId: string,
    publishedAt: string,
    viewCount: nat)

  /**
   * `calcMilestone` and `isCloseToNextMilestone`: the milestone policy, whose
   * thresholds are not part of this model, so it is a pair of function values.
   */
  datatype Policy = Policy(calcMilestone: nat -> nat, isCloseToNextMilestone: nat -> bool)
}
