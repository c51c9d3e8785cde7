/**
  The feed post as the sync loop sees it, and the rule that picks the
  timestamp used for ordering and deduplication.
 */
module Posts {
  import opened Wrappers

  /**
    One entry of the author feed.  `createdAt` is the record's creation time and
    `indexedAt` the time the feed service indexed the post, both already parsed
    to milliseconds.  `createdAt` is `None` when the record has no `createdAt`
    or it is the empty string (both are falsy in the source's `||`).
    `text` is the record's `text`, `None` when the record has none.
   */
  datatype Post = Post(uri: string, createdAt: Option<int>, indexedAt: int, text: Option<string>)

  /** The timestamp the sync loop compares against the watermark. */
  function EffectiveTimestamp(p: Post): (t: int)
    ensures p.createdAt.Some? ==> t == p.createdAt.value
    ensures p.createdAt.None? ==> t == p.indexedAt
  {
    match p.createdAt
    case Some(c) => c
    case None => p.indexedAt
  }

  /** Every post of `s` is strictly newer than the one before it. */
  ghost predicate StrictlyIncreasing(s: seq<Post>) {
    forall i, j :: 0 <= i < j < |s| ==> EffectiveTimestamp(s[i]) < EffectiveTimestamp(s[j])
  }
}
