/**
  The body of the scheduled handler after login: load the watermark, walk the
  author feed oldest-first, post every newer entry to the Slack webhook
  (stopping at the first failure), and persist the advanced watermark in a
  `finally`.
 */
module SyncEngine {
  import opened Wrappers
  import opened Posts
  import opened SlackMessage

  /** The stored `{ lastTimestamp?: number }` record. */
  datatype State = State(lastTimestamp: Option<int>)

  /** What `fetch` to the webhook gave back: an HTTP status, or a transport error. */
  datatype Response = Status(code: int) | NetworkError

  /** How the loop ended: normally, or by the error thrown for a failed post. */
  datatype Outcome = Completed | Failed(response: Response)

  /** The result of the dispatch loop alone. */
  datatype SyncResult = SyncResult(dispatched: seq<Post>, watermark: int, outcome: Outcome)

  /**
    The result of one run: the posts the webhook accepted, in order; the final
    running watermark; the value written back to the store, if any; and how
    the loop ended.
   */
  datatype RunResult = RunResult(dispatched: seq<Post>, watermark: int, persisted: Option<int>, outcome: Outcome)

  /** The webhook, as an oracle from the posted body to the response. */
  type Webhook = Message -> Response

  /** `res.ok`: a status in the 200-299 range. */
  predicate IsOk(r: Response)
    ensures IsOk(r) <==> r.Status? && r.code / 100 == 2
    ensures IsOk(r) ==> r != NetworkError
  {
    r.Status? && 200 <= r.code <= 299
  }

  // ---------------------------------------------------------------------------
  // Specification functions

  /** `state?.lastTimestamp || 0`, where a missing record reads as `{}`. */
  function LoadWatermark(stored: Option<State>): (w: int)
    ensures stored.None? ==> w == 0
    ensures stored.Some? && stored.value.lastTimestamp.None? ==> w == 0
    ensures stored.Some? && stored.value.lastTimestamp.Some? ==> w == stored.value.lastTimestamp.value
  {
    match stored
    case None => 0
    case Some(s) =>
      match s.lastTimestamp
      case None => 0
      case Some(t) => t  // `t || 0`: the only falsy integer is 0 itself
  }

  /** The sequence in the opposite order. */
  function Reversed(s: seq<Post>): (r: seq<Post>)
    ensures |r| == |s|
    decreases |s|
  {
    if s == [] then [] else [s[|s| - 1]] + Reversed(s[..|s| - 1])
  }

  /**
    The dispatch loop over the oldest-first `posts`, starting from running
    watermark `w`: skip a post at or below the running watermark, otherwise
    post it, and on success raise the running watermark to its timestamp; the
    first failed post ends the loop.
   */
  function SyncPass(posts: seq<Post>, w: int, identifier: string, webhook: Webhook): (r: SyncResult)
    ensures r.watermark >= w
    ensures r.dispatched == [] ==> r.watermark == w
    decreases |posts|
  {
    if posts == [] then SyncResult([], w, Completed)
    else
      var t := EffectiveTimestamp(posts[0]);
      if t <= w then SyncPass(posts[1..], w, identifier, webhook)
      else
        var response := webhook(Format(posts[0], identifier));
        if !IsOk(response) then SyncResult([], w, Failed(response))
        else
          var rest := SyncPass(posts[1..], t, identifier, webhook);
          SyncResult([posts[0]] + rest.dispatched, rest.watermark, rest.outcome)
  }

  /**
    The posts a run starting from watermark `w` would forward if the webhook
    accepted everything: the dispatch loop with every send succeeding.
   */
  function NewPosts(posts: seq<Post>, w: int): (r: seq<Post>)
    ensures |r| <= |posts|
    ensures forall k :: 0 <= k < |r| ==> EffectiveTimestamp(r[k]) > w
    decreases |posts|
  {
    if posts == [] then []
    else
      var t := EffectiveTimestamp(posts[0]);
      if t <= w then NewPosts(posts[1..], w) else [posts[0]] + NewPosts(posts[1..], t)
  }

  /**
    `post` at index `i` of the oldest-first `posts` is above the watermark
    `w` and strictly newer than every post before it.
   */
  ghost predicate NewestAt(posts: seq<Post>, w: int, i: nat)
    requires i < |posts|
  {
    EffectiveTimestamp(posts[i]) > w
    && forall j :: 0 <= j < i ==> EffectiveTimestamp(posts[j]) < EffectiveTimestamp(posts[i])
  }

  /**
    The posts from index `i` on that satisfy NewestAt, in feed order: a
    definition of the selection by a property of each index, without a
    running watermark.
   */
  ghost function NewestFrom(posts: seq<Post>, w: int, i: nat): seq<Post>
    requires i <= |posts|
    decreases |posts| - i
  {
    if i == |posts| then []
    else (if NewestAt(posts, w, i) then [posts[i]] else []) + NewestFrom(posts, w, i + 1)
  }

  /** One whole run over the newest-first feed `feed`, given the stored state. */
  function RunSpec(stored: Option<State>, feed: seq<Post>, identifier: string, webhook: Webhook): (r: RunResult)
    ensures r.watermark >= LoadWatermark(stored)
    ensures r.persisted.Some? <==> r.watermark > LoadWatermark(stored)
    ensures r.persisted.Some? ==> r.persisted.value == r.watermark
    ensures r.dispatched == [] ==> r.watermark == LoadWatermark(stored) && r.persisted == None
  {
    var loaded := LoadWatermark(stored);
    var s := SyncPass(Reversed(feed), loaded, identifier, webhook);
    RunResult(s.dispatched, s.watermark, if s.watermark > loaded then Some(s.watermark) else None, s.outcome)
  }

  /** The stored state the next run sees after run result `r`. */
  function NextStored(stored: Option<State>, r: RunResult): Option<State> {
    match r.persisted
    case Some(v) => Some(State(Some(v)))
    case None => stored
  }

  // ---------------------------------------------------------------------------
  // The handler, imperatively

  /** `res.data.feed.reverse()`. */
  method ReverseInPlace(a: array<Post>)
    modifies a
    ensures a[..] == Reversed(old(a[..]))
  {
    var n := a.Length;
    var i := 0;
    while i < n / 2
      invariant 0 <= i <= n / 2
      invariant forall k :: 0 <= k < i ==> a[k] == old(a[n - 1 - k]) && a[n - 1 - k] == old(a[k])
      invariant forall k :: i <= k < n - i ==> a[k] == old(a[k])
    {
      a[i], a[n - 1 - i] := a[n - 1 - i], a[i];
      i := i + 1;
    }
    ghost var before := old(a[..]);
    forall k | 0 <= k < n
      ensures a[..][k] == Reversed(before)[k]
    {
      ReversedAt(before, k);
    }
  }

  /** The `for ... of` loop over the reversed feed, with its `try` ending at the first failure. */
  method DispatchAll(feed: array<Post>, loaded: int, identifier: string, webhook: Webhook)
    returns (dispatched: seq<Post>, lastTimestamp: int, outcome: Outcome)
    ensures SyncResult(dispatched, lastTimestamp, outcome) == SyncPass(feed[..], loaded, identifier, webhook)
  {
    dispatched, lastTimestamp, outcome := [], loaded, Completed;
    var i := 0;
    while i < feed.Length
      invariant 0 <= i <= feed.Length
      invariant outcome == Completed
      invariant SyncPass(feed[..], loaded, identifier, webhook)
                == Continue(dispatched, SyncPass(feed[i..], lastTimestamp, identifier, webhook))
    {
      var post := feed[i];
      assert feed[i..][0] == post && feed[i..][1..] == feed[i + 1..];
      var timestamp := EffectiveTimestamp(post);
      if timestamp <= lastTimestamp {
        i := i + 1;
        continue;
      }
      var response := webhook(Format(post, identifier));
      if !IsOk(response) {
        outcome := Failed(response);
        break;
      }
      dispatched := dispatched + [post];
      lastTimestamp := timestamp;
      i := i + 1;
    }
    if outcome == Completed {
      assert feed[i..] == [];
    }
  }

  /** `r` preceded by the posts already dispatched. */
  function Continue(done: seq<Post>, r: SyncResult): SyncResult {
    SyncResult(done + r.dispatched, r.watermark, r.outcome)
  }

  /** The sync section of the scheduled handler. */
  method Run(stored: Option<State>, feed: array<Post>, identifier: string, webhook: Webhook)
    returns (r: RunResult)
    modifies feed
    ensures feed[..] == Reversed(old(feed[..]))
    ensures r == RunSpec(stored, old(feed[..]), identifier, webhook)
  {
    var loaded := LoadWatermark(stored);
    ReverseInPlace(feed);
    var dispatched, lastTimestamp, outcome := DispatchAll(feed, loaded, identifier, webhook);
    // finally: write back only an advanced watermark
    var persisted := if lastTimestamp > loaded then Some(lastTimestamp) else None;
    r := RunResult(dispatched, lastTimestamp, persisted, outcome);
  }

  // ---------------------------------------------------------------------------
  // Lemmas

  /** Element `k` of the reversal is element `|s| - 1 - k` of the original. */
  lemma {:induction false} ReversedAt(s: seq<Post>, k: nat)
    requires k < |s|
    ensures Reversed(s)[k] == s[|s| - 1 - k]
    decreases |s|
  {
    if k > 0 {
      ReversedAt(s[..|s| - 1], k - 1);
    }
  }
}
