# bsky-slack-worker: the sync loop, in Dafny

This project models the incremental relay at the heart of the scheduled
Cloudflare Worker in `src/index.ts`. On each run the worker:

1. loads the stored watermark `lastTimestamp` (absent or falsy reads as 0);
2. reverses the newest-first author feed in place, so it walks oldest-first;
3. takes each post's timestamp from `createdAt`, falling back to `indexedAt`;
4. skips every post at or below the *running* watermark;
5. posts each remaining one to the Slack webhook as a Block Kit message;
6. advances the running watermark only after a successful post, and stops at the first non-ok response;
7. writes the watermark back in a `finally`, and only if it rose.

The model follows the source's own form:

- The handler is the method `SyncEngine.Run`. It calls `ReverseInPlace` on an `array<Post>` and `DispatchAll`, a `while` loop that ends by `break` at the first failure. Both are proved against the specification functions `Reversed` and `SyncPass`, and `Run` against `RunSpec`.
- The pure helpers are functions:
  - post-id extraction: `Uri.Split`, `Uri.PostId`;
  - timestamp selection: `Posts.EffectiveTimestamp`;
  - message construction: `SlackMessage.Format`.
- `SyncProperties` proves the loop's guarantees against `NewPosts`: the posts a run would forward if the webhook accepted everything. `NewPosts` is the loop's own running-watermark recursion without the webhook. It is proved equal to `NewestFrom`, which is defined index by index without a running watermark. That is the rule the code actually follows: a post above the loaded watermark is forwarded only if its timestamp is strictly greater than that of every earlier post in oldest-first order.
- A consequence of that rule: when timestamps are out of feed order (a backdated post indexed after a newer one), the older-timestamped post is skipped by this run and by every later run, so it is never forwarded (`Scenarios.ScenarioLostPost`).
- `Scenarios` works through concrete runs.

Modelling choices:

- **Store.** The key-value store is an input value, `Option<State>`. Its output is `RunResult.persisted`, the value written back (`None` when nothing is written).
- **Webhook.** The webhook is an oracle `Message -> Response`. A response is either an HTTP status or a transport error. `IsOk` is `fetch`'s `res.ok`: a status from 200 to 299.
- **Feed.** The feed is a given array of posts.
- **Timestamps.** Timestamps are integers that are already parsed. `createdAt` is `None` when the record has no `createdAt` or it is the empty string; both are falsy in the source's `||`.

Two points about what the code does:

- **Message shape.** The code sends exactly one `section` block. Its text is the post text, and its accessory button carries the URI as `value` and the deep link as `url`. It sends no context, image or separate actions blocks.
- **Malformed `createdAt`.** The code does not fall back to `indexedAt` when a non-empty `createdAt` fails to parse. See "Left out".

## Model

| member | source | states |
|---|---|---|
| Posts.EffectiveTimestamp | src/index.ts:83 | the timestamp is `createdAt` when present and non-empty, else `indexedAt` |
| Uri.Split | src/index.ts:82 | `split("/")` yields at least one piece, no piece contains '/', a '/'-free string is one piece, a string containing '/' splits into several |
| Uri.PostId | src/index.ts:82 | the post id contains no '/', and is the whole URI when the URI has none |
| Uri.JoinSplit | src/index.ts:82 | joining the split pieces with '/' gives back the URI (nothing is lost by the split) |
| Uri.SplitJoin | src/index.ts:82 | splitting the join of '/'-free pieces gives back those pieces (the other direction of the round trip) |
| Uri.SplitAppend | src/index.ts:82 | splitting `x + "/" + y` is splitting `x` and `y` separately |
| Uri.PostIdIsLastSegment | src/index.ts:82 | `split("/").reverse()[0]` is the '/'-free tail of the URI after its last '/', the whole URI exactly when it has no '/' |
| Uri.PostIdAfterSep | src/index.ts:82 | the post id of `prefix + "/" + id` is `id` for any '/'-free `id` |
| SlackMessage.Format | src/index.ts:91-113 | the body has one block; its text is the post text, its button value the URI and its url the deep link for the URI's post id |
| SlackMessage.FormatFields | src/index.ts:91-113 | exactly one section block with the post text (emoji on); the button's value is the full URI, its action id is "button-action", its url is `https://bsky.app/profile/{identifier}/post/{postId}`, and the url's last segment is the URI's post id |
| SlackMessage.DeepLinkPostId | src/index.ts:108 | the post id read back from the deep link is the one put in, whatever the identifier |
| SlackMessage.FormatDistinguishesPosts | src/index.ts:107 | posts with different URIs get different messages |
| SyncEngine.IsOk | src/index.ts:115 | a response counts as ok exactly when it is an HTTP status of the 2xx class; a transport error never does |
| SyncEngine.LoadWatermark | src/index.ts:76-77 | a missing state record or a missing `lastTimestamp` starts at 0; otherwise the stored value |
| SyncEngine.Reversed | src/index.ts:81 | reversal keeps the length |
| SyncEngine.ReversedAt | src/index.ts:81 | element `k` of the reversed feed is element `n-1-k` of the fetched one |
| SyncEngine.ReverseInPlace | src/index.ts:81 | the array afterwards holds the reversal of its old contents |
| SyncEngine.SyncPass | src/index.ts:81-120 | the running watermark never falls below the starting one, and stays at it when nothing is dispatched |
| SyncEngine.NewPosts | src/index.ts:84-86 | the selection is no longer than the feed and every selected post is above the starting watermark |
| SyncEngine.RunSpec | src/index.ts:76-125 | the run's watermark is never below the loaded one; a value is persisted exactly when the watermark rose, and it is that watermark; a run that dispatches nothing persists nothing |
| SyncEngine.DispatchAll | src/index.ts:81-120 | the loop with its early exit computes exactly the dispatched posts, final watermark and outcome of `SyncPass` |
| SyncEngine.Run | src/index.ts:76-125 | the feed array ends up reversed, and the result (dispatched posts, watermark, persisted value, outcome) is that of `RunSpec` on the fetched feed |
| SyncProperties.NewPostsOrdered | src/index.ts:84-86 | every selected post is above the starting watermark and the selected posts strictly increase in timestamp |
| SyncProperties.NewPostsIsNewestFilter | src/index.ts:81-86 | the selection is exactly the feed's posts that are above the watermark and strictly newer than every earlier post, in oldest-first feed order (both directions and the order) |
| SyncProperties.NewestShift | src/index.ts:84-86 | dropping the first post turns the index-wise selection from `w` into the one from the raised running watermark |
| SyncProperties.NewestFromOnlyNewest | src/index.ts:84-86 | every post of the index-wise selection occurs in the feed at an index where it is the newest so far |
| SyncProperties.NewPostsOnlyNewest | src/index.ts:84-86 | a selected post occurs in the feed at an index where it is above the watermark and strictly newer than every earlier post (the converse of NoSkip) |
| SyncProperties.NewPostsNoSkip | src/index.ts:84-86 | a post above the watermark and strictly newer than every earlier post is selected |
| SyncProperties.NewPostsSkipsOld | src/index.ts:84-86 | no post at or below the watermark is selected |
| SyncProperties.SyncPassAgainstNewPosts | src/index.ts:81-120 | the loop dispatches a prefix of the selection, all of it when it completes; each dispatched post was accepted; on failure the reported response is the one for the next selected post, and it is not ok; the watermark is the last dispatched post's timestamp or the starting one |
| SyncProperties.SyncPassSelects | src/index.ts:81-120 | the prefix, completion and failure parts of `SyncPassAgainstNewPosts` |
| SyncProperties.SyncPassAccepted | src/index.ts:114-119 | each dispatched post was accepted, and the watermark is the last dispatched post's timestamp or the starting one |
| SyncProperties.CompletedCoversFeed | src/index.ts:84-86 | after a completed loop every post of the feed is at or below the watermark |
| SyncProperties.ResumeFromWatermark | src/index.ts:84-86 | selecting again from the watermark reached gives exactly the selected posts not yet dispatched |
| SyncProperties.RunNoReplay | src/index.ts:76-119 | every dispatched post is above the loaded watermark; dispatched posts strictly increase; they are a prefix of the oldest-first selection, hence go out in reversed-feed order |
| SyncProperties.RunHaltsAtFirstFailure | src/index.ts:114-119 | a failed run stops at the first rejected selected post, and later posts are not dispatched; a completed run dispatches the whole selection; every dispatched post was accepted |
| SyncProperties.RunPersistence | src/index.ts:119-125 | the final watermark is the last dispatched timestamp, or the loaded one, and never lower; it is persisted exactly when it rose, on either exit path, which is exactly when something was dispatched |
| SyncProperties.RunNoOp | src/index.ts:81-86 | a feed with nothing above the watermark (the empty feed included) dispatches nothing, persists nothing and completes |
| SyncProperties.AllOldSkipped | src/index.ts:84-86 | the loop over posts all at or below the watermark does nothing |
| SyncProperties.NextRunResumes | src/index.ts:76-77 | the next run reads back a watermark no lower than this run's and selects exactly the *selected* posts this run left undispatched (a post never selected stays unselected) |
| Scenarios.ReversedFeed | src/index.ts:81 | the feed P3, P2, P1 is walked as P1, P2, P3 |
| Scenarios.PassAll | src/index.ts:81-120 | from a watermark below 10 with every post accepted, the loop dispatches P1, P2, P3 and ends at 30 |
| Scenarios.ScenarioFromScratch | src/index.ts:76-125 | from no state: P1, P2, P3 dispatched, 30 persisted |
| Scenarios.ScenarioFromTwenty | src/index.ts:76-125 | from watermark 20: only P3 dispatched, 30 persisted |
| Scenarios.ScenarioPartialFailure | src/index.ts:114-125 | P2 rejected after P1 succeeded: error, 10 persisted; the next run dispatches P2 and P3 |
| Scenarios.ScenarioEmptyFeed | src/index.ts:81-125 | an empty feed: nothing dispatched or persisted |
| Scenarios.ScenarioEqualTimestamps | src/index.ts:84-86 | of two posts with equal timestamps only the older in feed order is dispatched |
| Scenarios.ScenarioLostPost | src/index.ts:81-86 | a backdated post B (created 15, indexed after A, created 20) is skipped by the run that sends A and stores 20, and by the next run too |
| Scenarios.ScenarioDeepLink | src/index.ts:82-108 | the URI "a/p1" has post id "p1", and the button links to the deep link for "p1" |

## Left out

- Session handling: building `BskyAgent`, the `persistSession` callback, resume and login (src/index.ts:51-74). This is calls into an external library, with no logic of the worker's own.
- Key-value reads and writes and the JSON encoding of the state (src/index.ts:64, 76, 123). The store is an input value plus an output persisted value. A failing `kv.put`, which in the source would replace the loop's error as the run's error, is not modelled.
- Values stored in the state other than numbers: the model's `lastTimestamp` is an integer or absent.
- The HTTP `fetch` and `JSON.stringify` of the body (src/index.ts:88-113). The request is the `Message` datatype, and the answer comes from the webhook oracle. The text of the thrown error (status and status text) is reduced to the `Response` it was built from.
- `getAuthorFeed` (src/index.ts:79): the feed is a given array.
- `Date.parse` (src/index.ts:83). Timestamps are parsed integers. In the source, a non-empty but malformed `createdAt` parses to NaN rather than falling back to `indexedAt`, and NaN compares false against everything. The model does not capture that case.
- The webhook oracle is a function of the message body, so it cannot answer the same body differently twice within one run. Each post is sent at most once per run, so this loses nothing.
- Logging, the cron trigger, and overlapping runs for the same account: these are host concerns and concurrency, and no code of the worker handles them.
