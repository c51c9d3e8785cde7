/**
  What the sync loop guarantees: no replay of posts at or below the
  watermark, strictly increasing delivery order, halting at the first
  failure, persisting only an advanced watermark on every exit path, and
  that the next run picks up exactly the posts this run left over.
 */
module SyncProperties {
  import opened Wrappers
  import opened Posts
  import opened SlackMessage
  import opened SyncEngine

  /** `p` is a prefix of `q`. */
  predicate IsPrefix(p: seq<Post>, q: seq<Post>) {
    |p| <= |q| && q[..|p|] == p
  }

  // ---------------------------------------------------------------------------
  // The reference selection NewPosts

  /** Every selected post is above the starting watermark, and they strictly increase. */
  lemma {:induction false} NewPostsOrdered(posts: seq<Post>, w: int)
    ensures forall k :: 0 <= k < |NewPosts(posts, w)| ==> EffectiveTimestamp(NewPosts(posts, w)[k]) > w
    ensures StrictlyIncreasing(NewPosts(posts, w))
    decreases |posts|
  {
    if posts != [] {
      var t := EffectiveTimestamp(posts[0]);
      if t <= w {
        NewPostsOrdered(posts[1..], w);
      } else {
        NewPostsOrdered(posts[1..], t);
      }
    }
  }

  /**
    The selection is exactly the posts of the oldest-first feed that are
    above the watermark and strictly newer than every post before them, in
    feed order.  Both directions: such a post is selected, and a post at or
    below the watermark, or one with an earlier post at least as new, is not.
   */
  lemma {:induction false} NewPostsIsNewestFilter(posts: seq<Post>, w: int)
    ensures NewPosts(posts, w) == NewestFrom(posts, w, 0)
    decreases |posts|
  {
    if posts != [] {
      var t := EffectiveTimestamp(posts[0]);
      var w' := if t <= w then w else t;
      NewPostsIsNewestFilter(posts[1..], w);
      NewPostsIsNewestFilter(posts[1..], t);
      NewestShift(posts, w, 1);
      assert NewestAt(posts, w, 0) <==> t > w;
    }
  }

  /** Dropping the first post turns the selection from `w` into the one from the raised watermark. */
  lemma {:induction false} NewestShift(posts: seq<Post>, w: int, i: nat)
    requires 1 <= i <= |posts|
    ensures var t := EffectiveTimestamp(posts[0]);
            NewestFrom(posts, w, i) == NewestFrom(posts[1..], if t <= w then w else t, i - 1)
    decreases |posts| - i
  {
    if i < |posts| {
      var t := EffectiveTimestamp(posts[0]);
      var w' := if t <= w then w else t;
      var rest := posts[1..];
      NewestShift(posts, w, i + 1);
      assert rest[i - 1] == posts[i];
      if NewestAt(posts, w, i) {
        forall j | 0 <= j < i - 1
          ensures EffectiveTimestamp(rest[j]) < EffectiveTimestamp(rest[i - 1])
        {
          assert rest[j] == posts[j + 1];
        }
        assert NewestAt(rest, w', i - 1);
      }
      if NewestAt(rest, w', i - 1) {
        forall j | 0 <= j < i
          ensures EffectiveTimestamp(posts[j]) < EffectiveTimestamp(posts[i])
        {
          if j > 0 { assert posts[j] == rest[j - 1]; }
        }
        assert NewestAt(posts, w, i);
      }
    }
  }

  /** Every selected post occurs in the feed at an index where it is the newest so far. */
  lemma {:induction false} NewestFromOnlyNewest(posts: seq<Post>, w: int, i: nat)
    requires i <= |posts|
    ensures forall q :: q in NewestFrom(posts, w, i)
              ==> exists k :: i <= k < |posts| && posts[k] == q && NewestAt(posts, w, k)
    decreases |posts| - i
  {
    if i < |posts| {
      NewestFromOnlyNewest(posts, w, i + 1);
    }
  }

  /**
    The converse of NoSkip: a selected post sits in the feed at an index
    where it is above the watermark and strictly newer than every earlier post.
   */
  lemma NewPostsOnlyNewest(posts: seq<Post>, w: int)
    ensures forall q :: q in NewPosts(posts, w)
              ==> exists k :: 0 <= k < |posts| && posts[k] == q && NewestAt(posts, w, k)
  {
    NewPostsIsNewestFilter(posts, w);
    NewestFromOnlyNewest(posts, w, 0);
  }

  /**
    No skip: a post newer than the watermark and strictly newer than every
    post before it in oldest-first order is selected.  So a post above the
    watermark is left out only when an earlier post is at least as new.
   */
  lemma {:induction false} NewPostsNoSkip(posts: seq<Post>, w: int, i: nat)
    requires i < |posts|
    requires EffectiveTimestamp(posts[i]) > w
    requires forall j :: 0 <= j < i ==> EffectiveTimestamp(posts[j]) < EffectiveTimestamp(posts[i])
    ensures posts[i] in NewPosts(posts, w)
    decreases |posts|
  {
    if i > 0 {
      var t := EffectiveTimestamp(posts[0]);
      var rest := posts[1..];
      forall j | 0 <= j < i - 1
        ensures EffectiveTimestamp(rest[j]) < EffectiveTimestamp(rest[i - 1])
      {
        assert rest[j] == posts[j + 1];
      }
      NewPostsNoSkip(rest, if t <= w then w else t, i - 1);
    }
  }

  /**
    A selected post is never at or below the running watermark: whatever
    watermark `w` and whatever was seen before, every post of `posts` at or
    below `w` is left out.
   */
  lemma {:induction false} NewPostsSkipsOld(posts: seq<Post>, w: int)
    ensures forall k :: 0 <= k < |posts| && EffectiveTimestamp(posts[k]) <= w ==> posts[k] !in NewPosts(posts, w)
  {
    NewPostsOrdered(posts, w);
  }

  // ---------------------------------------------------------------------------
  // The dispatch loop against NewPosts

  /**
    The loop dispatches a prefix of NewPosts, each accepted by the webhook;
    it dispatches all of them when it completes; when it fails, the failing
    post is the next one of NewPosts and its response is the one reported;
    the running watermark is the last dispatched post's timestamp, or the
    starting one when none was dispatched.
   */
  lemma SyncPassAgainstNewPosts(posts: seq<Post>, w: int, identifier: string, webhook: Webhook)
    ensures IsPrefix(SyncPass(posts, w, identifier, webhook).dispatched, NewPosts(posts, w))
    ensures SyncPass(posts, w, identifier, webhook).outcome.Completed?
            ==> SyncPass(posts, w, identifier, webhook).dispatched == NewPosts(posts, w)
    ensures SyncPass(posts, w, identifier, webhook).outcome.Failed?
            ==> var r := SyncPass(posts, w, identifier, webhook);
                var next := NewPosts(posts, w);
                |r.dispatched| < |next|
                && r.outcome.response == webhook(Format(next[|r.dispatched|], identifier))
                && !IsOk(r.outcome.response)
    ensures forall k :: 0 <= k < |SyncPass(posts, w, identifier, webhook).dispatched|
              ==> IsOk(webhook(Format(SyncPass(posts, w, identifier, webhook).dispatched[k], identifier)))
    ensures var r := SyncPass(posts, w, identifier, webhook);
            r.watermark == if r.dispatched == [] then w else EffectiveTimestamp(r.dispatched[|r.dispatched| - 1])
  {
    SyncPassSelects(posts, w, identifier, webhook);
    SyncPassAccepted(posts, w, identifier, webhook);
  }

  /** The prefix, completion and failure parts of SyncPassAgainstNewPosts. */
  lemma {:induction false} SyncPassSelects(posts: seq<Post>, w: int, identifier: string, webhook: Webhook)
    ensures IsPrefix(SyncPass(posts, w, identifier, webhook).dispatched, NewPosts(posts, w))
    ensures SyncPass(posts, w, identifier, webhook).outcome.Completed?
            ==> SyncPass(posts, w, identifier, webhook).dispatched == NewPosts(posts, w)
    ensures SyncPass(posts, w, identifier, webhook).outcome.Failed?
            ==> var r := SyncPass(posts, w, identifier, webhook);
                var next := NewPosts(posts, w);
                |r.dispatched| < |next|
                && r.outcome.response == webhook(Format(next[|r.dispatched|], identifier))
                && !IsOk(r.outcome.response)
    decreases |posts|
  {
    if posts != [] {
      var t := EffectiveTimestamp(posts[0]);
      if t <= w {
        SyncPassSelects(posts[1..], w, identifier, webhook);
      } else if IsOk(webhook(Format(posts[0], identifier))) {
        SyncPassSelects(posts[1..], t, identifier, webhook);
        var rest := SyncPass(posts[1..], t, identifier, webhook);
        assert SyncPass(posts, w, identifier, webhook).dispatched == [posts[0]] + rest.dispatched;
        assert NewPosts(posts, w) == [posts[0]] + NewPosts(posts[1..], t);
      }
    }
  }

  /** The acceptance and watermark parts of SyncPassAgainstNewPosts. */
  lemma {:induction false} SyncPassAccepted(posts: seq<Post>, w: int, identifier: string, webhook: Webhook)
    ensures forall k :: 0 <= k < |SyncPass(posts, w, identifier, webhook).dispatched|
              ==> IsOk(webhook(Format(SyncPass(posts, w, identifier, webhook).dispatched[k], identifier)))
    ensures var r := SyncPass(posts, w, identifier, webhook);
            r.watermark == if r.dispatched == [] then w else EffectiveTimestamp(r.dispatched[|r.dispatched| - 1])
    decreases |posts|
  {
    if posts != [] {
      var t := EffectiveTimestamp(posts[0]);
      if t <= w {
        SyncPassAccepted(posts[1..], w, identifier, webhook);
      } else if IsOk(webhook(Format(posts[0], identifier))) {
        SyncPassAccepted(posts[1..], t, identifier, webhook);
        var rest := SyncPass(posts[1..], t, identifier, webhook);
        var r := SyncPass(posts, w, identifier, webhook);
        assert r.dispatched == [posts[0]] + rest.dispatched;
        forall k | 0 <= k < |r.dispatched|
          ensures IsOk(webhook(Format(r.dispatched[k], identifier)))
        {
          if k > 0 { assert r.dispatched[k] == rest.dispatched[k - 1]; }
        }
      }
    }
  }

  /** A completed loop leaves the running watermark at or above every post of the feed. */
  lemma {:induction false} CompletedCoversFeed(posts: seq<Post>, w: int, identifier: string, webhook: Webhook)
    requires SyncPass(posts, w, identifier, webhook).outcome.Completed?
    ensures forall k :: 0 <= k < |posts| ==> EffectiveTimestamp(posts[k]) <= SyncPass(posts, w, identifier, webhook).watermark
    decreases |posts|
  {
    if posts != [] {
      var t := EffectiveTimestamp(posts[0]);
      var w' := if t <= w then w else t;
      CompletedCoversFeed(posts[1..], w', identifier, webhook);
      forall k | 0 < k < |posts|
        ensures EffectiveTimestamp(posts[k]) <= SyncPass(posts, w, identifier, webhook).watermark
      {
        assert posts[k] == posts[1..][k - 1];
      }
    }
  }

  /**
    Resumption: selecting from the same feed with the watermark the loop
    reached gives exactly the selected posts the loop did not dispatch.
   */
  lemma {:induction false} ResumeFromWatermark(posts: seq<Post>, w: int, identifier: string, webhook: Webhook)
    ensures var r := SyncPass(posts, w, identifier, webhook);
            |r.dispatched| <= |NewPosts(posts, w)|
            && NewPosts(posts, r.watermark) == NewPosts(posts, w)[|r.dispatched|..]
    decreases |posts|
  {
    SyncPassSelects(posts, w, identifier, webhook);
    if posts != [] {
      var t := EffectiveTimestamp(posts[0]);
      if t <= w {
        ResumeFromWatermark(posts[1..], w, identifier, webhook);
        var r := SyncPass(posts, w, identifier, webhook);
        assert r == SyncPass(posts[1..], w, identifier, webhook);
        assert NewPosts(posts, r.watermark) == NewPosts(posts[1..], r.watermark);
      } else if IsOk(webhook(Format(posts[0], identifier))) {
        ResumeFromWatermark(posts[1..], t, identifier, webhook);
        var rest := SyncPass(posts[1..], t, identifier, webhook);
        assert rest.watermark >= t;
        assert NewPosts(posts, rest.watermark) == NewPosts(posts[1..], rest.watermark);
        assert NewPosts(posts, w) == [posts[0]] + NewPosts(posts[1..], t);
      }
    }
  }

  // ---------------------------------------------------------------------------
  // Whole runs

  /**
    No replay and order: every dispatched post is above the loaded watermark,
    they strictly increase in timestamp, and they are a prefix of the
    posts selected from the oldest-first feed.
   */
  lemma RunNoReplay(stored: Option<State>, feed: seq<Post>, identifier: string, webhook: Webhook)
    ensures var r := RunSpec(stored, feed, identifier, webhook);
            (forall k :: 0 <= k < |r.dispatched| ==> EffectiveTimestamp(r.dispatched[k]) > LoadWatermark(stored))
            && StrictlyIncreasing(r.dispatched)
            && IsPrefix(r.dispatched, NewPosts(Reversed(feed), LoadWatermark(stored)))
            && IsPrefix(r.dispatched, NewestFrom(Reversed(feed), LoadWatermark(stored), 0))
  {
    var loaded := LoadWatermark(stored);
    var r := RunSpec(stored, feed, identifier, webhook);
    var next := NewPosts(Reversed(feed), loaded);
    SyncPassAgainstNewPosts(Reversed(feed), loaded, identifier, webhook);
    NewPostsOrdered(Reversed(feed), loaded);
    NewPostsIsNewestFilter(Reversed(feed), loaded);
    assert forall k :: 0 <= k < |r.dispatched| ==> r.dispatched[k] == next[k];
  }

  /**
    Halting at the first failure: a failed run reports the response of the
    first not-yet-dispatched selected post, every dispatched post was
    accepted, and a completed run dispatched every selected post.
   */
  lemma RunHaltsAtFirstFailure(stored: Option<State>, feed: seq<Post>, identifier: string, webhook: Webhook)
    ensures var r := RunSpec(stored, feed, identifier, webhook);
            var next := NewPosts(Reversed(feed), LoadWatermark(stored));
            (r.outcome.Completed? ==> r.dispatched == next)
            && (r.outcome.Failed? ==>
                  |r.dispatched| < |next|
                  && r.outcome.response == webhook(Format(next[|r.dispatched|], identifier))
                  && !IsOk(r.outcome.response))
            && (forall k :: 0 <= k < |r.dispatched| ==> IsOk(webhook(Format(r.dispatched[k], identifier))))
  {
    SyncPassAgainstNewPosts(Reversed(feed), LoadWatermark(stored), identifier, webhook);
  }

  /**
    The watermark: the final one is the last dispatched post's timestamp (the
    loaded one if none was dispatched), never below the loaded one; it is
    persisted exactly when it rose, on the normal and the error exit alike,
    which is exactly when something was dispatched.
   */
  lemma RunPersistence(stored: Option<State>, feed: seq<Post>, identifier: string, webhook: Webhook)
    ensures var r := RunSpec(stored, feed, identifier, webhook);
            var loaded := LoadWatermark(stored);
            r.watermark >= loaded
            && r.watermark == (if r.dispatched == [] then loaded else EffectiveTimestamp(r.dispatched[|r.dispatched| - 1]))
            && (r.persisted.Some? <==> r.dispatched != [])
            && (r.persisted.Some? ==> r.persisted.value == r.watermark && r.persisted.value > loaded)
  {
    var loaded := LoadWatermark(stored);
    SyncPassAgainstNewPosts(Reversed(feed), loaded, identifier, webhook);
    RunNoReplay(stored, feed, identifier, webhook);
  }

  /** No-op stability: nothing above the watermark means no dispatch, no write, no error. */
  lemma RunNoOp(stored: Option<State>, feed: seq<Post>, identifier: string, webhook: Webhook)
    requires forall k :: 0 <= k < |feed| ==> EffectiveTimestamp(feed[k]) <= LoadWatermark(stored)
    ensures var r := RunSpec(stored, feed, identifier, webhook);
            r.dispatched == [] && r.watermark == LoadWatermark(stored) && r.persisted == None && r.outcome == Completed
  {
    var loaded := LoadWatermark(stored);
    var rev := Reversed(feed);
    forall k | 0 <= k < |rev|
      ensures EffectiveTimestamp(rev[k]) <= loaded
    {
      ReversedAt(feed, k);
    }
    AllOldSkipped(rev, loaded, identifier, webhook);
  }

  /** The loop over posts all at or below the watermark does nothing. */
  lemma {:induction false} AllOldSkipped(posts: seq<Post>, w: int, identifier: string, webhook: Webhook)
    requires forall k :: 0 <= k < |posts| ==> EffectiveTimestamp(posts[k]) <= w
    ensures SyncPass(posts, w, identifier, webhook) == SyncResult([], w, Completed)
    decreases |posts|
  {
    if posts != [] {
      assert forall k :: 0 <= k < |posts[1..]| ==> posts[1..][k] == posts[k + 1];
      AllOldSkipped(posts[1..], w, identifier, webhook);
    }
  }

  /**
    Recovery across runs: the run after this one, over the same feed and
    reading back whatever this run stored, selects exactly the selected posts
    this run did not dispatch; in particular a watermark never falls.
   */
  lemma NextRunResumes(stored: Option<State>, feed: seq<Post>, identifier: string, webhook: Webhook)
    ensures var r := RunSpec(stored, feed, identifier, webhook);
            var loaded := LoadWatermark(stored);
            LoadWatermark(NextStored(stored, r)) >= loaded
            && |r.dispatched| <= |NewPosts(Reversed(feed), loaded)|
            && NewPosts(Reversed(feed), LoadWatermark(NextStored(stored, r)))
               == NewPosts(Reversed(feed), loaded)[|r.dispatched|..]
  {
    var loaded := LoadWatermark(stored);
    var r := RunSpec(stored, feed, identifier, webhook);
    ResumeFromWatermark(Reversed(feed), loaded, identifier, webhook);
    RunPersistence(stored, feed, identifier, webhook);
    if r.persisted.None? {
      assert r.dispatched == [];
    }
  }
}
