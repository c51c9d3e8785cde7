/**
  Concrete runs over a three-post feed P3, P2, P1 (newest first) with
  timestamps 30, 20 and 10.
 */
module Scenarios {
  import opened Wrappers
  import opened Posts
  import opened Uri
  import opened SlackMessage
  import opened SyncEngine

  const Account: string := "alice.bsky.social"
  const P1: Post := Post("a/p1", Some(10), 11, Some("first"))
  const P2: Post := Post("a/p2", None, 20, Some("second"))
  const P3: Post := Post("a/p3", Some(30), 31, None)
  const Feed: seq<Post> := [P3, P2, P1]

  /** A webhook that accepts every message. */
  function AcceptAll(m: Message): Response { Status(200) }

  /** A webhook that answers 500 to P2's message and accepts the others. */
  function RejectSecond(m: Message): Response {
    if m == Format(P2, Account) then Status(500) else Status(200)
  }

  lemma ReversedFeed()
    ensures Reversed(Feed) == [P1, P2, P3]
  {
    assert Feed[..2] == [P3, P2];
    assert [P3, P2][..1] == [P3];
    assert [P3][..0] == [];
    assert Reversed([P3]) == [P3];
    assert Reversed([P3, P2]) == [P2, P3];
  }

  /** The loop over P1, P2, P3 from watermark `w` below 10 with every message accepted. */
  lemma PassAll(w: int)
    requires w < 10
    ensures SyncPass([P1, P2, P3], w, Account, AcceptAll) == SyncResult([P1, P2, P3], 30, Completed)
  {
    assert [P1, P2, P3][1..] == [P2, P3];
    assert [P2, P3][1..] == [P3];
    assert [P3][1..] == [];
    assert SyncPass([P3], 20, Account, AcceptAll) == SyncResult([P3], 30, Completed);
    assert SyncPass([P2, P3], 10, Account, AcceptAll) == SyncResult([P2, P3], 30, Completed);
  }

  /** From watermark 0 all three posts go out oldest first and 30 is stored. */
  lemma ScenarioFromScratch()
    ensures RunSpec(None, Feed, Account, AcceptAll)
            == RunResult([P1, P2, P3], 30, Some(30), Completed)
  {
    ReversedFeed();
    PassAll(0);
  }

  /** From watermark 20 only P3 goes out. */
  lemma ScenarioFromTwenty()
    ensures RunSpec(Some(State(Some(20))), Feed, Account, AcceptAll)
            == RunResult([P3], 30, Some(30), Completed)
  {
    ReversedFeed();
    assert [P1, P2, P3][1..] == [P2, P3];
    assert [P2, P3][1..] == [P3];
    assert [P3][1..] == [];
    assert SyncPass([P3], 30, Account, AcceptAll) == SyncResult([], 30, Completed);
    assert SyncPass([P3], 20, Account, AcceptAll) == SyncResult([P3], 30, Completed);
    assert SyncPass([P2, P3], 20, Account, AcceptAll) == SyncResult([P3], 30, Completed);
  }

  /**
    P2's delivery fails after P1's succeeded: the run ends in error with 10
    stored, and the next run delivers P2 and P3.
   */
  lemma ScenarioPartialFailure()
    ensures RunSpec(None, Feed, Account, RejectSecond)
            == RunResult([P1], 10, Some(10), Failed(Status(500)))
    ensures RunSpec(Some(State(Some(10))), Feed, Account, AcceptAll)
            == RunResult([P2, P3], 30, Some(30), Completed)
  {
    ReversedFeed();
    assert [P1, P2, P3][1..] == [P2, P3];
    assert [P2, P3][1..] == [P3];
    assert [P3][1..] == [];
    FormatDistinguishesPosts(P1, P2, Account);
    assert RejectSecond(Format(P2, Account)) == Status(500);
    assert SyncPass([P2, P3], 10, Account, RejectSecond) == SyncResult([], 10, Failed(Status(500)));
    assert SyncPass([P3], 20, Account, AcceptAll) == SyncResult([P3], 30, Completed);
    assert SyncPass([P2, P3], 10, Account, AcceptAll) == SyncResult([P2, P3], 30, Completed);
  }

  /** An empty feed changes nothing. */
  lemma ScenarioEmptyFeed(stored: Option<State>)
    ensures RunSpec(stored, [], Account, AcceptAll)
            == RunResult([], LoadWatermark(stored), None, Completed)
  {
  }

  /**
    Two posts with the same timestamp: only the older one in feed order goes
    out, since the newer one is then not above the running watermark.
   */
  lemma ScenarioEqualTimestamps()
    ensures var twin := Post("a/p4", Some(10), 40, Some("twin"));
            RunSpec(None, [twin, P1], Account, AcceptAll)
            == RunResult([P1], 10, Some(10), Completed)
  {
    var twin := Post("a/p4", Some(10), 40, Some("twin"));
    assert [twin, P1][..1] == [twin];
    assert [twin][..0] == [];
    assert Reversed([twin, P1]) == [P1, twin];
    assert [P1, twin][1..] == [twin];
    assert [twin][1..] == [];
    assert SyncPass([twin], 10, Account, AcceptAll) == SyncResult([], 10, Completed);
    assert SyncPass([P1, twin], 0, Account, AcceptAll) == SyncResult([P1], 10, Completed);
  }

  /**
    A backdated post is lost: the feed (newest first by indexing) holds B,
    created at 15 but indexed after A, created at 20.  The run sends only A
    and stores 20; the next run over the same feed sends nothing, so B, above
    the original watermark 0, is never forwarded.
   */
  lemma ScenarioLostPost()
    ensures var b := Post("a/b", Some(15), 22, Some("backdated"));
            var a := Post("a/a", Some(20), 21, Some("older"));
            RunSpec(None, [b, a], Account, AcceptAll) == RunResult([a], 20, Some(20), Completed)
            && RunSpec(Some(State(Some(20))), [b, a], Account, AcceptAll) == RunResult([], 20, None, Completed)
  {
    var b := Post("a/b", Some(15), 22, Some("backdated"));
    var a := Post("a/a", Some(20), 21, Some("older"));
    assert [b, a][..1] == [b];
    assert [b][..0] == [];
    assert Reversed([b, a]) == [a, b];
    assert [a, b][1..] == [b];
    assert [b][1..] == [];
    assert SyncPass([b], 20, Account, AcceptAll) == SyncResult([], 20, Completed);
    assert SyncPass([a, b], 0, Account, AcceptAll) == SyncResult([a], 20, Completed);
    assert SyncPass([a, b], 20, Account, AcceptAll) == SyncResult([], 20, Completed);
  }

  /** The deep link of P1 ends in its post id "p1". */
  lemma ScenarioDeepLink()
    ensures PostId(P1.uri) == "p1"
    ensures Format(P1, Account).blocks[0].accessory.url == DeepLink(Account, "p1")
  {
    assert P1.uri == "a" + [Sep] + "p1";
    PostIdAfterSep("a", "p1");
  }
}
