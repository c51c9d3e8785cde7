/**
  The Slack Block Kit body the sync loop posts for one feed post: a single
  `section` block holding the post text, with an "Open in bsky.app" button
  that links to the post.
 */
module SlackMessage {
  import opened Wrappers
  import opened Posts
  import opened Uri

  /** A `plain_text` text object; `text` is absent when the post has no text. */
  datatype PlainText = PlainText(text: Option<string>, emoji: bool)

  /** A `button` element: its caption, the value sent back to Slack, its link and action id. */
  datatype Button = Button(caption: PlainText, value: string, url: string, actionId: string)

  /** A `section` block with a button accessory, the only block kind the loop builds. */
  datatype Block = Section(text: PlainText, accessory: Button)

  /** The JSON body `{ blocks: [...] }`. */
  datatype Message = Message(blocks: seq<Block>)

  const ProfileBase: string := "https://bsky.app/profile/"
  const ButtonLabel: string := "Open in bsky.app"
  const ButtonActionId: string := "button-action"

  /** The bsky.app page of post `postId` by account `identifier`. */
  function DeepLink(identifier: string, postId: string): string {
    ProfileBase + identifier + "/post/" + postId
  }

  /** The message sent for `post` of the account `identifier`. */
  function Format(post: Post, identifier: string): (m: Message)
    ensures |m.blocks| == 1
    ensures m.blocks[0].text.text == post.text
    ensures m.blocks[0].accessory.value == post.uri
    ensures m.blocks[0].accessory.url == DeepLink(identifier, PostId(post.uri))
  {
    Message([
      Section(
        PlainText(post.text, true),
        Button(PlainText(Some(ButtonLabel), true), post.uri,
               DeepLink(identifier, PostId(post.uri)), ButtonActionId))
    ])
  }

  /**
    The message has exactly one section block carrying the post text; its
    button carries the full post URI, and its link is the account's profile
    URL followed by "/post/" and a '/'-free last segment that is the post id.
   */
  lemma FormatFields(post: Post, identifier: string)
    ensures |Format(post, identifier).blocks| == 1
    ensures Format(post, identifier).blocks[0].text == PlainText(post.text, true)
    ensures Format(post, identifier).blocks[0].accessory.value == post.uri
    ensures Format(post, identifier).blocks[0].accessory.actionId == ButtonActionId
    ensures Format(post, identifier).blocks[0].accessory.url
            == ProfileBase + identifier + "/post/" + PostId(post.uri)
    ensures Sep !in PostId(post.uri)
    ensures PostId(Format(post, identifier).blocks[0].accessory.url) == PostId(post.uri)
  {
    PostIdIsLastSegment(post.uri);
    DeepLinkPostId(identifier, PostId(post.uri));
  }

  /** The post id can be read back from the deep link, whatever the account identifier. */
  lemma DeepLinkPostId(identifier: string, postId: string)
    requires Sep !in postId
    ensures PostId(DeepLink(identifier, postId)) == postId
  {
    var prefix := ProfileBase + identifier + "/post";
    assert DeepLink(identifier, postId) == prefix + [Sep] + postId;
    PostIdAfterSep(prefix, postId);
  }

  /** Two posts with different URIs get different messages. */
  lemma FormatDistinguishesPosts(p: Post, q: Post, identifier: string)
    requires p.uri != q.uri
    ensures Format(p, identifier) != Format(q, identifier)
  {
    assert Format(p, identifier).blocks[0].accessory.value == p.uri;
  }
}
