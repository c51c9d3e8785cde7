/**
  Splitting a post URI on '/' the way JavaScript's `String.prototype.split`
  does, and the post id: the last segment of that split.
 */
module Uri {

  const Sep: char := '/'

  /**
    `s.split("/")`: the maximal '/'-free pieces of `s`, in order.  There is
    always at least one piece; "" gives [""] and a trailing '/' gives a
    trailing empty piece.
   */
  function Split(s: string): (parts: seq<string>)
    ensures |parts| >= 1
    ensures forall k :: 0 <= k < |parts| ==> Sep !in parts[k]
    ensures Sep !in s ==> parts == [s]
    ensures Sep in s ==> |parts| > 1
    decreases |s|
  {
    if s == [] then [[]]
    else
      var rest := Split(s[1..]);
      if s[0] == Sep then [[]] + rest
      else
        assert s == [s[0]] + s[1..];
        [[s[0]] + rest[0]] + rest[1..]
  }

  /** `parts.join("/")`, the inverse of Split. */
  function Join(parts: seq<string>): string
    requires |parts| >= 1
    decreases |parts|
  {
    if |parts| == 1 then parts[0] else parts[0] + [Sep] + Join(parts[1..])
  }

  /** The post id: `uri.split("/").reverse()[0]`, the last piece of the split. */
  function PostId(uri: string): (id: string)
    ensures Sep !in id
    ensures Sep !in uri ==> id == uri
  {
    var parts := Split(uri);
    parts[|parts| - 1]
  }

  /** Joining the pieces of a split gives back the original string. */
  lemma {:induction false} JoinSplit(s: string)
    ensures Join(Split(s)) == s
    decreases |s|
  {
    if s != [] {
      var rest := Split(s[1..]);
      JoinSplit(s[1..]);
      if s[0] == Sep {
        assert ([[]] + rest)[1..] == rest;
      } else if |rest| > 1 {
        assert rest == [rest[0]] + rest[1..];
        assert Join(rest) == rest[0] + [Sep] + Join(rest[1..]);
        var parts := [[s[0]] + rest[0]] + rest[1..];
        assert parts[1..] == rest[1..];
        assert s == [s[0]] + s[1..];
      } else {
        assert s == [s[0]] + s[1..];
      }
    }
  }

  /** Splitting at a separator splits the two sides independently. */
  lemma {:induction false} SplitAppend(x: string, y: string)
    ensures Split(x + [Sep] + y) == Split(x) + Split(y)
    decreases |x|
  {
    var s := x + [Sep] + y;
    if x == [] {
      assert s[1..] == y;
    } else {
      assert s[1..] == x[1..] + [Sep] + y;
      SplitAppend(x[1..], y);
    }
  }

  /** Splitting the join of '/'-free pieces gives back the same pieces. */
  lemma {:induction false} SplitJoin(parts: seq<string>)
    requires |parts| >= 1
    requires forall k :: 0 <= k < |parts| ==> Sep !in parts[k]
    ensures Split(Join(parts)) == parts
    decreases |parts|
  {
    if |parts| > 1 {
      SplitJoin(parts[1..]);
      SplitAppend(parts[0], Join(parts[1..]));
      assert parts == [parts[0]] + parts[1..];
    }
  }

  /**
    The post id is the '/'-free tail of the URI that follows its last '/'
    (the whole URI when it has no '/').
   */
  lemma {:induction false} PostIdIsLastSegment(uri: string)
    ensures Sep !in PostId(uri)
    ensures |PostId(uri)| <= |uri| && uri[|uri| - |PostId(uri)|..] == PostId(uri)
    ensures |PostId(uri)| == |uri| <==> Sep !in uri
    ensures |PostId(uri)| < |uri| ==> uri[|uri| - |PostId(uri)| - 1] == Sep
    decreases |uri|
  {
    if uri != [] {
      var rest := Split(uri[1..]);
      PostIdIsLastSegment(uri[1..]);
      assert uri == [uri[0]] + uri[1..];
      if uri[0] == Sep {
        assert PostId(uri) == PostId(uri[1..]);
      } else if |rest| == 1 {
        assert PostId(uri) == [uri[0]] + rest[0];
        assert Sep !in uri[1..];
      } else {
        assert PostId(uri) == PostId(uri[1..]);
      }
    }
  }

  /** The post id of `prefix + "/" + id` is `id` whenever `id` has no '/'. */
  lemma PostIdAfterSep(prefix: string, id: string)
    requires Sep !in id
    ensures PostId(prefix + [Sep] + id) == id
  {
    SplitAppend(prefix, id);
  }
}
