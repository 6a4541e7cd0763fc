/**
 * Properties of runs of the chat handlers: the unread bound holds in every
 * reachable state, and what a fetch answers after logins, posts, fetches and
 * socket bindings.
 */
module ChatLaws {
  import opened Wrappers
  import opened Transcript
  import opened Chat

  /** One request as the server's mutex serialises it. */
  datatype Request =
    | LoginReq(user: string)
    | PostReq(id: Option<string>, message: string)
    | GetReq(id: Option<string>)
    | ConnectReq(user: string, handshake: Option<Socket>)

  /** The state one request leaves behind. */
  function Apply(s: ChatData, q: Request): (r: ChatData)
    requires Valid(s)
    ensures Valid(r)
    ensures |s.messages| <= |r.messages| && r.messages[..|s.messages|] == s.messages
  {
    match q
    case LoginReq(user) => Login(s, user)
    case PostReq(id, message) => MsgPost(s, id, message).state
    case GetReq(id) => MsgGet(s, id).state
    case ConnectReq(user, handshake) => WsConnect(s, user, handshake).state
  }

  /**
   * The state after a whole sequence of requests. Every state reached this
   * way keeps the unread bound, and the log only ever grows at its end.
   */
  function Run(s: ChatData, qs: seq<Request>): (r: ChatData)
    requires Valid(s)
    ensures Valid(r)
    ensures |s.messages| <= |r.messages| && r.messages[..|s.messages|] == s.messages
    decreases |qs|
  {
    if qs == [] then s else Run(Apply(s, qs[0]), qs[1..])
  }

  /** Every state the server can reach from its initial state keeps the unread bound. */
  lemma ReachableValid(qs: seq<Request>)
    ensures Valid(Run(Init(), qs))
    ensures forall u :: u in Run(Init(), qs).userState ==>
      0 <= |Run(Init(), qs).messages| - Run(Init(), qs).userState[u].unread
  {
  }

  /** The log lines of a batch of (sender, text) posts, in posting order. */
  function Formatted(posts: seq<(string, string)>): (lines: seq<string>)
    ensures |lines| == |posts|
    ensures forall i :: 0 <= i < |posts| ==> lines[i] == Format(posts[i].0, posts[i].1)
  {
    if posts == [] then [] else [Format(posts[0].0, posts[0].1)] + Formatted(posts[1..])
  }

  /** The state after each (sender, text) post of `posts`, in order, by an identified sender. */
  function PostAll(s: ChatData, posts: seq<(string, string)>): ChatData
    decreases |posts|
  {
    if posts == [] then s
    else PostAll(MsgPost(s, Some(posts[0].0), posts[0].1).state, posts[1..])
  }

  /**
   * Posting a batch appends exactly its formatted lines to the log and
   * raises every known user's unread count by the batch size.
   */
  lemma {:induction false} PostAllEffect(s: ChatData, posts: seq<(string, string)>)
    ensures PostAll(s, posts).messages == s.messages + Formatted(posts)
    ensures PostAll(s, posts).userState.Keys == s.userState.Keys
    ensures forall u :: u in s.userState ==>
      PostAll(s, posts).userState[u].unread == s.userState[u].unread + |posts|
    ensures Valid(s) ==> Valid(PostAll(s, posts))
    decreases |posts|
  {
    if posts != [] {
      var s1 := MsgPost(s, Some(posts[0].0), posts[0].1).state;
      PostAllEffect(s1, posts[1..]);
      assert s1.messages == s.messages + [Format(posts[0].0, posts[0].1)];
    }
  }

  /**
   * A fetch after a batch of posts with no fetch in between answers the
   * messages that were unread before the batch followed by the whole batch,
   * in posting order.
   */
  lemma FetchAfterPosts(s: ChatData, user: string, posts: seq<(string, string)>)
    requires Valid(s) && user in s.userState
    ensures Valid(PostAll(s, posts))
    ensures
      var k := s.userState[user].unread;
      MsgGet(PostAll(s, posts), Some(user)).body
        == Some(Render(s.messages[|s.messages| - k..] + Formatted(posts)))
  {
    PostAllEffect(s, posts);
    var t := PostAll(s, posts);
    var start := |s.messages| - s.userState[user].unread;
    var tail := s.messages[start..] + Formatted(posts);
    assert t.messages[|t.messages| - t.userState[user].unread..] == tail by {
      assert |t.messages| - t.userState[user].unread == start;
      SuffixOfAppend(s.messages, Formatted(posts), start);
    }
    FetchFromBaseline(t, user);
  }

  /** Helper: a known user's fetch, read off `MsgGet`'s contract at the fetch baseline. */
  lemma FetchFromBaseline(t: ChatData, user: string)
    requires Valid(t) && user in t.userState
    ensures MsgGet(t, Some(user)).body
      == Some(Render(t.messages[|t.messages| - t.userState[user].unread..]))
  {
  }

  lemma SuffixOfAppend(a: seq<string>, b: seq<string>, i: nat)
    requires i <= |a|
    ensures (a + b)[i..] == a[i..] + b
  {
  }

  /** With nothing unread beforehand, a fetch after `n` posts answers exactly those `n` messages. */
  lemma FetchAfterPostsFromRead(s: ChatData, user: string, posts: seq<(string, string)>)
    requires Valid(s) && user in s.userState && s.userState[user].unread == 0
    ensures Valid(PostAll(s, posts))
    ensures MsgGet(PostAll(s, posts), Some(user)).body == Some(Render(Formatted(posts)))
  {
    FetchAfterPosts(s, user, posts);
    assert s.messages[|s.messages|..] + Formatted(posts) == Formatted(posts);
  }

  /** A second fetch with nothing posted in between answers the empty text. */
  lemma FetchTwiceEmpty(s: ChatData, user: string)
    requires Valid(s) && user in s.userState
    ensures MsgGet(MsgGet(s, Some(user)).state, Some(user)).body == Some("")
  {
  }

  /** Right after logging in, a fetch answers the whole log. */
  lemma LoginThenFetchWholeLog(s: ChatData, user: string)
    requires Valid(s)
    ensures MsgGet(Login(s, user), Some(user)).body == Some(Render(s.messages))
  {
  }

  /**
   * Binding a second socket replaces the first: a later post pings only the
   * second one, and neither binding touched the unread count.
   */
  lemma RebindNotifiesLatest(s: ChatData, user: string, first: Socket, second: Socket,
                             sender: string, message: string)
    requires user in s.userState
    ensures
      var s2 := WsConnect(WsConnect(s, user, Some(first)).state, user, Some(second)).state;
      && s2.userState[user].unread == s.userState[user].unread
      && MsgPost(s2, Some(sender), message).notified[user] == second
  {
  }

  /**
   * The two-user walk-through: A and B log in on an empty log, A posts "hi",
   * both now have one unread message and each fetch answers "A: hi\n".
   */
  lemma TwoUserScenario()
    ensures
      var s1 := Login(Login(Init(), "A"), "B");
      var s2 := MsgPost(s1, Some("A"), "hi").state;
      var b := MsgGet(s2, Some("B"));
      var a := MsgGet(b.state, Some("A"));
      && s2.userState["A"].unread == 1 && s2.userState["B"].unread == 1
      && b.body == Some("A: hi\n") && a.body == Some("A: hi\n")
      && a.state.userState["A"].unread == 0 && a.state.userState["B"].unread == 0
  {
    var s1 := Login(Login(Init(), "A"), "B");
    assert "A" != "B";
    var s2 := MsgPost(s1, Some("A"), "hi").state;
    assert Format("A", "hi") == "A: hi";
    assert s2.messages == ["A: hi"];
    var b := MsgGet(s2, Some("B"));
    assert s2.messages[0..] == ["A: hi"];
    assert Render(["A: hi"]) == "A: hi\n";
  }

  /** A user who never logged in cannot fetch. */
  lemma UnknownUserCannotFetch(s: ChatData, user: string)
    requires Valid(s) && user !in s.userState
    ensures MsgGet(s, Some(user)) == Response(s, None)
  {
  }
}
