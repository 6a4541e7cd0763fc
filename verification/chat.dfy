/**
 * The in-memory chat state of the HTTP server and its four handlers.
 *
 * Every handler runs entirely while holding the one mutex around the state,
 * so each is modelled as an atomic transition from a state value to the
 * state it leaves behind, together with what it answers. The caller's cookie
 * identity is an `Option<string>` input, and a websocket actor address is an
 * opaque `Socket` token that is only ever compared or stored.
 */
module Chat {
  import opened Wrappers
  import opened Transcript

  /** Address of a running websocket actor. */
  datatype Socket = Socket(id: nat)

  /** Per-user record: how many of the last messages are unread, and the bound socket. */
  datatype UserData = UserData(unread: nat, ws: Option<Socket>)

  /** The shared state: the message log and every logged-in user's record. */
  datatype ChatData = ChatData(messages: seq<string>, userState: map<string, UserData>)

  /** A handler's effect: the state it leaves, and its answer (`None` is an empty 404 reply). */
  datatype Response<T> = Response(state: ChatData, body: Option<T>)

  /** What `msg_post` does: its effect plus the socket of every user it pinged. */
  datatype Posted = Posted(state: ChatData, body: Option<string>, notified: map<string, Socket>)

  /**
   * No user has more unread messages than the log holds, so the fetch
   * baseline `|messages| - unread` is a valid log index.
   */
  predicate Valid(s: ChatData)
  {
    forall u :: u in s.userState ==> s.userState[u].unread <= |s.messages|
  }

  /** The state the server starts with. */
  function Init(): (s: ChatData)
    ensures Valid(s)
    ensures |s.messages| == 0 && |s.userState| == 0
  {
    ChatData([], map[])
  }

  /** The log line for `message` sent by `user`. */
  function Format(user: string, message: string): string
  {
    user + ": " + message
  }

  /**
   * POST /login: the request body is the user name. The user's record is
   * replaced by one whose unread count is the current log length and which
   * has no socket, whether or not the user was known or bound before.
   */
  function Login(s: ChatData, user: string): (r: ChatData)
    ensures r.messages == s.messages
    ensures r.userState.Keys == s.userState.Keys + {user}
    ensures r.userState[user] == UserData(|s.messages|, None)
    ensures forall u :: u in s.userState && u != user ==> r.userState[u] == s.userState[u]
    ensures Valid(s) ==> Valid(r)
  {
    s.(userState := s.userState[user := UserData(|s.messages|, None)])
  }

  /**
   * POST /message: without an identity nothing happens. Otherwise the
   * formatted message is appended to the log, even when the sender never
   * logged in; every known user, sender included, gets one more unread
   * message, and every user with a socket is pinged.
   */
  function MsgPost(s: ChatData, id: Option<string>, message: string): (r: Posted)
    ensures id.None? ==> r.state == s && r.body == None && r.notified == map[]
    ensures id.Some? ==> r.body == Some("")
    ensures id.Some? ==> |r.state.messages| == |s.messages| + 1
    ensures id.Some? ==> r.state.messages[..|s.messages|] == s.messages
    ensures id.Some? ==> r.state.messages[|s.messages|] == id.value + ": " + message
    ensures r.state.userState.Keys == s.userState.Keys
    ensures id.Some? ==> forall u :: u in s.userState ==>
      && r.state.userState[u].unread == s.userState[u].unread + 1
      && r.state.userState[u].ws == s.userState[u].ws
    ensures id.Some? ==> forall u :: u in r.notified <==> u in s.userState && s.userState[u].ws.Some?
    ensures forall u :: u in r.notified ==> u in s.userState && s.userState[u].ws == Some(r.notified[u])
    ensures Valid(s) ==> Valid(r.state)
  {
    match id
    case None => Posted(s, None, map[])
    case Some(name) =>
      var users := map u | u in s.userState :: s.userState[u].(unread := s.userState[u].unread + 1);
      var pinged := map u | u in s.userState && s.userState[u].ws.Some? :: s.userState[u].ws.value;
      Posted(ChatData(s.messages + [Format(name, message)], users), Some(""), pinged)
  }

  /**
   * GET /message: for a known caller with `k` unread messages, answers the
   * last `k` messages of the log, each followed by a newline, and marks
   * everything read. Without an identity, or for an unknown user, nothing
   * happens.
   */
  function MsgGet(s: ChatData, id: Option<string>): (r: Response<string>)
    requires Valid(s)
    ensures r.body.None? <==> id.None? || id.value !in s.userState
    ensures r.body.None? ==> r.state == s
    ensures r.body.Some? ==>
      var k := s.userState[id.value].unread;
      r.body.value == Render(s.messages[|s.messages| - k..])
    ensures r.state.messages == s.messages
    ensures r.state.userState.Keys == s.userState.Keys
    ensures r.body.Some? ==> r.state.userState[id.value] == s.userState[id.value].(unread := 0)
    ensures id.Some? ==> forall u :: u in s.userState && u != id.value ==> r.state.userState[u] == s.userState[u]
    ensures Valid(r.state)
  {
    if id.None? || id.value !in s.userState then
      Response(s, None)
    else
      var user := id.value;
      var data := s.userState[user];
      var start := |s.messages| - data.unread;
      var next := s.(userState := s.userState[user := data.(unread := 0)]);
      Response(next, Some(Render(s.messages[start..])))
  }

  /**
   * GET /ws/{user}: binds the socket of a freshly upgraded connection to a
   * known user, replacing any earlier one. `handshake` is the address of the
   * started websocket actor, `None` when the upgrade failed. Unknown users
   * and failed upgrades change nothing.
   */
  function WsConnect(s: ChatData, user: string, handshake: Option<Socket>): (r: Response<Socket>)
    ensures r.body.Some? <==> user in s.userState && handshake.Some?
    ensures r.body.None? ==> r.state == s
    ensures r.body.Some? ==> r.body == handshake
    ensures r.state.messages == s.messages
    ensures r.state.userState.Keys == s.userState.Keys
    ensures r.body.Some? ==> r.state.userState[user] == UserData(s.userState[user].unread, handshake)
    ensures forall u :: u in s.userState && u != user ==> r.state.userState[u] == s.userState[u]
    ensures Valid(s) ==> Valid(r.state)
  {
    if user !in s.userState then
      Response(s, None)
    else
      match handshake
      case None => Response(s, None)
      case Some(addr) =>
        Response(s.(userState := s.userState[user := s.userState[user].(ws := Some(addr))]), Some(addr))
  }
}
