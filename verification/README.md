# Chat relay state machine

A Dafny model of the in-memory core of a small actix-web chat server
(`src/main.rs`). The server keeps one `ChatData` value behind a mutex: the
message log (`messages`) and, per user name, a `UserData` record holding the
number of unread messages and an optional websocket actor address. Four
HTTP handlers change it:

- `login` stores a fresh record for the user: unread count = current log
  length, no socket;
- `msg_post` appends `"<user>: <text>"` to the log, adds one unread message
  to every known user (the sender too) and pings every bound socket;
- `msg_get` answers the caller's unread tail of the log, one message per
  line, and resets the caller's count to zero;
- `ws_connect` binds the socket of a freshly upgraded connection to a known
  user, replacing any previous one.

Each handler holds the lock for its whole run, so each is modelled as a pure,
atomic transition `ChatData -> ChatData` plus its answer (module `Chat`). The
caller's cookie identity is an `Option<string>` parameter; a websocket actor
address is an opaque `Socket` token, a failed websocket upgrade is a `None`
handshake, and the pings of `msg_post` are returned as a map from each pinged
user to the socket pinged. The central invariant `Valid` says that no unread
count exceeds the log length; `msg_get` relies on it for the subtraction
`len - unread` and the slice `messages[start..]`, so `MsgGet` requires it and
every handler is proved to preserve it (module `ChatLaws` shows that every
state reachable from the initial one is valid). Module `Transcript` models
the text `msg_get` builds and proves that splitting it into lines gives the
messages back. Module `Counter` models the separate `/count` service: a
`usize` counter with `inc`, `dec` and `count_get`.

Behaviours of the code worth knowing, all modelled as written:

- `login` sets the unread count to the current log length, so a fetch right
  after logging in answers the whole log (`LoginThenFetchWholeLog`); logging
  in again resets that baseline the same way.
- `login` always drops the user's socket, also for a user who was bound.
- `msg_post` only needs an identity, not a registered user: a post by a name
  that never logged in is appended to the log.
- `ws_connect` takes the user name from the URL path and checks no identity,
  so any client can bind a socket to any known user.
- A posted text may contain newlines, and `msg_get` separates messages only
  by newlines, so such a post reads back as several lines, the later ones
  looking like messages of their own (`NewlineInMessageSplits`).

## Model

| member | source | states |
|---|---|---|
| Chat.Init | src/main.rs:208-211 | the server starts with an empty log, no users, and the unread bound holding |
| Chat.Login | src/main.rs:58-68 | the user's record becomes {unread = log length, no socket} whether or not the user existed or was bound; the log, the other users and the unread bound are preserved; the key set gains exactly the user |
| Chat.MsgPost | src/main.rs:73-86 | without identity: no change, answer None, nobody pinged; with identity u: answer Some(""), the log gains exactly `u + ": " + text` at its end with the old prefix intact (even if u never logged in), every known user's unread count rises by exactly one, sockets and key set unchanged, exactly the users with a socket are pinged on that socket; the unread bound is preserved |
| Chat.MsgGet | src/main.rs:92-110 | answers None and changes nothing exactly when there is no identity or the user is unknown; otherwise answers the last `unread` messages of the log, each followed by a newline, sets that user's count to 0 and changes nothing else; the result is valid |
| Chat.WsConnect | src/main.rs:159-176 | succeeds exactly for a known user with a successful upgrade; on failure nothing changes; on success only that user's socket changes to the new one, never an unread count or the log; the unread bound is preserved |
| Transcript.RenderLoop | src/main.rs:102-106 | the push loop of `msg_get` builds exactly the newline-terminated concatenation of the messages |
| Transcript.RenderAppend | src/main.rs:102-106 | the text of two consecutive batches is the text of the first followed by that of the second |
| Transcript.LinesRender | src/main.rs:102-106 | when no message holds a newline, splitting the answer into lines gives back exactly the messages in log order; the source does not keep newlines out of messages (see `NewlineInMessageSplits`) |
| Transcript.LinesCons | src/main.rs:104-105 | a newline-free message followed by its newline is split off as exactly one line |
| Transcript.NewlineInMessageSplits | src/main.rs:79-106 | a post whose text is `hi\nB: x` by A reads back as the two lines `A: hi` and `B: x`, so the round trip needs newline-free messages |
| ChatLaws.Apply | src/main.rs:44 | one request serialised by the state mutex keeps the unread bound and only appends to the log |
| ChatLaws.Run | src/main.rs:207-237 | any sequence of handler calls from a valid state keeps the unread bound and only appends to the log |
| ChatLaws.ReachableValid | src/main.rs:96-103 | in every state reachable from the initial one, `len - unread` cannot underflow |
| ChatLaws.Formatted | src/main.rs:79 | the log lines of a batch of posts are, position by position, `sender + ": " + text` |
| ChatLaws.PostAllEffect | src/main.rs:77-83 | a batch of posts appends exactly its formatted lines in order and raises every known user's unread count by the batch size |
| ChatLaws.FetchAfterPosts | src/main.rs:77-106 | a fetch after a batch of posts answers the previously unread messages followed by the whole batch, in posting order |
| ChatLaws.FetchAfterPostsFromRead | src/main.rs:77-106 | with nothing unread beforehand, a fetch after n posts answers exactly those n messages in order |
| ChatLaws.FetchTwiceEmpty | src/main.rs:99-106 | a second fetch with no post in between answers the empty text |
| ChatLaws.LoginThenFetchWholeLog | src/main.rs:63-106 | right after `login(u)`, a fetch by u answers the whole log |
| ChatLaws.RebindNotifiesLatest | src/main.rs:80-82 | after binding two sockets in turn, a post pings only the second, and binding never changed the unread count |
| ChatLaws.TwoUserScenario | src/main.rs:58-110 | A and B log in on an empty log, A posts "hi": both have one unread message and both fetches answer "A: hi\n" and reset the counts |
| ChatLaws.UnknownUserCannotFetch | src/main.rs:97 | a user who never logged in gets None and the state is untouched |
| Counter.Inc | src/main.rs:178-185 | the increment stays within `usize` and increases the value |
| Counter.Dec | src/main.rs:187-194 | the decrement is only defined from 1 on and decreases the value |
| Counter.IncThenDec | src/main.rs:178-194 | a decrement undoes an increment |
| Counter.DecThenInc | src/main.rs:178-194 | an increment undoes a decrement |
| Counter.CountGet | src/main.rs:196-199 | the count is answered as canonical decimal text (digits only, no leading zero) that spells exactly the counter's value |
| Counter.ParseDigits | src/main.rs:196-199 | reading the decimal text back gives the value |
| Counter.CountGetAfterInc | src/main.rs:178-199 | after an increment the count reads back exactly one more |
| Counter.DecWrapping | src/main.rs:192 | the release-build decrement: one less, modulo 2^64 |
| Counter.IncWrapping | src/main.rs:183 | the release-build increment: one more, modulo 2^64, so the largest `usize` becomes 0 |
| Counter.IncAfterDecWrapping | src/main.rs:183-192 | in a release build the wrapped increment and decrement undo each other for every value, including through 0 and the maximum |
| Counter.DecAtZeroWraps | src/main.rs:192 | decrementing a zero counter in a release build yields the largest `usize`, a larger value |
| Counter.DecChecked | src/main.rs:187-194 | the corrected decrement refuses exactly a zero counter and otherwise gives one less |
| Counter.IncThenDecChecked | src/main.rs:178-194 | the corrected decrement undoes an increment |

## Left out

- actix-web routing, `HttpResponse` construction, the redirect of `login`, the `index` greeting and the server bootstrap in `main`: framework plumbing.
- Cookie identity (`Identity`, `CookieIdentityPolicy`, `id.remember`): the caller identity is an `Option<string>` parameter.
- The websocket actor (`Ws`, its stream handler, `Handler<NewMessage>` sending the text `new_message`, `ws::start_with_addr`): foreign asynchronous actor code. An actor address is a `Socket` token, handshake success is a parameter, and delivery of a ping is reduced to the returned map of pinged users.
- The mutex and read-write lock, lock poisoning (`lock().ok()?`, `write().ok()?`, `expect` panics) and the spawned thread that prints the counter: each handler is one atomic step on a state value.
- `println!` logging.
- `HashMap` iteration order: the per-user increments commute, so the update is a map comprehension.
- Overflow of an unread count: counts are unbounded `nat`; under `Valid` a count never exceeds the log length, which a `Vec` keeps below `usize::MAX`.
- The constant answers `"incremented"` and `"decremented"` of the counter handlers.
- Counter.Inc: excludes a counter already at `usize::MAX` (reachable by a release-build decrement of 0), where `*value += 1` panics under the write lock in a debug build and wraps to 0 in a release build; the release behaviour is `IncWrapping`. Its contract also only says the value grows; that it grows by exactly one is stated by `IncThenDec` and `CountGetAfterInc`.
- Counter.Dec: its contract only says the value shrinks; that it shrinks by exactly one is stated by `IncThenDec` and `DecThenInc`.

## Findings

| source | as written | input that shows it | evidently intended | confidence | as-written member | corrected member |
|---|---|---|---|---|---|---|
| src/main.rs:192 | `*value -= 1` on a `usize` without a check: a debug build panics while holding the write lock (poisoning it, after which `inc` and `count_get` panic on every call), a release build wraps to 18446744073709551615 | POST /count/dec on a fresh counter (value 0); in a release build a following POST /count/inc then wraps the counter at :183 from the maximum back to 0 | a counter that cannot go below zero, refusing the decrement through the handler's `None` answer | medium; not executed | Counter.DecWrapping, Counter.DecAtZeroWraps, Counter.IncWrapping | Counter.DecChecked, Counter.IncThenDecChecked |
