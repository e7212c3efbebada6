# Catchphrase quiz sync: a verified model

This project is a Dafny model of the synchronisation core of a picture-reveal
quiz ("Catchphrase"). A controller tab reveals squares of a 3×3 grid over an
image or a video, and display tabs mirror its state. The core has four parts:

- **Relay session store** (`relay.dfy`, module `Relay`). The relay endpoint
  `GET|POST /api/realtime/<quizId>` keeps a process-wide map from quiz id to
  session: the latest state snapshot, a version counter, `updatedAt`,
  `lastSeenAt` and a presence table of clients.
  - Every request creates or refreshes its own session, prunes presence
    entries older than 10 s and evicts sessions idle for more than 3 h.
  - A POST records the caller's presence.
  - Only a controller's `state` write whose snapshot names the quiz replaces
    the snapshot and bumps the version.
  - It is modelled as the class `SessionStore` over a `map<string, Session>`,
    with the clock as the parameter `now`.
- **Client quiz state and sync rules**:
  - `quiz_reducer.dfy`, module `QuizReducer`: the pure reducer.
  - `quiz_sync.dfy`, module `QuizSync`: the session-id check before a remote
    state is loaded, the max rule for the relay's version, and the message
    dispatch rule of the same-browser channel. It also has the class
    `SyncClient` with its imperative peer table, presence counts and relay
    response handling, and the host peer id shape.
- **Grid helpers** (`quiz_helpers.dfy`, module `QuizHelpers`): set and sequence
  queries over squares 1..9, and the fresh question record.
- **Video helpers** (`video_display.dfy`, module `VideoDisplay`): YouTube id
  extraction, integer clamping and the clip derivation.

`js.dfy` (module `Js`) holds the JavaScript notions the others share:
- JSON-shaped values
- truthiness
- `typeof … === 'object'`
- property reads that throw on null and undefined
- `String.prototype.trim`

`counting.dfy` (module `Counting`) holds the key-by-key counting step that the
two presence loops share, and the fact that a subset is no larger than its
superset.

Each operation that changes state is a method proved against a specification
function. `SessionStore.Handle` is specified by `Accessed` and `Posted`, and
`SyncClient.SweepStalePeers` by `Swept`. The lemmas beside them state what the
source promises:
- version monotonicity
- the exact acceptance condition for a write
- the exact pruning cut-offs
- counts bounded by the table
- the reducer's per-action effects
- agreement between the reducer's `currentSequenceIndex` and `getNextSequenceSquare`
- round trips for `split`/`join` and for each kind of YouTube link

In a few places the code does something other than one might expect, and the
model follows the code:
- **Expired sessions.** One might expect a session idle for more than 3 h to be
  gone on the next access, which would recreate it at version 0. The handler
  refreshes the requested session (api/realtime.js:100) before it sweeps
  (api/realtime.js:102). A request for an expired session therefore revives
  it with its old state and version. Only a request for another id evicts it
  (`Relay.ExpiredSessionRevivedByOwnRequest`, `Relay.AccessEvictsExactly`).
- **Zero timestamps.** `prunePresence` tests `!client?.lastSeenAt`, so an entry
  stamped 0 is always pruned. `Relay.IsStale` keeps that case, and
  `Relay.PresenceWindow` states the 10 s window for non-zero stamps.
- **`areAllSquaresRevealed`.** It compares the length with 9 and nothing else.
  It agrees with "no square hidden" only for a duplicate-free list of grid
  squares (`QuizHelpers.AllRevealedIffNoneHidden`).
- **YouTube host test.** The test is a suffix test, so look-alike domains such
  as `notyoutube.com` pass it (`VideoDisplay.LookalikeHostAccepted`). The
  returned id is still a well-formed eleven-character id.

## Model

| member | source | states |
|---|---|---|
| Js.Trim | api/realtime.js:81 | the trimmed string is the input with an all-whitespace prefix and an all-whitespace suffix cut off, and it neither starts nor ends with whitespace; it is empty exactly when the input is all whitespace, and it is the input itself when there is nothing to trim |
| Relay.NormalizeQuizId | api/realtime.js:72-75 | the first value of a repeated parameter, the value itself otherwise, and none when absent; specified by its cases, and `Relay.SessionStore.Handle` answers 400 exactly when the result is missing or empty |
| Relay.NormalizeRole | api/realtime.js:77 | the role is Display exactly for the string 'display'; every other value, a missing one included, is Controller |
| Relay.NormalizeClientId | api/realtime.js:79-84 | null exactly for a non-string or blank value; otherwise a non-empty prefix of at most 80 characters of the trimmed string, which is the whole trimmed string when that is at most 80 long |
| Relay.NormalizeState | api/realtime.js:86-90 | a snapshot is accepted exactly when it is an object whose `id` is the quiz id, and the stored copy is that object with `isPlaceholder` false |
| Relay.ParseBodyAsWritten | api/realtime.js:59-70 | the code as written: a falsy body is `{}`, an object is kept, a string is what `JSON.parse` returns (`{}` when it throws), anything else is `{}`; `Relay.ParseBodyAsWrittenCanThrow` shows its flaw |
| Relay.ParseBodyAsWrittenCanThrow | api/realtime.js:59-70 | as written, the text body `null` parses to a value whose property reads throw |
| Relay.ParseBody | api/realtime.js:59-70 | the parsed body can always be read, and it equals the source's result wherever the source does not throw (`{}` otherwise) |
| Relay.PruneClients | api/realtime.js:31-38 | the delete-while-iterating loop leaves exactly the clients that are not stale |
| Relay.BuildPresence | api/realtime.js:49-57 | each counter is the number of entries with that role, and the two together equal the table size |
| Relay.PresenceCoversTable | api/realtime.js:49-57 | the controller and display counts add up to the number of clients |
| Relay.SessionStore.constructor | api/realtime.js:4-9 | the store starts empty |
| Relay.SessionStore.GetSession | api/realtime.js:11-29 | an existing session gets only a new `lastSeenAt`; an unseen id gets a session with null state, version 0, updatedAt 0 and no clients |
| Relay.SessionStore.PrunePresence | api/realtime.js:31-38 | only the named session's client table changes, to its non-stale entries |
| Relay.SessionStore.CleanupSessions | api/realtime.js:40-47 | the store keeps exactly the sessions that are not expired, each unchanged |
| Relay.SessionStore.Access | api/realtime.js:99-102 | the store becomes the refreshed, pruned and swept map, and it still holds the requested session |
| Relay.SessionStore.RecordClient | api/realtime.js:122-129 | a usable client id is upserted with its normalised role and `now`; nothing else changes |
| Relay.SessionStore.WriteState | api/realtime.js:131-138 | the state, updatedAt and version change only as `Written` says, on the named session only |
| Relay.SessionStore.MarkSeen | api/realtime.js:141 | only the named session's `lastSeenAt` changes, to `now` |
| Relay.SessionStore.Post | api/realtime.js:122-141 | a POST replaces the named session by `Posted` of it and changes nothing else |
| Relay.SessionStore.Snapshot | api/realtime.js:104-112 | the 200 answer with `Cache-Control: no-store` carries the session's version, updatedAt, role counts and state |
| Relay.SessionStore.Handle | api/realtime.js:92-151 | a missing quiz id gets 400 with the store untouched; a GET gets the snapshot after the access; another method gets 405 with `Allow: GET, POST` after the access; a POST gets the snapshot of the posted session; no surviving session's version decreases |
| Relay.AccessKeepsOwnSession | api/realtime.js:99-102 | the requested session is never evicted by its own request, and it is the pruned, refreshed session |
| Relay.AccessKeepsVersions | api/realtime.js:99-102 | an access never changes a version: sessions are kept whole or dropped |
| Relay.PostVersion | api/realtime.js:131-138 | an accepted write sets version to old + 1, updatedAt to now and the state to the normalised snapshot; otherwise all three are unchanged |
| Relay.PostNeverLowersVersion | api/realtime.js:131-138 | a POST never lowers the version |
| Relay.DisplayNeverWrites | api/realtime.js:77 | a POST whose role is 'display' changes neither state nor version |
| Relay.PostRecordsClient | api/realtime.js:123-129 | a POST with a usable client id leaves `clients[id] = {role, lastSeenAt: now}`, replacing any earlier role |
| Relay.PresenceWindow | api/realtime.js:31-38 | a client with a non-zero stamp survives exactly up to and including 10000 ms after it was seen |
| Relay.FreshClientsExact | api/realtime.js:31-38 | pruning keeps a client exactly when it is not stale, and keeps it unchanged |
| Relay.CountsBoundedByTable | api/realtime.js:49-57 | the two presence counts never exceed the table size |
| Relay.AccessEvictsExactly | api/realtime.js:40-47 | any other session survives an access exactly when it is not idle past the TTL, and it survives unchanged |
| Relay.FirstAccess | api/realtime.js:19-27 | the first access to an id leaves a session with null state, version 0, updatedAt 0, no clients and `lastSeenAt = now` |
| Relay.ExpiredSessionRevivedByOwnRequest | api/realtime.js:99-102 | a request for an expired session keeps its state and version, because the refresh happens before the sweep |
| Relay.WrittenOk | api/realtime.js:131-138 | a conditional write keeps a session well formed: version 0 exactly while the state is null, and the state names its quiz |
| Relay.PostedOk | api/realtime.js:122-141 | a whole POST keeps a session well formed |
| Relay.ControllerWriteAccepted | api/realtime.js:131-138 | a controller's state write whose snapshot carries the quiz id is accepted, bumps the version by one and stores the snapshot with `isPlaceholder` false |
| Relay.EndToEnd | api/realtime.js:92-151 | on a new store, a controller write gives version 1, a later GET returns that state, and a second write gives version 2 |
| QuizHelpers.CreateEmptyQuestion | src/utils/quizHelpers.js:5-24 | a new question has no reveals, no history, a null sequence, index 0, the timer `(false, 5000, false, 0)`, the parsed start time or 0, and the id `q_` + the decimal digits of the time + `_` + the suffix, where the digits denote the time and have no leading zero (`QuizHelpers.Decimal`) |
| QuizHelpers.Decimal | src/utils/quizHelpers.js:7 | the rendering of the time stamp is a non-empty string of decimal digits that denotes the number and has no leading zero |
| QuizHelpers.Hidden | src/utils/quizHelpers.js:39 | the filter keeps exactly the squares not revealed, and keeps an ascending list ascending |
| QuizHelpers.UnrevealedSquares | src/utils/quizHelpers.js:38-40 | exactly the squares 1..9 that are not revealed, in ascending order and without duplicates |
| QuizHelpers.RandomUnrevealedSquare | src/utils/quizHelpers.js:42-46 | null exactly when nothing is hidden; otherwise a member of the unrevealed squares, for every random value in [0, 1) |
| QuizHelpers.FirstHidden | src/utils/quizHelpers.js:55 | `find` returns an element of the sequence that is not revealed and that every earlier element is revealed before, and none exactly when every element is revealed |
| QuizHelpers.NextSequenceSquare | src/utils/quizHelpers.js:48-56 | null for a null or empty sequence; otherwise none exactly when every element is revealed; a square it returns is never already revealed, and every element before it in the sequence is |
| QuizHelpers.IsSquareRevealed | src/utils/quizHelpers.js:58-60 | membership in the revealed list; `QuizHelpers.RevealedAgreesWithHidden` ties it to `getUnrevealedSquares` |
| QuizHelpers.AreAllSquaresRevealed | src/utils/quizHelpers.js:62-64 | the length test against 9; `QuizHelpers.AllRevealedIffNoneHidden` says when it means that no square is hidden |
| QuizHelpers.RevealedAgreesWithHidden | src/utils/quizHelpers.js:58-60 | a grid square is revealed exactly when `getUnrevealedSquares` leaves it out |
| QuizHelpers.AllRevealedIffNoneHidden | src/utils/quizHelpers.js:62-64 | for a duplicate-free list of grid squares, length 9 holds exactly when no square is hidden |
| QuizReducer.Reduce | src/contexts/QuizContext.jsx:6-123 | the reducer; each action's effect is stated by the `…Spec` lemmas below, `QuizReducer.UnhandledIsIdentity` covers the default case, and `QuizReducer.ConsistencyPreserved` the index invariant |
| QuizReducer.Dedup | src/contexts/QuizContext.jsx:21 | `[...new Set(s)]` has the same members as `s`, no duplicates, keeps the order of first occurrence, and is `s` itself when `s` has no duplicates |
| QuizReducer.FirstUnrevealedIndex | src/contexts/QuizContext.jsx:25-28 | the index is at most the length; every earlier element is revealed; an element at the index is not revealed (so full revelation gives the length) |
| QuizReducer.RevealSquareSpec | src/contexts/QuizContext.jsx:17-36 | only the current question changes; its reveals are the old ones plus the square, duplicate-free, the old list with the square appended if new; its index is consistent |
| QuizReducer.SetRevealSequenceSpec | src/contexts/QuizContext.jsx:38-58 | only the current question changes; a null or empty sequence stores null and 0; otherwise the sequence is stored with the index of its first unrevealed element, or its length |
| QuizReducer.ResetCurrentSpec | src/contexts/QuizContext.jsx:60-72 | only the current question changes: no reveals, index 0, timer stopped at square 0, `enabled`, `interval` and the sequence kept |
| QuizReducer.ResetAllSpec | src/contexts/QuizContext.jsx:74-85 | every question is reset the same way and the current index becomes 0; every other field of every question, and of the quiz, is kept |
| QuizReducer.RemoveAtSpec | src/contexts/QuizContext.jsx:116 | the filter removes exactly the element at the index, and nothing when the index is out of range |
| QuizReducer.RemoveQuestionSpec | src/contexts/QuizContext.jsx:113-118 | the question at the payload index is removed, the current index becomes `min(old, length - 2)` (-1 for the last question), and nothing else changes |
| QuizReducer.TopLevelActionsSpec | src/contexts/QuizContext.jsx:8-15 | LOAD_QUIZ replaces the state; SET_VIEW_MODE and SET_CURRENT_QUESTION overwrite one field and keep the rest |
| QuizReducer.UpdateTimerModeSpec | src/contexts/QuizContext.jsx:87-95 | only the current question's timer changes: each field the payload carries wins, and the others are kept |
| QuizReducer.AddQuestionSpec | src/contexts/QuizContext.jsx:97-101 | the payload is appended and nothing else changes |
| QuizReducer.UpdateQuestionSpec | src/contexts/QuizContext.jsx:103-111 | only the question at the payload index changes; for each of the ten fields, the patch's value wins when present and the old value is kept otherwise; an empty patch changes nothing |
| QuizReducer.UnhandledIsIdentity | src/contexts/QuizContext.jsx:120-121 | an action type without a case leaves the state as it is |
| QuizReducer.ConsistencyPreserved | src/contexts/QuizContext.jsx:17-118 | the reveal, sequence, reset, timer, navigation and removal actions keep every question's index consistent with its reveals and sequence |
| QuizReducer.FirstHiddenAtIndex | src/utils/quizHelpers.js:55 | `find` returns the element at the reducer's `findIndex` position, and none exactly when that position is the length |
| QuizReducer.NextSquareMatchesIndex | src/utils/quizHelpers.js:53-55 | for a consistent question with a non-empty sequence, `getNextSequenceSquare` is `revealSequence[currentSequenceIndex]`, and null exactly when the index is the length |
| QuizSync.AcceptSynced | src/contexts/QuizContext.jsx:198-209 | a payload is loaded exactly when it has an id that equals the expected id, if there is one; it is loaded with `isPlaceholder` false |
| QuizSync.AcceptedStateStaysInSession | src/contexts/QuizContext.jsx:201-202 | once an expected id exists, every accepted state carries it, so the client stays on its quiz |
| QuizSync.NextRelayVersion | src/contexts/QuizContext.jsx:343-345 | the tracked version never decreases; it becomes the larger of the old version and a numeric payload version, and is unchanged otherwise |
| QuizSync.RelayVersionCommutes | src/contexts/QuizContext.jsx:344 | two relay responses leave the same version in either order of arrival |
| QuizSync.SweptExact | src/contexts/QuizContext.jsx:251-266 | a peer other than the client survives the sweep exactly when it was seen at most 5000 ms ago, and it survives unchanged |
| QuizSync.SameRoleKeepsCounts | src/contexts/QuizContext.jsx:235-238 | refreshing `lastSeen` of a known peer with the same role changes no count, so skipping `refreshPresence` there is safe |
| QuizSync.CountsBoundedByPeers | src/contexts/QuizContext.jsx:183-196 | the local controller and display counts never exceed the table size |
| QuizSync.CountPeers | src/contexts/QuizContext.jsx:184-192 | the counting loop yields the number of entries with role 'controller' and with role 'display' |
| QuizSync.Reply | src/contexts/QuizContext.jsx:268-305 | an answer is sent exactly for an admitted HELLO, or a REQUEST_SYNC received by a controller, that is addressed to this client; it goes to the sender, as a HELLO_ACK or as a SYNC_STATE_UPDATE carrying the latest state |
| QuizSync.DisplayNeverSendsState | src/contexts/QuizContext.jsx:292-296 | a display answers nothing but HELLO_ACK, so it never hands out its state |
| QuizSync.SyncClient.constructor | src/contexts/QuizContext.jsx:140-150 | a new client has no peers, zero counts, version 0, status 'local' and the initial quiz |
| QuizSync.SyncClient.RefreshPresence | src/contexts/QuizContext.jsx:183-196 | the published presence becomes the local per-role counts plus the remote ones |
| QuizSync.SyncClient.TrackPeer | src/contexts/QuizContext.jsx:230-242 | an empty sender, an empty role or the client itself is ignored; otherwise the entry becomes `{role, lastSeen: now}`; the presence invariant is kept |
| QuizSync.SyncClient.UntrackPeer | src/contexts/QuizContext.jsx:244-249 | the sender's entry is deleted unless it is empty or the client itself; the presence invariant is kept |
| QuizSync.SyncClient.SweepStalePeers | src/contexts/QuizContext.jsx:251-266 | the delete-while-iterating loop leaves exactly the peers seen within 5000 ms; the presence invariant is kept |
| QuizSync.SyncClient.ApplySyncedState | src/contexts/QuizContext.jsx:198-209 | the state becomes the accepted payload, if there is one, and the update is then marked as remote; otherwise nothing changes |
| QuizSync.SyncClient.OnMessage | src/contexts/QuizContext.jsx:268-307 | dropped messages change nothing; admitted ones track their sender; only messages addressed to this client act: GOODBYE untracks, SYNC_STATE_UPDATE loads an accepted state and sets the remote-update flag, which no other message touches; the answer returned is `Reply` |
| QuizSync.SyncClient.ApplyRelayResponse | src/contexts/QuizContext.jsx:340-364 | the version follows the max rule, an object `presence` replaces the remote counts, a state of this quiz is loaded and sets the remote-update flag (left as it was otherwise), and a display moves to Connected or Connecting |
| QuizSync.SyncClient.ApplyStateAck | src/contexts/QuizContext.jsx:457-467 | the quiz, the peers and the remote-update flag never change; without a numeric version the version and remote counts stay too; with one, the version follows the max rule and an object `presence` replaces the remote counts |
| QuizSync.KeepAlnum | src/contexts/QuizContext.jsx:131 | the result holds only ASCII letters and digits, and is the input when the input has nothing else |
| QuizSync.KeepAlnumAppend | src/contexts/QuizContext.jsx:131 | the regular-expression replacement distributes over concatenation, so with `QuizSync.KeepAlnumOne` exactly the alphanumerics of the input survive, in order |
| QuizSync.KeepAlnumOne | src/contexts/QuizContext.jsx:131 | on one character the replacement keeps an ASCII letter or digit and drops anything else |
| QuizSync.ShortQuizId | src/contexts/QuizContext.jsx:131 | the last `min(12, n)` characters of the cleaned id (of "quiz" for an empty id), all alphanumeric |
| QuizSync.CreateHostPeerId | src/contexts/QuizContext.jsx:130-134 | the id is `host_`, the short quiz id, `_` and the suffix |
| QuizSync.HostPeerIdNamesQuiz | src/contexts/QuizContext.jsx:130-134 | the quiz part read back from a host peer id (after `host_`, up to the next `_`) is the short quiz id, whatever the suffix |
| VideoDisplay.Split | src/components/VideoDisplay.jsx:26 | `split('/')` gives at least one piece, and no piece holds a slash |
| VideoDisplay.JoinOfSplit | src/components/VideoDisplay.jsx:26 | joining the pieces with '/' gives back the string |
| VideoDisplay.SplitOfJoin | src/components/VideoDisplay.jsx:26 | splitting a '/'-join of slash-free pieces gives back the pieces |
| VideoDisplay.NonEmpty | src/components/VideoDisplay.jsx:26 | `filter(Boolean)` keeps only non-empty pieces, taken from the input |
| VideoDisplay.NonEmptyAppend | src/components/VideoDisplay.jsx:26 | the filter distributes over concatenation, so with `VideoDisplay.NonEmptyOne` exactly the non-empty pieces survive, in order |
| VideoDisplay.NonEmptyOne | src/components/VideoDisplay.jsx:26 | on one piece the filter keeps it exactly when it is non-empty |
| VideoDisplay.ParseYouTubeId | src/components/VideoDisplay.jsx:3-35 | null for empty input or an unparsable URL; a result is always an 11-character `[A-Za-z0-9_-]` id; it comes only from `youtu.be` or a YouTube host, from `v` on `/watch`, or from the segment after embed, shorts, live or v; on `youtu.be` it is the path after its first character up to the next slash |
| VideoDisplay.OtherHostsRejected | src/components/VideoDisplay.jsx:34 | any other host yields null |
| VideoDisplay.FirstPiece | src/components/VideoDisplay.jsx:16 | `split('/')[0]` is the whole text or the text before its first slash |
| VideoDisplay.ShortLinkExact | src/components/VideoDisplay.jsx:15-18 | on `youtu.be` the result is `id` exactly when `id` is well formed and is the first path segment, and null exactly when the first segment is malformed |
| VideoDisplay.ShortLinkRoundTrip | src/components/VideoDisplay.jsx:15-18 | `youtu.be/<id>` (with or without `www.` and any trailing path) gives back a well-formed id |
| VideoDisplay.WatchLinkRoundTrip | src/components/VideoDisplay.jsx:21-24 | on `/watch` the result is `v` exactly when `v` is a well-formed id, and null otherwise |
| VideoDisplay.EmbedLinkExact | src/components/VideoDisplay.jsx:26-31 | on a YouTube host and a path other than `/watch`, the result is `id` exactly when the first two segments are an embed prefix and the well-formed `id`, whatever follows |
| VideoDisplay.EmbedLinkRoundTrip | src/components/VideoDisplay.jsx:26-31 | `/embed/<id>`, `/shorts/<id>`, `/live/<id>` and `/v/<id>` on a YouTube host, bare, with a trailing slash or with further segments, give back a well-formed id |
| VideoDisplay.EmbedPathSegments | src/components/VideoDisplay.jsx:26 | the segments of `/<prefix>/<id>[/<rest>]` begin with the prefix and the id |
| VideoDisplay.LookalikeHostAccepted | src/components/VideoDisplay.jsx:20 | the suffix test counts `notyoutube.com` as a YouTube host |
| VideoDisplay.ClampInt | src/components/VideoDisplay.jsx:37-41 | NaN gives `min`; a value inside `[min, max]` is kept; the result lies in `[min, max]` whenever `min <= max` |
| VideoDisplay.ClipOf | src/components/VideoDisplay.jsx:50-52 | `0 <= start <= MAX_SAFE_INTEGER` and `0 <= dur <= 600`; an end exists exactly for a positive duration, and it is `start + dur` |
| VideoDisplay.DefaultClip | src/components/VideoDisplay.jsx:43 | the defaults (start 0, duration 10) give the clip from 0 to 10 |

## Left out

- The clock: `Date.now()` is the parameter `now`, read once per relay request. The source reads it up to five times per request, and those readings can differ by a few milliseconds.
- Concurrency: concurrent requests against the shared store, and the interleaving of channel messages, timers and network completions on the client. The model is sequential.
- I/O: `BroadcastChannel`, `fetch`, `AbortController`, `setInterval`/`setTimeout`, `beforeunload` and `localStorage`. A received message is an argument and a message to send is a result.
- The relay effect's own status changes: 'ready' or 'connecting' at start, 'error' on a failed request for a display, and 'local' on teardown.
- The auto-save and rebroadcast effect of the controller, except the handler of the relay's answer (`QuizSync.SyncClient.ApplyStateAck`).
- `createClientId`, `resolvedHostPeerId`, `channelName` and `createEmptyQuiz`: random ids and localStorage wrappers.
- Foreign parsers: `JSON.parse` in `parseBody` is the input `decoded`. `new URL(...)` and `URLSearchParams.get('v')` are the input `Url` (`None` when the constructor throws). `parseInt` / `Number.parseInt` are the input `Option<int>` (`None` for NaN).
- Randomness: `Math.random()` is the parameter `random` in [0, 1). The base-36 suffixes of the question and host peer ids are string parameters.
- Relay.NormalizeClientId: `slice(0, 80)` counts UTF-16 code units, and the model counts characters. A client id with characters outside the Basic Multilingual Plane is cut at a different place.
- Js.Json: numbers are integers. Fractions, NaN, infinities and the loss of precision above 2^53 are not modelled. The `ok` field of every response body is implied by the response kind and not stored.
- QuizSync.SyncClient.ApplyRelayResponse: a presence count that is a non-empty string, an array or an object is read as 0, where `Number` would convert it or give NaN. The relay only sends integers there.
- QuizSync.SyncClient.RefreshPresence: legacy peer entries stored as bare role strings, and entries without a numeric `lastSeen`, are not modelled. `trackPeer` only ever stores `{role, lastSeen}` objects.
- QuizSync.SyncClient.OnMessage: a payload that is not a quiz record is `None`, and a record without an id has id "". The `latest` null guard of REQUEST_SYNC cannot fire, because the client always holds a state.
- Client quiz records keep only their named fields. Extra fields a payload carries are not modelled.
- Views, components, hooks and the video playback effects in `VideoDisplay.jsx` are not part of this model.

## Findings

| source | as written | input that shows it | evidently intended | confidence | as-written member | corrected member |
|---|---|---|---|---|---|---|
| api/realtime.js:59-70 | `parseBody` returns whatever `JSON.parse` yields for a text body, without checking that it is an object, and the handler then reads `body.role` | a POST whose text body is `null`: it parses to null, and `body.role` throws, so the request fails with a server error | a body that does not decode to an object falls back to `{}`, as undecodable text does, and the request is answered 200 | medium, not executed | Relay.ParseBodyAsWrittenCanThrow | Relay.ParseBody |
