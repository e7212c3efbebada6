/**
 * The sync bookkeeping around the reducer in src/contexts/QuizContext.jsx:
 * the session-id check before a remote state is loaded, the table of peers
 * seen on the same-browser channel and the presence counts derived from it,
 * the rule deciding which channel messages are answered, the max rule for the
 * relay's version, and the shape of a generated host peer id.
 *
 * The channel, `fetch` and the timers are not modelled: a message arrives as
 * an argument, a message to send is returned, and the clock is a parameter.
 */
module QuizSync {
  import opened Js
  import opened QuizReducer
  import opened Counting

  const PresenceStaleMs: int := 5000
  const ControllerRole: string := "controller"
  const DisplayRole: string := "display"
  const Hello: string := "HELLO"
  const HelloAck: string := "HELLO_ACK"
  const Ping: string := "PING"
  const Goodbye: string := "GOODBYE"
  const RequestSync: string := "REQUEST_SYNC"
  const SyncStateUpdate: string := "SYNC_STATE_UPDATE"

  /** A channel message; an absent string field is "". */
  datatype Msg = Msg(
    quizId: string, sender: string, senderRole: string, msgType: string, to: string, payload: Option<Quiz>)

  /** An entry of the local peer table. */
  datatype Peer = Peer(role: string, lastSeen: int)

  /** Per-role counts, as kept in `remotePresenceRef` and `presence`. */
  datatype Counts = Counts(controller: int, display: int)

  datatype SyncStatus = Local | Ready | Connecting | Connected | Error

  /**
   * The fields of a relay response body the client reads. `state` is `None`
   * for anything that is not a quiz record; a record without an id has id "".
   */
  datatype RelayReply = RelayReply(version: Json, presence: Json, state: Option<Quiz>)

  // ---------------------------------------------------------------------------
  // Accepting a remote state

  /** The session a remote state must belong to: the initial quiz's id, else the current one. */
  function ExpectedId(initialId: string, currentId: string): string
  {
    if initialId != "" then initialId else currentId
  }

  /**
   * `applySyncedState`'s guard: the state to load, if any. A payload without
   * an id is dropped, and so is one whose id differs from a non-empty expected
   * id; an accepted payload is loaded with `isPlaceholder` cleared.
   */
  function AcceptSynced(payload: Option<Quiz>, initialId: string, currentId: string): (r: Option<Quiz>)
    ensures r.Some? <==>
              && payload.Some? && payload.value.id != ""
              && (ExpectedId(initialId, currentId) == "" || payload.value.id == ExpectedId(initialId, currentId))
    ensures r.Some? ==> r.value == payload.value.(isPlaceholder := false)
    ensures r.Some? ==> r.value.id != "" && !r.value.isPlaceholder
  {
    if payload.None? || payload.value.id == "" then None
    else
      var expected := ExpectedId(initialId, currentId);
      if expected != "" && payload.value.id != expected then None
      else Some(payload.value.(isPlaceholder := false))
  }

  /**
   * Once a session id is known, every state loaded keeps it: an accepted
   * payload carries the expected id, so a client pinned to a quiz stays on it.
   */
  lemma AcceptedStateStaysInSession(payload: Option<Quiz>, initialId: string, current: Quiz)
    requires ExpectedId(initialId, current.id) != ""
    ensures var r := AcceptSynced(payload, initialId, current.id);
            r.Some? ==> r.value.id == ExpectedId(initialId, current.id)
    ensures var r := AcceptSynced(payload, initialId, current.id);
            initialId == "" && r.Some? ==> Reduce(current, LoadQuiz(r.value)).id == current.id
  {
  }

  /** `Math.max(relayVersionRef.current, payload.version)` when the version is a number. */
  function NextRelayVersion(current: int, version: Json): (r: int)
    ensures r >= current
    ensures version.Num? ==> r >= version.n && (r == current || r == version.n)
    ensures !version.Num? ==> r == current
  {
    if version.Num? && version.n > current then version.n else current
  }

  /** Two relay responses in either order leave the same version: the max rule is order-independent. */
  lemma {:induction false} RelayVersionCommutes(current: int, a: Json, b: Json)
    ensures NextRelayVersion(NextRelayVersion(current, a), b) == NextRelayVersion(NextRelayVersion(current, b), a)
  {
    var ra := NextRelayVersion(current, a);
    var rb := NextRelayVersion(current, b);
    if a.Num? && b.Num? {
      assert NextRelayVersion(ra, b) == Max3(current, a.n, b.n);
      assert NextRelayVersion(rb, a) == Max3(current, a.n, b.n);
    }
  }

  function Max3(a: int, b: int, c: int): int
  {
    if a >= b && a >= c then a else if b >= c then b else c
  }

  /** `Number(v || 0)` for the values the relay sends; see README for the rest. */
  function ToCount(v: Json): int
  {
    match v
    case Num(n) => n
    case Bool(b) => if b then 1 else 0
    case _ => 0
  }

  /** The remote counts after a relay response: replaced when `presence` is an object, kept otherwise. */
  function RemoteAfter(presence: Json, remote: Counts): Counts
  {
    if Truthy(presence) && IsObjectType(presence) then
      Counts(ToCount(Get(presence, ControllerRole)), ToCount(Get(presence, DisplayRole)))
    else remote
  }

  // ---------------------------------------------------------------------------
  // The peer table as values

  function PeerCount(peers: map<string, Peer>, role: string): nat
  {
    |set id | id in peers && peers[id].role == role|
  }

  /** What `refreshPresence` publishes: the local per-role counts plus the remote ones. */
  function LocalPlusRemote(peers: map<string, Peer>, remote: Counts): Counts
  {
    Counts(PeerCount(peers, ControllerRole) + remote.controller, PeerCount(peers, DisplayRole) + remote.display)
  }

  /** `trackPeer`: every accepted sighting leaves the entry `{role, lastSeen: now}`. */
  function Tracked(peers: map<string, Peer>, self: string, sender: string, senderRole: string, now: int): map<string, Peer>
  {
    if sender == "" || sender == self || senderRole == "" then peers
    else peers[sender := Peer(senderRole, now)]
  }

  /** `untrackPeer`. */
  function Untracked(peers: map<string, Peer>, self: string, sender: string): map<string, Peer>
  {
    if sender == "" || sender == self then peers else peers - {sender}
  }

  predicate IsStalePeer(p: Peer, now: int)
  {
    now - p.lastSeen > PresenceStaleMs
  }

  /** `sweepStalePeers`: the table without its stale entries (the client's own id is never removed). */
  function Swept(peers: map<string, Peer>, self: string, now: int): map<string, Peer>
  {
    map id | id in peers && (id == self || !IsStalePeer(peers[id], now)) :: peers[id]
  }

  lemma SweptExact(peers: map<string, Peer>, self: string, now: int, id: string)
    requires id != self
    ensures id in Swept(peers, self, now) <==> id in peers && now <= peers[id].lastSeen + PresenceStaleMs
    ensures id in Swept(peers, self, now) ==> Swept(peers, self, now)[id] == peers[id]
  {
  }

  /**
   * Tracking a peer already known under the same role changes no count: the
   * JavaScript only refreshes `lastSeen` there and skips `refreshPresence`.
   */
  lemma {:induction false} SameRoleKeepsCounts(peers: map<string, Peer>, sender: string, now: int, role: string)
    requires sender in peers
    ensures PeerCount(peers[sender := Peer(peers[sender].role, now)], role) == PeerCount(peers, role)
  {
    var after := peers[sender := Peer(peers[sender].role, now)];
    assert (set id | id in after && after[id].role == role) == (set id | id in peers && peers[id].role == role);
  }

  lemma EmptyTableCounts()
    ensures PeerCount(map[], ControllerRole) == 0 && PeerCount(map[], DisplayRole) == 0
  {
    CountsBoundedByPeers(map[]);
  }

  /** Peers with some other role are counted in neither column. */
  lemma CountsBoundedByPeers(peers: map<string, Peer>)
    ensures PeerCount(peers, ControllerRole) + PeerCount(peers, DisplayRole) <= |peers|
  {
    var c := set id | id in peers && peers[id].role == ControllerRole;
    var d := set id | id in peers && peers[id].role == DisplayRole;
    assert c * d == {};
    assert |c + d| == |c| + |d|;
    SubsetSize(c + d, peers.Keys);
  }

  predicate IsControllerPeer(p: Peer)
  {
    p.role == ControllerRole
  }

  predicate IsDisplayPeer(p: Peer)
  {
    p.role == DisplayRole
  }

  /** The counting loop of `refreshPresence`, over the local entries only. */
  method CountPeers(peers: map<string, Peer>) returns (c: Counts)
    ensures c == Counts(PeerCount(peers, ControllerRole), PeerCount(peers, DisplayRole))
    ensures c.controller + c.display <= |peers|
  {
    var controller, display := 0, 0;
    var pending := peers.Keys;
    ghost var seen: set<string> := {};
    while pending != {}
      invariant pending + seen == peers.Keys && pending !! seen
      invariant controller == |Matching(peers, seen, IsControllerPeer)|
      invariant display == |Matching(peers, seen, IsDisplayPeer)|
      decreases pending
    {
      var id :| id in pending;
      PeerCountStep(peers, seen, id);
      if peers[id].role == ControllerRole {
        controller := controller + 1;
      }
      if peers[id].role == DisplayRole {
        display := display + 1;
      }
      seen := seen + {id};
      pending := pending - {id};
    }
    PeerCountOfAll(peers, seen);
    CountsBoundedByPeers(peers);
    c := Counts(controller, display);
  }

  /** One more visited key adds one to the count of its own role and nothing to the other. */
  lemma PeerCountStep(peers: map<string, Peer>, seen: set<string>, id: string)
    requires id in peers && id !in seen
    ensures |Matching(peers, seen + {id}, IsControllerPeer)| ==
            |Matching(peers, seen, IsControllerPeer)| + (if peers[id].role == ControllerRole then 1 else 0)
    ensures |Matching(peers, seen + {id}, IsDisplayPeer)| ==
            |Matching(peers, seen, IsDisplayPeer)| + (if peers[id].role == DisplayRole then 1 else 0)
  {
    MatchingStep(peers, seen, id, IsControllerPeer);
    MatchingStep(peers, seen, id, IsDisplayPeer);
  }

  /** Once every key is visited, the running counts are the per-role counts. */
  lemma PeerCountOfAll(peers: map<string, Peer>, seen: set<string>)
    requires seen == peers.Keys
    ensures |Matching(peers, seen, IsControllerPeer)| == PeerCount(peers, ControllerRole)
    ensures |Matching(peers, seen, IsDisplayPeer)| == PeerCount(peers, DisplayRole)
  {
    assert Matching(peers, seen, IsControllerPeer) == set id | id in peers && peers[id].role == ControllerRole;
    assert Matching(peers, seen, IsDisplayPeer) == set id | id in peers && peers[id].role == DisplayRole;
  }

  // ---------------------------------------------------------------------------
  // Message dispatch

  /**
   * The first two guards of `onmessage`: a missing message and the client's
   * own messages are dropped, and so is one naming another quiz when both
   * sides name one.
   */
  predicate Admitted(msg: Option<Msg>, self: string, quizId: string)
  {
    msg.Some? && msg.value.sender != self &&
    !(quizId != "" && msg.value.quizId != "" && msg.value.quizId != quizId)
  }

  predicate AddressedToMe(m: Msg, self: string)
  {
    m.to == "" || m.to == self
  }

  /**
   * The message `onmessage` sends in answer, if any: a HELLO_ACK to a HELLO's
   * sender, and, from a controller only, its latest state to a REQUEST_SYNC's
   * sender. Every answer goes to the sender of the message it answers.
   */
  function Reply(msg: Option<Msg>, self: string, role: string, quizId: string, latest: Quiz): (r: Option<Msg>)
    ensures r.Some? <==>
              && Admitted(msg, self, quizId) && AddressedToMe(msg.value, self)
              && (msg.value.msgType == Hello || (msg.value.msgType == RequestSync && role == ControllerRole))
    ensures r.Some? ==>
              && r.value.to == msg.value.sender && r.value.sender == self
              && r.value.senderRole == role && r.value.quizId == quizId
    ensures r.Some? ==>
              || (msg.value.msgType == Hello && r.value.msgType == HelloAck && r.value.payload.None?)
              || (msg.value.msgType == RequestSync && role == ControllerRole &&
                  r.value.msgType == SyncStateUpdate && r.value.payload == Some(latest))
  {
    if !Admitted(msg, self, quizId) || !AddressedToMe(msg.value, self) then None
    else if msg.value.msgType == Hello then Some(Msg(quizId, self, role, HelloAck, msg.value.sender, None))
    else if msg.value.msgType == RequestSync && role == ControllerRole then
      Some(Msg(quizId, self, role, SyncStateUpdate, msg.value.sender, Some(latest)))
    else None
  }

  /** A display never hands out its state, so a stale display cannot overwrite a controller. */
  lemma DisplayNeverSendsState(msg: Option<Msg>, self: string, quizId: string, latest: Quiz)
    ensures var r := Reply(msg, self, DisplayRole, quizId, latest);
            r.None? || r.value.msgType == HelloAck
  {
  }

  // ---------------------------------------------------------------------------
  // The client

  class SyncClient {
    const clientId: string
    const role: string
    /** The initial quiz's id; "" when there is none. */
    const quizId: string
    var quiz: Quiz
    var isRemoteUpdate: bool
    var peers: map<string, Peer>
    var remote: Counts
    var presence: Counts
    var relayVersion: int
    var syncStatus: SyncStatus

    /** The published presence is always the local counts plus the remote ones; the client never tracks itself. */
    ghost predicate Valid()
      reads this
    {
      clientId != "" && clientId !in peers && presence == LocalPlusRemote(peers, remote)
    }

    constructor (clientId: string, role: string, initialQuiz: Quiz)
      requires clientId != ""
      ensures Valid()
      ensures this.clientId == clientId && this.role == role && quizId == initialQuiz.id
      ensures quiz == initialQuiz && peers == map[] && remote == Counts(0, 0) && presence == Counts(0, 0)
      ensures relayVersion == 0 && syncStatus == Local && !isRemoteUpdate
    {
      this.clientId := clientId;
      this.role := role;
      quizId := initialQuiz.id;
      quiz := initialQuiz;
      isRemoteUpdate := false;
      peers := map[];
      remote := Counts(0, 0);
      presence := Counts(0, 0);
      relayVersion := 0;
      syncStatus := Local;
      new;
      EmptyTableCounts();
    }

    /** `refreshPresence`. */
    method RefreshPresence()
      modifies this
      ensures presence == LocalPlusRemote(peers, remote)
      ensures peers == old(peers) && remote == old(remote) && quiz == old(quiz)
      ensures isRemoteUpdate == old(isRemoteUpdate) && relayVersion == old(relayVersion) && syncStatus == old(syncStatus)
    {
      var local := CountPeers(peers);
      presence := Counts(local.controller + remote.controller, local.display + remote.display);
    }

    /** `trackPeer`. */
    method TrackPeer(sender: string, senderRole: string, now: int)
      requires Valid()
      modifies this
      ensures Valid()
      ensures peers == Tracked(old(peers), clientId, sender, senderRole, now)
      ensures remote == old(remote) && quiz == old(quiz) && isRemoteUpdate == old(isRemoteUpdate)
      ensures relayVersion == old(relayVersion) && syncStatus == old(syncStatus)
    {
      if sender == "" || sender == clientId || senderRole == "" {
        return;
      }
      if sender in peers && peers[sender].role == senderRole {
        SameRoleKeepsCounts(peers, sender, now, ControllerRole);
        SameRoleKeepsCounts(peers, sender, now, DisplayRole);
        peers := peers[sender := Peer(senderRole, now)];
        return;
      }
      peers := peers[sender := Peer(senderRole, now)];
      RefreshPresence();
    }

    /** `untrackPeer`. */
    method UntrackPeer(sender: string)
      requires Valid()
      modifies this
      ensures Valid()
      ensures peers == Untracked(old(peers), clientId, sender)
      ensures remote == old(remote) && quiz == old(quiz) && isRemoteUpdate == old(isRemoteUpdate)
      ensures relayVersion == old(relayVersion) && syncStatus == old(syncStatus)
    {
      if sender == "" || sender == clientId {
        return;
      }
      if sender !in peers {
        assert peers - {sender} == peers;
        return;
      }
      peers := peers - {sender};
      RefreshPresence();
    }

    /** `sweepStalePeers`: deletes while walking the table and refreshes the counts only if something went. */
    method SweepStalePeers(now: int)
      requires Valid()
      modifies this
      ensures Valid()
      ensures peers == Swept(old(peers), clientId, now)
      ensures remote == old(remote) && quiz == old(quiz) && isRemoteUpdate == old(isRemoteUpdate)
      ensures relayVersion == old(relayVersion) && syncStatus == old(syncStatus)
    {
      var kept := peers;
      var pending := peers.Keys;
      var changed := false;
      while pending != {}
        invariant pending <= peers.Keys
        invariant kept == map id | id in peers && (id in pending || id == clientId || !IsStalePeer(peers[id], now)) :: peers[id]
        invariant !changed ==> kept == peers
        decreases pending
      {
        var sender :| sender in pending;
        if sender != clientId && IsStalePeer(kept[sender], now) {
          kept := kept - {sender};
          changed := true;
        }
        pending := pending - {sender};
      }
      peers := kept;
      if changed {
        RefreshPresence();
      }
    }

    /** `applySyncedState`: loads an accepted remote state and marks the update as remote. */
    method ApplySyncedState(payload: Option<Quiz>)
      requires Valid()
      modifies this
      ensures Valid()
      ensures var accepted := AcceptSynced(payload, quizId, old(quiz).id);
              && quiz == (if accepted.Some? then accepted.value else old(quiz))
              && isRemoteUpdate == (accepted.Some? || old(isRemoteUpdate))
      ensures peers == old(peers) && remote == old(remote) && presence == old(presence)
      ensures relayVersion == old(relayVersion) && syncStatus == old(syncStatus)
    {
      var accepted := AcceptSynced(payload, quizId, quiz.id);
      if accepted.Some? {
        isRemoteUpdate := true;
        quiz := Reduce(quiz, LoadQuiz(accepted.value));
      }
    }

    /**
     * `channel.onmessage`. The sender is tracked for every admitted message,
     * even one addressed to another client; only messages addressed to this
     * client are acted on. The answer to send, if any, is returned.
     */
    method OnMessage(msg: Option<Msg>, now: int) returns (out: Option<Msg>)
      requires Valid()
      modifies this
      ensures Valid()
      ensures out == Reply(msg, clientId, role, quizId, old(quiz))
      ensures !Admitted(msg, clientId, quizId) ==> peers == old(peers) && quiz == old(quiz)
      ensures Admitted(msg, clientId, quizId) ==>
                var m := msg.value;
                var tracked := Tracked(old(peers), clientId, m.sender, m.senderRole, now);
                peers == if AddressedToMe(m, clientId) && m.msgType == Goodbye
                         then Untracked(tracked, clientId, m.sender) else tracked
      ensures Admitted(msg, clientId, quizId) && AddressedToMe(msg.value, clientId) && msg.value.msgType == SyncStateUpdate ==>
                var accepted := AcceptSynced(msg.value.payload, quizId, old(quiz).id);
                quiz == if accepted.Some? then accepted.value else old(quiz)
      ensures !(Admitted(msg, clientId, quizId) && AddressedToMe(msg.value, clientId) && msg.value.msgType == SyncStateUpdate) ==>
                quiz == old(quiz)
      ensures isRemoteUpdate ==
                (old(isRemoteUpdate) ||
                 (Admitted(msg, clientId, quizId) && AddressedToMe(msg.value, clientId) &&
                  msg.value.msgType == SyncStateUpdate && AcceptSynced(msg.value.payload, quizId, old(quiz).id).Some?))
      ensures remote == old(remote) && relayVersion == old(relayVersion) && syncStatus == old(syncStatus)
    {
      out := Reply(msg, clientId, role, quizId, quiz);
      if !Admitted(msg, clientId, quizId) {
        return;
      }
      var m := msg.value;
      TrackPeer(m.sender, m.senderRole, now);
      if !AddressedToMe(m, clientId) {
        return;
      }
      if m.msgType == Goodbye {
        UntrackPeer(m.sender);
      } else if m.msgType == SyncStateUpdate {
        ApplySyncedState(m.payload);
      }
    }

    /**
     * `applyRelayResponse` (the relay loop runs only with a quiz id): raises
     * the version by the max rule, takes the remote counts from an object
     * `presence`, loads a state of this quiz, and moves a display to Connected
     * when the response carried this quiz's state and to Connecting otherwise.
     */
    method ApplyRelayResponse(payload: Option<RelayReply>)
      requires Valid() && quizId != ""
      modifies this
      ensures Valid()
      ensures payload.None? ==> relayVersion == old(relayVersion) && remote == old(remote) && quiz == old(quiz) &&
                                syncStatus == old(syncStatus) && isRemoteUpdate == old(isRemoteUpdate)
      ensures payload.Some? ==>
                var p := payload.value;
                var ours := p.state.Some? && p.state.value.id == quizId;
                && relayVersion == NextRelayVersion(old(relayVersion), p.version)
                && remote == RemoteAfter(p.presence, old(remote))
                && quiz == (if ours then p.state.value.(isPlaceholder := false) else old(quiz))
                && isRemoteUpdate == (old(isRemoteUpdate) || ours)
                && syncStatus == (if role != DisplayRole then old(syncStatus) else if ours then Connected else Connecting)
      ensures relayVersion >= old(relayVersion)
      ensures peers == old(peers)
    {
      if payload.None? {
        return;
      }
      var p := payload.value;
      relayVersion := NextRelayVersion(relayVersion, p.version);
      if Truthy(p.presence) && IsObjectType(p.presence) {
        remote := RemoteAfter(p.presence, remote);
        RefreshPresence();
      }
      if p.state.Some? && p.state.value.id == quizId {
        ApplySyncedState(p.state);
        if role == DisplayRole {
          syncStatus := Connected;
        }
      } else if role == DisplayRole {
        syncStatus := Connecting;
      }
    }

    /**
     * The handler of the relay's answer to a controller's state push: nothing
     * happens unless the version is a number; then the version rises by the
     * max rule and an object `presence` replaces the remote counts.
     */
    method ApplyStateAck(payload: Option<RelayReply>)
      requires Valid()
      modifies this
      ensures Valid()
      ensures payload.None? || !payload.value.version.Num? ==>
                relayVersion == old(relayVersion) && remote == old(remote)
      ensures payload.Some? && payload.value.version.Num? ==>
                && relayVersion == NextRelayVersion(old(relayVersion), payload.value.version)
                && remote == RemoteAfter(payload.value.presence, old(remote))
      ensures relayVersion >= old(relayVersion)
      ensures peers == old(peers) && quiz == old(quiz) && syncStatus == old(syncStatus)
      ensures isRemoteUpdate == old(isRemoteUpdate)
    {
      if payload.None? || !payload.value.version.Num? {
        return;
      }
      var p := payload.value;
      relayVersion := NextRelayVersion(relayVersion, p.version);
      if Truthy(p.presence) && IsObjectType(p.presence) {
        remote := RemoteAfter(p.presence, remote);
        RefreshPresence();
      }
    }
  }

  // ---------------------------------------------------------------------------
  // Host peer ids

  predicate IsAlnum(c: char)
  {
    ('a' <= c <= 'z') || ('A' <= c <= 'Z') || ('0' <= c <= '9')
  }

  /** `.replace(/[^a-zA-Z0-9]/g, '')`. */
  function KeepAlnum(s: string): (r: string)
    ensures |r| <= |s|
    ensures forall i :: 0 <= i < |r| ==> IsAlnum(r[i])
    ensures (forall i :: 0 <= i < |s| ==> IsAlnum(s[i])) ==> r == s
  {
    if s == [] then []
    else (if IsAlnum(s[0]) then [s[0]] else []) + KeepAlnum(s[1..])
  }

  /** The replacement works character by character: it distributes over concatenation. */
  lemma {:induction false} KeepAlnumAppend(a: string, b: string)
    ensures KeepAlnum(a + b) == KeepAlnum(a) + KeepAlnum(b)
  {
    if a == [] {
      assert a + b == b;
    } else {
      assert (a + b)[0] == a[0];
      assert (a + b)[1..] == a[1..] + b;
      KeepAlnumAppend(a[1..], b);
      var head := if IsAlnum(a[0]) then [a[0]] else [];
      assert KeepAlnum(a + b) == head + KeepAlnum(a[1..] + b);
      assert KeepAlnum(a) == head + KeepAlnum(a[1..]);
    }
  }

  /** On a single character the replacement keeps an ASCII letter or digit and drops anything else. */
  lemma KeepAlnumOne(c: char)
    ensures KeepAlnum([c]) == if IsAlnum(c) then [c] else []
  {
    assert [c][1..] == [];
  }

  /**
   * The quiz part of a host peer id: the last twelve alphanumeric characters
   * of the quiz id, or of "quiz" when the id is empty.
   */
  function ShortQuizId(quizId: string): (r: string)
    ensures var cleaned := CleanedQuizId(quizId);
            && |r| == (if |cleaned| < 12 then |cleaned| else 12)
            && r == cleaned[|cleaned| - |r|..]
    ensures forall i :: 0 <= i < |r| ==> IsAlnum(r[i])
  {
    var cleaned := CleanedQuizId(quizId);
    if |cleaned| <= 12 then cleaned else cleaned[|cleaned| - 12..]
  }

  /** `String(quizId || 'quiz')` with everything but ASCII letters and digits removed. */
  function CleanedQuizId(quizId: string): string
  {
    KeepAlnum(if quizId == "" then "quiz" else quizId)
  }

  /** `createHostPeerId`, with the random base-36 suffix as a parameter. */
  function CreateHostPeerId(quizId: string, suffix: string): (r: string)
    ensures |r| == 6 + |ShortQuizId(quizId)| + |suffix|
    ensures r[..5] == "host_" && r[|r| - |suffix|..] == suffix && r[|r| - |suffix| - 1] == '_'
  {
    "host_" + ShortQuizId(quizId) + "_" + suffix
  }

  /** The characters of `s` before its first underscore. */
  function BeforeUnderscore(s: string): string
  {
    if s == [] || s[0] == '_' then [] else [s[0]] + BeforeUnderscore(s[1..])
  }

  /** The quiz part read back from a host peer id: what follows `host_` up to the next underscore. */
  function QuizPartOf(peerId: string): string
  {
    if |peerId| < 5 then [] else BeforeUnderscore(peerId[5..])
  }

  lemma {:induction false} BeforeUnderscoreOfAlnum(a: string, rest: string)
    requires forall i :: 0 <= i < |a| ==> IsAlnum(a[i])
    ensures BeforeUnderscore(a + "_" + rest) == a
  {
    if a != [] {
      assert (a + "_" + rest)[1..] == a[1..] + "_" + rest;
      BeforeUnderscoreOfAlnum(a[1..], rest);
    }
  }

  /** A host peer id names its quiz unambiguously: the quiz part can be read back whatever the suffix. */
  lemma HostPeerIdNamesQuiz(quizId: string, suffix: string)
    ensures QuizPartOf(CreateHostPeerId(quizId, suffix)) == ShortQuizId(quizId)
  {
    var short := ShortQuizId(quizId);
    var id := CreateHostPeerId(quizId, suffix);
    assert id == "host_" + (short + "_" + suffix);
    assert id[5..] == short + "_" + suffix;
    BeforeUnderscoreOfAlnum(short, suffix);
  }
}
