/**
 * The relay endpoint `GET|POST /api/realtime/<quizId>` (api/realtime.js): a
 * process-wide store from quiz id to session, each holding the latest state
 * snapshot, a version counter and a presence table of clients. Every request
 * creates or refreshes its own session, prunes that session's presence table
 * and evicts idle sessions; a POST records the caller's presence and, for an
 * authentic controller write, replaces the snapshot and bumps the version.
 *
 * The clock is the parameter `now` (milliseconds), read once per request.
 */
module Relay {
  import opened Js
  import opened Counting

  const PresenceTimeoutMs: int := 10_000
  const SessionTtlMs: int := 3 * 60 * 60 * 1000
  const MaxClientIdLength: nat := 80

  const MissingQuizId: string := "missing_quiz_id"
  const MethodNotAllowed: string := "method_not_allowed"
  const NoStore: map<string, string> := map["Cache-Control" := "no-store, max-age=0"]
  const AllowGetPost: map<string, string> := map["Allow" := "GET, POST"]

  datatype Role = Controller | Display

  /** One entry of a session's presence table. */
  datatype Client = Client(role: Role, lastSeenAt: int)

  /** `state` is `Null` until the first accepted write. */
  datatype Session = Session(
    quizId: string,
    state: Json,
    version: nat,
    updatedAt: int,
    lastSeenAt: int,
    clients: map<string, Client>)

  datatype Presence = Presence(controller: nat, display: nat)

  /** The `quizId` route parameter: absent, one value, or repeated. */
  datatype QueryParam = Absent | Single(value: string) | Repeated(values: seq<string>)

  /**
   * A request. `body` is `req.body` as the framework delivers it; when it is a
   * string, `decoded` is what `JSON.parse` makes of it (`None`: it throws).
   */
  datatype Request = Request(verb: string, quizId: QueryParam, body: Json, decoded: Option<Json>)

  datatype ResponseBody =
    | Failure(error: string)
    | Snapshot(version: nat, updatedAt: int, presence: Presence, state: Json)

  datatype Response = Response(status: int, headers: map<string, string>, body: ResponseBody)

  // ---------------------------------------------------------------------------
  // Input normalisation

  /** `normalizeQuizId`: the first value of a repeated parameter (undefined when there is none). */
  function NormalizeQuizId(q: QueryParam): Option<string>
  {
    match q
    case Absent => None
    case Single(s) => Some(s)
    case Repeated(xs) => if |xs| > 0 then Some(xs[0]) else None
  }

  /** `!quizId`: the handler answers 400 exactly for an absent or empty id. */
  predicate IsMissing(q: Option<string>)
  {
    q.None? || q.value == ""
  }

  /** `normalizeRole`: everything except the string 'display' (undefined included) is a controller. */
  function NormalizeRole(v: Json): (r: Role)
    ensures r == Display <==> v == Str("display")
  {
    if v == Str("display") then Display else Controller
  }

  /**
   * `normalizeClientId`: null for a non-string or blank value; otherwise the
   * trimmed string cut to its first 80 characters, which is never empty and
   * never starts with whitespace; the 80-character cut can end with whitespace.
   */
  function NormalizeClientId(v: Json): (r: Option<string>)
    ensures r.None? <==> !v.Str? || AllWhitespace(v.s)
    ensures r.Some? ==> 0 < |r.value| <= MaxClientIdLength
    ensures r.Some? ==> v.Str? && |r.value| <= |Trim(v.s)| && r.value == Trim(v.s)[..|r.value|]
    ensures r.Some? ==> !IsWhitespace(r.value[0])
    ensures r.Some? && |Trim(v.s)| <= MaxClientIdLength ==> r.value == Trim(v.s)
    ensures r.Some? && |Trim(v.s)| > MaxClientIdLength ==> |r.value| == MaxClientIdLength
  {
    if !v.Str? then None
    else
      var trimmed := Trim(v.s);
      if trimmed == "" then None
      else Some(if |trimmed| <= MaxClientIdLength then trimmed else trimmed[..MaxClientIdLength])
  }

  /**
   * `normalizeState`: a snapshot is accepted only when it is a plain object
   * whose `id` is the target quiz id; the stored copy has `isPlaceholder` false.
   */
  function NormalizeState(v: Json, quizId: string): (r: Option<Json>)
    ensures r.Some? <==> v.Obj? && "id" in v.fields && v.fields["id"] == Str(quizId)
    ensures r.Some? ==> r.value == Obj(v.fields["isPlaceholder" := Bool(false)])
  {
    if !Truthy(v) || !IsObjectType(v) then None
    else if Get(v, "id") != Str(quizId) then None
    else match v
      case Obj(fields) => Some(Obj(fields["isPlaceholder" := Bool(false)]))
      case _ => None
  }

  /**
   * `parseBody` as written: a missing or falsy body becomes {}, an object is
   * used as it is, a string is handed to JSON.parse (undecodable text becomes
   * {}), anything else becomes {}. The value JSON.parse returns is not checked.
   */
  function ParseBodyAsWritten(body: Json, decoded: Option<Json>): Json
  {
    if !Truthy(body) then Obj(map[])
    else if IsObjectType(body) then body
    else if body.Str? then (match decoded case Some(v) => v case None => Obj(map[]))
    else Obj(map[])
  }

  /** The text body "null" decodes to null, and the handler's next step, `body.role`, throws. */
  lemma ParseBodyAsWrittenCanThrow()
    ensures PropertyReadThrows(ParseBodyAsWritten(Str("null"), Some(Null)))
  {
  }

  /**
   * `parseBody` with the fail-open rule applied to what JSON.parse returns as
   * well: the handler can always read fields of the result, and the result
   * agrees with the source wherever the source does not throw.
   */
  function ParseBody(body: Json, decoded: Option<Json>): (r: Json)
    ensures !PropertyReadThrows(r)
    ensures !PropertyReadThrows(ParseBodyAsWritten(body, decoded)) ==> r == ParseBodyAsWritten(body, decoded)
    ensures PropertyReadThrows(ParseBodyAsWritten(body, decoded)) ==> r == Obj(map[])
  {
    var parsed := ParseBodyAsWritten(body, decoded);
    if PropertyReadThrows(parsed) then Obj(map[]) else parsed
  }

  /** The exact acceptance condition for a state write (lines 131-133). */
  predicate AcceptsWrite(body: Json, quizId: string)
    requires !PropertyReadThrows(body)
  {
    && Get(body, "kind") == Str("state")
    && NormalizeRole(Get(body, "role")) == Controller
    && NormalizeState(Get(body, "state"), quizId).Some?
  }

  // ---------------------------------------------------------------------------
  // Specification of the store

  /** A freshly created session: no state, version 0, empty presence table. */
  function NewSession(quizId: string, now: int): Session
  {
    Session(quizId, Null, 0, 0, now, map[])
  }

  /** The session `getSession` leaves under `quizId`. */
  function Touched(sessions: map<string, Session>, quizId: string, now: int): Session
  {
    if quizId in sessions then sessions[quizId].(lastSeenAt := now) else NewSession(quizId, now)
  }

  /** `prunePresence`'s test: a missing (zero) stamp or one strictly before the cutoff. */
  predicate IsStale(c: Client, now: int)
  {
    c.lastSeenAt == 0 || c.lastSeenAt < now - PresenceTimeoutMs
  }

  /** The presence table after `prunePresence`. */
  function FreshClients(clients: map<string, Client>, now: int): map<string, Client>
  {
    map id | id in clients && !IsStale(clients[id], now) :: clients[id]
  }

  function Pruned(s: Session, now: int): Session
  {
    s.(clients := FreshClients(s.clients, now))
  }

  /** `cleanupSessions`'s test. */
  predicate IsExpired(s: Session, now: int)
  {
    s.lastSeenAt < now - SessionTtlMs
  }

  /** The store after `cleanupSessions`. */
  function LiveSessions(sessions: map<string, Session>, now: int): map<string, Session>
  {
    map id | id in sessions && !IsExpired(sessions[id], now) :: sessions[id]
  }

  /** Lines 100-102, which every request with a quiz id runs: refresh, prune, sweep. */
  function Accessed(sessions: map<string, Session>, quizId: string, now: int): map<string, Session>
  {
    LiveSessions(sessions[quizId := Pruned(Touched(sessions, quizId, now), now)], now)
  }

  /** Lines 123-129: the caller's presence entry, when its client id is usable. */
  function WithClient(s: Session, body: Json, now: int): Session
    requires !PropertyReadThrows(body)
  {
    match NormalizeClientId(Get(body, "clientId"))
    case Some(id) => s.(clients := s.clients[id := Client(NormalizeRole(Get(body, "role")), now)])
    case None => s
  }

  /** Lines 131-138: the conditional state write. */
  function Written(s: Session, quizId: string, body: Json, now: int): Session
    requires !PropertyReadThrows(body)
  {
    if AcceptsWrite(body, quizId) then
      s.(state := NormalizeState(Get(body, "state"), quizId).value, updatedAt := now, version := s.version + 1)
    else s
  }

  lemma UpdateTwice<K, V>(m: map<K, V>, k: K, a: V, b: V)
    ensures m[k := a][k := b] == m[k := b]
  {
  }

  lemma WrittenOk(s: Session, quizId: string, body: Json, now: int)
    requires !PropertyReadThrows(body) && SessionOk(quizId, s)
    ensures SessionOk(quizId, Written(s, quizId, body, now))
  {
  }

  /** Lines 123-141: what a POST does to its (already accessed) session. */
  function Posted(s: Session, quizId: string, body: Json, now: int): Session
    requires !PropertyReadThrows(body)
  {
    Pruned(Written(WithClient(s, body, now), quizId, body, now), now).(lastSeenAt := now)
  }

  /** Number of clients with `role` (what `buildPresence` counts). */
  function CountRole(clients: map<string, Client>, role: Role): nat
  {
    |set id | id in clients && clients[id].role == role|
  }

  function PresenceOf(clients: map<string, Client>): Presence
  {
    Presence(CountRole(clients, Controller), CountRole(clients, Display))
  }

  /** The 200 response of GET and POST. */
  function SnapshotResponse(s: Session): Response
  {
    Response(200, NoStore, Snapshot(s.version, s.updatedAt, PresenceOf(s.clients), s.state))
  }

  /**
   * What every stored session satisfies: it is filed under its own id, it has
   * a state exactly when at least one write was accepted, and that state is an
   * object carrying the session's id with `isPlaceholder` false.
   */
  predicate SessionOk(id: string, s: Session)
  {
    && s.quizId == id
    && (s.version == 0 <==> s.state == Null)
    && (s.version == 0 ==> s.updatedAt == 0)
    && (s.state != Null ==>
          && s.state.Obj?
          && "id" in s.state.fields && s.state.fields["id"] == Str(id)
          && "isPlaceholder" in s.state.fields && s.state.fields["isPlaceholder"] == Bool(false))
  }

  predicate StoreOk(sessions: map<string, Session>)
  {
    forall id :: id in sessions ==> SessionOk(id, sessions[id])
  }

  // ---------------------------------------------------------------------------
  // Loops over a presence table

  /** `prunePresence`'s loop: deletes every stale entry while walking the table. */
  method PruneClients(clients: map<string, Client>, now: int) returns (kept: map<string, Client>)
    ensures kept == FreshClients(clients, now)
  {
    var cutoff := now - PresenceTimeoutMs;
    kept := clients;
    var pending := clients.Keys;
    while pending != {}
      invariant pending <= clients.Keys
      invariant kept == map id | id in clients && (id in pending || !IsStale(clients[id], now)) :: clients[id]
      decreases pending
    {
      var id :| id in pending;
      if clients[id].lastSeenAt == 0 || clients[id].lastSeenAt < cutoff {
        kept := kept - {id};
      }
      pending := pending - {id};
    }
  }

  /** A client whose role is controller. */
  predicate IsControllerClient(c: Client)
  {
    c.role == Controller
  }

  predicate IsDisplayClient(c: Client)
  {
    c.role == Display
  }

  /** `buildPresence`: one counter per role, incremented while walking the table. */
  method BuildPresence(clients: map<string, Client>) returns (p: Presence)
    ensures p.controller == CountRole(clients, Controller)
    ensures p.display == CountRole(clients, Display)
    ensures p.controller + p.display == |clients|
  {
    var controller, display := 0, 0;
    var pending := clients.Keys;
    ghost var seen: set<string> := {};
    while pending != {}
      invariant pending + seen == clients.Keys && pending !! seen
      invariant controller == |Matching(clients, seen, IsControllerClient)|
      invariant display == |Matching(clients, seen, IsDisplayClient)|
      decreases pending
    {
      var id :| id in pending;
      MatchingStep(clients, seen, id, IsControllerClient);
      MatchingStep(clients, seen, id, IsDisplayClient);
      if clients[id].role == Controller {
        controller := controller + 1;
      } else {
        display := display + 1;
      }
      seen := seen + {id};
      pending := pending - {id};
    }
    assert Matching(clients, seen, IsControllerClient) == set id | id in clients && clients[id].role == Controller;
    assert Matching(clients, seen, IsDisplayClient) == set id | id in clients && clients[id].role == Display;
    PresenceCoversTable(clients);
    p := Presence(controller, display);
  }

  /** Every client has one of the two roles, so the two counts add up to the table size. */
  lemma PresenceCoversTable(clients: map<string, Client>)
    ensures CountRole(clients, Controller) + CountRole(clients, Display) == |clients|
  {
    var c := set id | id in clients && clients[id].role == Controller;
    var d := set id | id in clients && clients[id].role == Display;
    assert c + d == clients.Keys;
    assert c * d == {};
    assert |c + d| == |c| + |d|;
  }

  // ---------------------------------------------------------------------------
  // The store

  class SessionStore {
    var sessions: map<string, Session>

    ghost predicate Valid()
      reads this
    {
      StoreOk(sessions)
    }

    /** `getStore` on first use: an empty map. */
    constructor ()
      ensures Valid() && sessions == map[]
    {
      sessions := map[];
    }

    /** `getSession`: refreshes `lastSeenAt` of an existing session, or files a new one. */
    method GetSession(quizId: string, now: int) returns (session: Session)
      requires Valid()
      modifies this
      ensures Valid()
      ensures session == Touched(old(sessions), quizId, now)
      ensures sessions == old(sessions)[quizId := session]
    {
      if quizId in sessions {
        session := sessions[quizId].(lastSeenAt := now);
      } else {
        session := NewSession(quizId, now);
      }
      sessions := sessions[quizId := session];
    }

    /** `prunePresence` on the session filed under `quizId`; nothing else changes. */
    method PrunePresence(quizId: string, now: int)
      requires Valid() && quizId in sessions
      modifies this
      ensures Valid()
      ensures sessions == old(sessions)[quizId := Pruned(old(sessions)[quizId], now)]
    {
      var kept := PruneClients(sessions[quizId].clients, now);
      sessions := sessions[quizId := sessions[quizId].(clients := kept)];
    }

    /** `cleanupSessions`: deletes every expired session while walking the store. */
    method CleanupSessions(now: int)
      requires Valid()
      modifies this
      ensures Valid()
      ensures sessions == LiveSessions(old(sessions), now)
    {
      var cutoff := now - SessionTtlMs;
      var all := sessions;
      var pending := sessions.Keys;
      while pending != {}
        invariant pending <= all.Keys
        invariant sessions == map id | id in all && (id in pending || !IsExpired(all[id], now)) :: all[id]
        invariant StoreOk(all)
        decreases pending
      {
        var id :| id in pending;
        if sessions[id].lastSeenAt < cutoff {
          sessions := sessions - {id};
        }
        pending := pending - {id};
      }
    }

    /** Lines 100-102: create or refresh the session, prune it, sweep the store. */
    method Access(quizId: string, now: int)
      requires Valid()
      modifies this
      ensures Valid() && quizId in sessions
      ensures sessions == Accessed(old(sessions), quizId, now)
    {
      var session := GetSession(quizId, now);
      PrunePresence(quizId, now);
      CleanupSessions(now);
    }

    /** Lines 123-129: upsert the caller's presence entry; nothing else changes. */
    method RecordClient(quizId: string, body: Json, now: int)
      requires Valid() && quizId in sessions && !PropertyReadThrows(body)
      modifies this
      ensures Valid()
      ensures sessions == old(sessions)[quizId := WithClient(old(sessions)[quizId], body, now)]
    {
      var role := NormalizeRole(Get(body, "role"));
      var clientId := NormalizeClientId(Get(body, "clientId"));
      if clientId.Some? {
        var s := sessions[quizId];
        sessions := sessions[quizId := s.(clients := s.clients[clientId.value := Client(role, now)])];
      }
    }

    /** Lines 131-138: the conditional state write; nothing else changes. */
    method WriteState(quizId: string, body: Json, now: int)
      requires Valid() && quizId in sessions && !PropertyReadThrows(body)
      modifies this
      ensures Valid()
      ensures sessions == old(sessions)[quizId := Written(old(sessions)[quizId], quizId, body, now)]
    {
      var role := NormalizeRole(Get(body, "role"));
      if Get(body, "kind") == Str("state") && role == Controller {
        var nextState := NormalizeState(Get(body, "state"), quizId);
        if nextState.Some? {
          var s := sessions[quizId];
          WrittenOk(s, quizId, body, now);
          sessions := sessions[quizId := s.(state := nextState.value, updatedAt := now, version := s.version + 1)];
        }
      }
    }

    /** Line 141. */
    method MarkSeen(quizId: string, now: int)
      requires Valid() && quizId in sessions
      modifies this
      ensures Valid()
      ensures sessions == old(sessions)[quizId := old(sessions)[quizId].(lastSeenAt := now)]
    {
      sessions := sessions[quizId := sessions[quizId].(lastSeenAt := now)];
    }

    /** Lines 122-141: record the caller's presence and, when accepted, its write. */
    method Post(quizId: string, body: Json, now: int)
      requires Valid() && quizId in sessions && !PropertyReadThrows(body)
      modifies this
      ensures Valid()
      ensures sessions == old(sessions)[quizId := Posted(old(sessions)[quizId], quizId, body, now)]
    {
      ghost var m0 := sessions;
      RecordClient(quizId, body, now);
      ghost var m1 := sessions;
      WriteState(quizId, body, now);
      ghost var m2 := sessions;
      PrunePresence(quizId, now);
      ghost var m3 := sessions;
      MarkSeen(quizId, now);
      UpdateTwice(m0, quizId, m1[quizId], m2[quizId]);
      UpdateTwice(m0, quizId, m2[quizId], m3[quizId]);
      UpdateTwice(m0, quizId, m3[quizId], sessions[quizId]);
    }

    /** The 200 answer for the session filed under `quizId`. */
    method Snapshot(quizId: string) returns (resp: Response)
      requires quizId in sessions
      ensures resp == SnapshotResponse(sessions[quizId])
    {
      var s := sessions[quizId];
      var presence := BuildPresence(s.clients);
      resp := Response(200, NoStore, ResponseBody.Snapshot(s.version, s.updatedAt, presence, s.state));
    }

    /**
     * `handler`. A missing quiz id is answered 400 without touching the store.
     * Otherwise the session is accessed (refreshed, pruned, idle sessions
     * swept); a GET answers the snapshot, a POST records presence and the
     * write, any other method is answered 405. No version ever decreases.
     */
    method Handle(req: Request, now: int) returns (resp: Response)
      requires Valid()
      modifies this
      ensures Valid()
      ensures IsMissing(NormalizeQuizId(req.quizId)) ==>
                resp == Response(400, map[], Failure(MissingQuizId)) && sessions == old(sessions)
      ensures !IsMissing(NormalizeQuizId(req.quizId)) ==>
                var id := NormalizeQuizId(req.quizId).value;
                var accessed := Accessed(old(sessions), id, now);
                && id in accessed
                && (req.verb == "GET" ==> sessions == accessed && resp == SnapshotResponse(accessed[id]))
                && (req.verb != "GET" && req.verb != "POST" ==>
                      sessions == accessed && resp == Response(405, AllowGetPost, Failure(MethodNotAllowed)))
                && (req.verb == "POST" ==>
                      var posted := Posted(accessed[id], id, ParseBody(req.body, req.decoded), now);
                      sessions == accessed[id := posted] && resp == SnapshotResponse(posted))
      ensures forall id :: id in old(sessions) && id in sessions ==>
                old(sessions)[id].version <= sessions[id].version
    {
      var quizId := NormalizeQuizId(req.quizId);
      if quizId.None? || quizId.value == "" {
        resp := Response(400, map[], Failure(MissingQuizId));
        return;
      }
      var id := quizId.value;
      ghost var before := sessions;
      Access(id, now);
      AccessKeepsVersions(before, id, now);

      if req.verb == "GET" {
        resp := Snapshot(id);
        return;
      }
      if req.verb != "POST" {
        resp := Response(405, AllowGetPost, Failure(MethodNotAllowed));
        return;
      }
      var body := ParseBody(req.body, req.decoded);
      ghost var accessed := sessions;
      Post(id, body, now);
      PostNeverLowersVersion(accessed[id], id, body, now);
      resp := Snapshot(id);
    }
  }

  // ---------------------------------------------------------------------------
  // Properties of the specification

  /** The requested session is refreshed before the sweep, so its own request never evicts it. */
  lemma AccessKeepsOwnSession(sessions: map<string, Session>, quizId: string, now: int)
    ensures quizId in Accessed(sessions, quizId, now)
    ensures Accessed(sessions, quizId, now)[quizId] == Pruned(Touched(sessions, quizId, now), now)
  {
  }

  /** Accessing never changes a version: sessions are either kept as they are or dropped whole. */
  lemma AccessKeepsVersions(sessions: map<string, Session>, quizId: string, now: int)
    ensures forall id :: id in sessions && id in Accessed(sessions, quizId, now) ==>
              Accessed(sessions, quizId, now)[id].version == sessions[id].version
  {
  }

  /**
   * A POST bumps the version by exactly one when the write is accepted and
   * leaves state, updatedAt and version alone otherwise.
   */
  lemma {:induction false} PostVersion(s: Session, quizId: string, body: Json, now: int)
    requires !PropertyReadThrows(body)
    ensures AcceptsWrite(body, quizId) ==>
              && Posted(s, quizId, body, now).version == s.version + 1
              && Posted(s, quizId, body, now).updatedAt == now
              && Posted(s, quizId, body, now).state == NormalizeState(Get(body, "state"), quizId).value
    ensures !AcceptsWrite(body, quizId) ==>
              && Posted(s, quizId, body, now).version == s.version
              && Posted(s, quizId, body, now).updatedAt == s.updatedAt
              && Posted(s, quizId, body, now).state == s.state
  {
  }

  lemma PostNeverLowersVersion(s: Session, quizId: string, body: Json, now: int)
    requires !PropertyReadThrows(body)
    ensures s.version <= Posted(s, quizId, body, now).version
  {
    PostVersion(s, quizId, body, now);
  }

  /** A display's POST never writes, whatever it carries. */
  lemma DisplayNeverWrites(s: Session, quizId: string, body: Json, now: int)
    requires !PropertyReadThrows(body) && Get(body, "role") == Str("display")
    ensures Posted(s, quizId, body, now).version == s.version
    ensures Posted(s, quizId, body, now).state == s.state
  {
    PostVersion(s, quizId, body, now);
  }

  /** A POST with a usable client id records that client with its role at `now`, replacing any earlier entry. */
  lemma PostRecordsClient(s: Session, quizId: string, body: Json, now: int)
    requires !PropertyReadThrows(body) && now != 0
    requires NormalizeClientId(Get(body, "clientId")).Some?
    ensures var id := NormalizeClientId(Get(body, "clientId")).value;
            && id in Posted(s, quizId, body, now).clients
            && Posted(s, quizId, body, now).clients[id] == Client(NormalizeRole(Get(body, "role")), now)
  {
  }

  /**
   * The presence window: a client last seen at `t` is kept through `t + 10000`
   * and removed from `t + 10001` on (stamps are positive clock readings).
   */
  lemma PresenceWindow(c: Client, now: int)
    requires c.lastSeenAt != 0
    ensures !IsStale(c, now) <==> now <= c.lastSeenAt + PresenceTimeoutMs
  {
  }

  /** Pruning removes exactly the stale entries and keeps the rest unchanged. */
  lemma FreshClientsExact(clients: map<string, Client>, now: int, id: string)
    ensures id in FreshClients(clients, now) <==> id in clients && !IsStale(clients[id], now)
    ensures id in FreshClients(clients, now) ==> FreshClients(clients, now)[id] == clients[id]
  {
  }

  /** Counts never exceed the table they are taken from. */
  lemma {:induction false} CountsBoundedByTable(clients: map<string, Client>)
    ensures PresenceOf(clients).controller + PresenceOf(clients).display <= |clients|
  {
    PresenceCoversTable(clients);
  }

  /**
   * The sweep removes exactly the sessions idle for longer than the TTL (other
   * than the one being accessed, which was just refreshed).
   */
  lemma AccessEvictsExactly(sessions: map<string, Session>, quizId: string, now: int, other: string)
    requires other != quizId
    ensures other in Accessed(sessions, quizId, now) <==> other in sessions && !IsExpired(sessions[other], now)
    ensures other in Accessed(sessions, quizId, now) ==> Accessed(sessions, quizId, now)[other] == sessions[other]
  {
  }

  /**
   * An unseen id yields a session with no state, version 0, updatedAt 0 and
   * an empty presence table.
   */
  lemma FirstAccess(sessions: map<string, Session>, quizId: string, now: int)
    requires quizId !in sessions
    ensures var s := Accessed(sessions, quizId, now)[quizId];
            s.state == Null && s.version == 0 && s.updatedAt == 0 && s.clients == map[] && s.lastSeenAt == now
  {
  }

  /**
   * A session idle past the TTL is not reset by a request for its own id: the
   * refresh comes before the sweep, so state and version survive. Only a
   * request for another id evicts it.
   */
  lemma ExpiredSessionRevivedByOwnRequest(sessions: map<string, Session>, quizId: string, now: int)
    requires quizId in sessions && IsExpired(sessions[quizId], now)
    ensures Accessed(sessions, quizId, now)[quizId].version == sessions[quizId].version
    ensures Accessed(sessions, quizId, now)[quizId].state == sessions[quizId].state
  {
  }

  /** Every step of a request keeps every session well formed. */
  lemma {:induction false} PostedOk(s: Session, quizId: string, body: Json, now: int)
    requires !PropertyReadThrows(body) && SessionOk(quizId, s)
    ensures SessionOk(quizId, Posted(s, quizId, body, now))
  {
    PostVersion(s, quizId, body, now);
  }

  /** The body a controller sends for a state write (`relayPost('state', …)` on the client). */
  function StateWrite(clientId: string, snapshot: map<string, Json>): Json
  {
    Obj(map["kind" := Str("state"), "role" := Str("controller"), "clientId" := Str(clientId),
            "state" := Obj(snapshot)])
  }

  /** A controller's state write whose snapshot carries the quiz id is accepted. */
  lemma {:induction false} ControllerWriteAccepted(s: Session, quizId: string, clientId: string,
                                                   snapshot: map<string, Json>, now: int)
    requires "id" in snapshot && snapshot["id"] == Str(quizId)
    ensures AcceptsWrite(StateWrite(clientId, snapshot), quizId)
    ensures Posted(s, quizId, StateWrite(clientId, snapshot), now).version == s.version + 1
    ensures Posted(s, quizId, StateWrite(clientId, snapshot), now).state == Obj(snapshot["isPlaceholder" := Bool(false)])
  {
    var body := StateWrite(clientId, snapshot);
    assert Get(body, "kind") == Str("state");
    assert Get(body, "role") == Str("controller");
    assert Get(body, "state") == Obj(snapshot);
    PostVersion(s, quizId, body, now);
  }

  /**
   * The end-to-end exchange, one request after another on a new store.
   */
  lemma {:induction false} EndToEnd(now: int)
    requires now > 0
    ensures var snap1 := map["id" := Str("q1"), "foo" := Num(1)];
            var snap2 := map["id" := Str("q1"), "foo" := Num(2)];
            var a1 := Accessed(map[], "q1", now);
            var p1 := Posted(a1["q1"], "q1", StateWrite("c1", snap1), now);
            var a2 := Accessed(a1["q1" := p1], "q1", now);
            var a3 := Accessed(a2, "q1", now);
            var p3 := Posted(a3["q1"], "q1", StateWrite("c1", snap2), now);
            && p1.version == 1
            && a2["q1"].version == 1 && a2["q1"].state == Obj(map["id" := Str("q1"), "foo" := Num(1), "isPlaceholder" := Bool(false)])
            && p3.version == 2 && p3.state == Obj(map["id" := Str("q1"), "foo" := Num(2), "isPlaceholder" := Bool(false)])
  {
    var snap1 := map["id" := Str("q1"), "foo" := Num(1)];
    var snap2 := map["id" := Str("q1"), "foo" := Num(2)];
    var a1 := Accessed(map[], "q1", now);
    AccessKeepsOwnSession(map[], "q1", now);
    ControllerWriteAccepted(a1["q1"], "q1", "c1", snap1, now);
    var p1 := Posted(a1["q1"], "q1", StateWrite("c1", snap1), now);
    var a2 := Accessed(a1["q1" := p1], "q1", now);
    AccessKeepsOwnSession(a1["q1" := p1], "q1", now);
    var a3 := Accessed(a2, "q1", now);
    AccessKeepsOwnSession(a2, "q1", now);
    ControllerWriteAccepted(a3["q1"], "q1", "c1", snap2, now);
    assert snap1["isPlaceholder" := Bool(false)] == map["id" := Str("q1"), "foo" := Num(1), "isPlaceholder" := Bool(false)];
    assert snap2["isPlaceholder" := Bool(false)] == map["id" := Str("q1"), "foo" := Num(2), "isPlaceholder" := Bool(false)];
  }
}
