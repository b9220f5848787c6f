/**
 * The connection hub of the server (server/src/components/websocket.ts):
 * the set of open connections, admission on connect, the message, pong and
 * close handlers bound to an admitted connection, the fan-out helpers and
 * the heartbeat reaper.
 *
 * Each `ws` event (connection, message, pong, close, heartbeat tick) is one
 * atomic method of `Hub`. Every `send`, `close`, `terminate` and `ping` the
 * server performs is appended to `out`. The user table that `getUserById`
 * queries is the set `users`; `JSON.parse` reduced to what the message
 * handler inspects is the function `parse`; argon2 `verify` is `verify`.
 */
module ServerHub {
  import opened Common
  import opened Messages
  import opened Sockets
  import opened RedisStore
  import opened RoomTypes
  import ServerRooms

  const UserNotFound := "User not found"

  /** What the message handler sees of `JSON.parse(data)`; `Unrecognized` covers a throw too. */
  datatype Parsed =
    | ParsedCode(code: Option<string>, language: Option<string>)
    | ParsedSubmit(code: Option<string>, language: Option<string>)
    | Unrecognized

  /** The message `sendUserMessage` builds and whether the sender is left out of the fan-out. */
  datatype Dispatch = ToRoomExcept(msg: WebSocketMessage) | ToRoom(msg: WebSocketMessage)

  /**
   * The classification in `sendUserMessage`. A `code` event goes to the room
   * except the sender; a `userSubmit` event goes to the whole room with the
   * code in its `message` field; anything else is chat with the raw text to
   * the whole room. The username is always the one the server resolved.
   */
  function Route(parsed: Parsed, raw: string, username: string): (d: Dispatch)
    ensures d.msg.username == Some(username)
    ensures d.ToRoomExcept? <==> parsed.ParsedCode?
    ensures parsed.ParsedCode? ==>
      d.msg.event == Code && d.msg.code == parsed.code && d.msg.language == parsed.language
    ensures parsed.ParsedSubmit? ==>
      d.msg.event == UserSubmit && d.msg.message == parsed.code && d.msg.language == parsed.language
    ensures parsed.Unrecognized? ==> d.msg.event == ChatMessage && d.msg.message == Some(raw)
  {
    match parsed
    case ParsedCode(code, language) =>
      ToRoomExcept(WebSocketMessage(Code, Some(username), None, code, language))
    case ParsedSubmit(code, language) =>
      ToRoom(WebSocketMessage(UserSubmit, Some(username), code, None, language))
    case Unrecognized =>
      ToRoom(WebSocketMessage(ChatMessage, Some(username), Some(raw), None, None))
  }

  /**
   * `getUsername`: `getUserById` queries the user table by username, so the
   * result is the connection's own username when the table has that user.
   */
  function ResolveUsername(users: set<string>, ws: Socket): (name: Option<string>)
    ensures name.Some? <==> ws.username.Some? && ws.username.value in users
    ensures name.Some? ==> name == ws.username
  {
    if ws.username.Some? && ws.username.value in users then ws.username else None
  }

  /** The position of the connection with that identity, or `|cs|`. */
  function IndexOf(cs: seq<Socket>, id: nat): (k: nat)
    ensures k <= |cs|
    ensures k < |cs| ==> cs[k].id == id
    ensures forall j :: 0 <= j < k ==> cs[j].id != id
  {
    if cs == [] then 0
    else if cs[0].id == id then 0
    else 1 + IndexOf(cs[1..], id)
  }

  /** A connection is bound to a room exactly when it has a user, and only bound ones are probed. */
  predicate WellBound(c: Socket)
  {
    && (c.roomId.Some? <==> c.username.Some?)
    && (c.roomId.Some? ==> c.roomId.value != "")
    && (c.roomId.None? ==> !c.isAlive)
  }

  // ---------------------------------------------------------------------------
  // What each handler emits, as functions of the connection set.
  // ---------------------------------------------------------------------------

  /** The answer to an unknown user: an error to that connection only. */
  function UnknownUser(ws: Socket): seq<Effect>
  {
    [SendError(ws, UserNotFound)]
  }

  /** `sendUserJoinEvent`: userJoined to the room except the newcomer. */
  function JoinEffects(cs: seq<Socket>, users: set<string>, ws: Socket, roomId: string): seq<Effect>
  {
    match ResolveUsername(users, ws)
    case None => UnknownUser(ws)
    case Some(name) => if name == "" then [] else Sends(Recipients(cs, roomId, Some(ws.id)), JoinedMessage(name))
  }

  /** `sendUserLeftEvent`: userLeft to the whole room. */
  function LeftEffects(cs: seq<Socket>, users: set<string>, ws: Socket, roomId: string): seq<Effect>
  {
    match ResolveUsername(users, ws)
    case None => UnknownUser(ws)
    case Some(name) => if name == "" then [] else Sends(Recipients(cs, roomId, None), LeftMessage(name))
  }

  /** `sendUserMessage`. */
  function UserMessageEffects(cs: seq<Socket>, users: set<string>, parse: string -> Parsed,
                              ws: Socket, roomId: string, data: string): seq<Effect>
  {
    match ResolveUsername(users, ws)
    case None => UnknownUser(ws)
    case Some(name) =>
      if name == "" then [] else
      match Route(parse(data), data, name)
      case ToRoomExcept(m) => Sends(Recipients(cs, roomId, Some(ws.id)), m)
      case ToRoom(m) => Sends(Recipients(cs, roomId, None), m)
  }

  /** The whole message event: only an admitted connection has a message handler. */
  function MessageEffects(cs: seq<Socket>, users: set<string>, parse: string -> Parsed,
                          id: nat, data: string): seq<Effect>
  {
    var k := IndexOf(cs, id);
    if k == |cs| || cs[k].roomId.None? then []
    else UserMessageEffects(cs, users, parse, cs[k], cs[k].roomId.value, data)
  }

  /** The pong event: only an admitted connection has a pong handler; it sets `isAlive`. */
  function Ponged(cs: seq<Socket>, id: nat): seq<Socket>
  {
    var k := IndexOf(cs, id);
    if k == |cs| || cs[k].roomId.None? then cs
    else cs[k := cs[k].(isAlive := true)]
  }

  /** After a tick every connection has `isAlive` cleared. */
  function TickClients(cs: seq<Socket>): (r: seq<Socket>)
    ensures |r| == |cs|
    ensures forall i :: 0 <= i < |cs| ==> r[i] == cs[i].(isAlive := false)
  {
    if cs == [] then []
    else TickClients(cs[..|cs| - 1]) + [cs[|cs| - 1].(isAlive := false)]
  }

  /**
   * The pings of a tick, in iteration order. The `forEach` runs every
   * callback up to its first `await` before any of them resumes, so a live
   * connection is pinged at once while a dead one's callback suspends in
   * `removeRoomMember`.
   */
  function TickPings(cs: seq<Socket>): (r: seq<Effect>)
    ensures forall k :: 0 <= k < |r| ==> r[k].Ping?
  {
    if cs == [] then []
    else
      var c := cs[|cs| - 1];
      TickPings(cs[..|cs| - 1]) + (if c.isAlive then [Ping(c.id)] else [])
  }

  /** The terminations of a tick: each dead connection's, once its removal has finished. */
  function TickTerminates(cs: seq<Socket>): (r: seq<Effect>)
    ensures forall k :: 0 <= k < |r| ==> r[k].Terminate?
  {
    if cs == [] then []
    else
      var c := cs[|cs| - 1];
      TickTerminates(cs[..|cs| - 1]) + (if c.isAlive then [] else [Terminate(c.id)])
  }

  /** The effects of a tick: every ping, then the terminations. */
  function TickEffects(cs: seq<Socket>): seq<Effect>
  {
    TickPings(cs) + TickTerminates(cs)
  }

  /** The store after a tick: the members of dead bound connections are removed, in order. */
  function Reaped(rooms: seq<Room>, cs: seq<Socket>): seq<Room>
  {
    if cs == [] then rooms
    else
      var prev := Reaped(rooms, cs[..|cs| - 1]);
      var c := cs[|cs| - 1];
      if !c.isAlive && c.roomId.Some? && c.username.Some?
      then ServerRooms.MemberRemoved(prev, c.roomId.value, c.username.value)
      else prev
  }

  // ---------------------------------------------------------------------------
  // Properties of the handlers.
  // ---------------------------------------------------------------------------

  /**
   * Who receives what from one inbound message. An unknown user gets only an
   * error. A user whose stored name is empty causes nothing. Otherwise every
   * send carries the classified message with the resolved username, and
   * reaches exactly the connections bound to the room, leaving out the sender
   * for a `code` event only.
   */
  lemma {:induction false} UserMessageRecipients(cs: seq<Socket>, users: set<string>, parse: string -> Parsed,
                                                 ws: Socket, roomId: string, data: string, x: nat, m: WebSocketMessage)
    ensures ResolveUsername(users, ws).None? ==>
      UserMessageEffects(cs, users, parse, ws, roomId, data) == [SendError(ws, UserNotFound)]
    ensures ResolveUsername(users, ws) == Some("") ==>
      UserMessageEffects(cs, users, parse, ws, roomId, data) == []
    ensures Truthy(ResolveUsername(users, ws)) ==>
      (Send(x, m) in UserMessageEffects(cs, users, parse, ws, roomId, data) <==>
        && m == Route(parse(data), data, ws.username.value).msg
        && m.username == ws.username
        && (exists i :: 0 <= i < |cs| && cs[i].id == x && InRoom(cs[i], roomId))
        && (parse(data).ParsedCode? ==> x != ws.id))
  {
    match ResolveUsername(users, ws)
    case None =>
    case Some(name) =>
      if name != "" {
        var d := Route(parse(data), data, name);
        var except := if d.ToRoomExcept? then Some(ws.id) else None;
        RecipientsExactly(cs, roomId, except, x);
      }
  }

  /**
   * For a known user with a non-empty name, userJoined reaches the room's
   * other connections and userLeft reaches all of the room's connections.
   */
  lemma {:induction false} PresenceRecipients(cs: seq<Socket>, users: set<string>, ws: Socket, roomId: string,
                                              x: nat, m: WebSocketMessage)
    requires Truthy(ResolveUsername(users, ws))
    ensures Send(x, m) in JoinEffects(cs, users, ws, roomId) <==>
      && m == JoinedMessage(ws.username.value)
      && (exists i :: 0 <= i < |cs| && cs[i].id == x && InRoom(cs[i], roomId))
      && x != ws.id
    ensures Send(x, m) in LeftEffects(cs, users, ws, roomId) <==>
      && m == LeftMessage(ws.username.value)
      && (exists i :: 0 <= i < |cs| && cs[i].id == x && InRoom(cs[i], roomId))
  {
    var name := ws.username.value;
    RecipientsExactly(cs, roomId, Some(ws.id), x);
    RecipientsExactly(cs, roomId, None, x);
  }

  /** The synchronous pass of a tick pings exactly the live connections. */
  lemma {:induction false} TickPingsExactly(cs: seq<Socket>, x: nat)
    ensures Ping(x) in TickPings(cs) <==> exists i :: 0 <= i < |cs| && cs[i].id == x && cs[i].isAlive
  {
    if cs != [] {
      var front := cs[..|cs| - 1];
      TickPingsExactly(front, x);
      assert forall i :: 0 <= i < |front| ==> front[i] == cs[i];
    }
  }

  /** The resumed callbacks of a tick terminate exactly the dead connections. */
  lemma {:induction false} TickTerminatesExactly(cs: seq<Socket>, x: nat)
    ensures Terminate(x) in TickTerminates(cs) <==> exists i :: 0 <= i < |cs| && cs[i].id == x && !cs[i].isAlive
  {
    if cs != [] {
      var front := cs[..|cs| - 1];
      TickTerminatesExactly(front, x);
      assert forall i :: 0 <= i < |front| ==> front[i] == cs[i];
    }
  }

  /**
   * A tick terminates exactly the dead connections and pings exactly the
   * live ones; it sends nothing else, and no ping comes after a termination.
   */
  lemma TickEffectsExactly(cs: seq<Socket>, x: nat)
    ensures Terminate(x) in TickEffects(cs) <==> exists i :: 0 <= i < |cs| && cs[i].id == x && !cs[i].isAlive
    ensures Ping(x) in TickEffects(cs) <==> exists i :: 0 <= i < |cs| && cs[i].id == x && cs[i].isAlive
    ensures forall e :: e in TickEffects(cs) ==> e.Ping? || e.Terminate?
    ensures forall i, j :: 0 <= i < j < |TickEffects(cs)| && TickEffects(cs)[i].Terminate? ==>
      TickEffects(cs)[j].Terminate?
  {
    TickPingsExactly(cs, x);
    TickTerminatesExactly(cs, x);
    var p, t := TickPings(cs), TickTerminates(cs);
    assert forall k :: 0 <= k < |p| ==> (p + t)[k] == p[k];
    assert forall k :: |p| <= k < |p| + |t| ==> (p + t)[k] == t[k - |p|];
    assert Ping(x) !in t && Terminate(x) !in p;
  }

  /**
   * A connection that is alive at one tick and never answers is pinged, not
   * terminated, at that tick, and terminated, not pinged, at the next one.
   */
  lemma {:induction false} SecondTickTerminates(cs: seq<Socket>, k: nat)
    requires DistinctIds(cs) && k < |cs| && cs[k].isAlive
    ensures Ping(cs[k].id) in TickEffects(cs) && Terminate(cs[k].id) !in TickEffects(cs)
    ensures Terminate(cs[k].id) in TickEffects(TickClients(cs)) && Ping(cs[k].id) !in TickEffects(TickClients(cs))
  {
    var x := cs[k].id;
    TickEffectsExactly(cs, x);
    TickEffectsExactly(TickClients(cs), x);
    assert TickClients(cs)[k].id == x;
  }

  /** Removing the connection at position `k` of a list with distinct identities leaves no connection with its id. */
  lemma RemovedAtIsGone(cs: seq<Socket>, k: nat)
    requires DistinctIds(cs) && k < |cs|
    ensures IndexOf(cs[..k] + cs[k + 1..], cs[k].id) == |cs| - 1
    ensures DistinctIds(cs[..k] + cs[k + 1..])
  {
    var r := cs[..k] + cs[k + 1..];
    assert forall j :: 0 <= j < |r| ==> r[j] == if j < k then cs[j] else cs[j + 1];
  }

  /** One more connection of a tick's synchronous pass: its ping when live. */
  lemma TickPingsStep(cs: seq<Socket>, i: nat)
    requires i < |cs|
    ensures TickPings(cs[..i + 1]) == TickPings(cs[..i]) + (if cs[i].isAlive then [Ping(cs[i].id)] else [])
  {
    assert cs[..i + 1][..i] == cs[..i];
  }

  /** One more resumed callback of a tick: for a dead connection, its removal and its termination. */
  lemma ReapStep(rooms: seq<Room>, cs: seq<Socket>, i: nat)
    requires i < |cs|
    ensures TickTerminates(cs[..i + 1]) == TickTerminates(cs[..i]) + (if cs[i].isAlive then [] else [Terminate(cs[i].id)])
    ensures Reaped(rooms, cs[..i + 1]) ==
      if !cs[i].isAlive && cs[i].roomId.Some? && cs[i].username.Some?
      then ServerRooms.MemberRemoved(Reaped(rooms, cs[..i]), cs[i].roomId.value, cs[i].username.value)
      else Reaped(rooms, cs[..i])
  {
    assert cs[..i + 1][..i] == cs[..i];
  }

  /** The connection list of a hub: distinct identities, all issued before `nextId`, all well bound. */
  ghost predicate Registered(cs: seq<Socket>, nextId: nat)
  {
    && DistinctIds(cs)
    && (forall i :: 0 <= i < |cs| ==> cs[i].id < nextId)
    && (forall i :: 0 <= i < |cs| ==> WellBound(cs[i]))
  }

  /** A connection with a fresh identity can join the list. */
  lemma RegisteredAppend(cs: seq<Socket>, nextId: nat, ws: Socket)
    requires Registered(cs, nextId) && ws.id == nextId && WellBound(ws)
    ensures Registered(cs + [ws], nextId + 1)
  {
    var r := cs + [ws];
    assert forall i :: 0 <= i < |cs| ==> r[i] == cs[i];
  }

  /** Clearing every `isAlive` keeps the list registered. */
  lemma RegisteredTick(cs: seq<Socket>, nextId: nat)
    requires Registered(cs, nextId)
    ensures Registered(TickClients(cs), nextId)
  {
    var r := TickClients(cs);
    assert forall i :: 0 <= i < |r| ==> r[i].id == cs[i].id;
  }

  /** The newest connection can be rebound in place, keeping its identity. */
  lemma RegisteredReplaceLast(cs: seq<Socket>, nextId: nat, ws: Socket)
    requires Registered(cs, nextId) && |cs| > 0 && ws.id == cs[|cs| - 1].id && WellBound(ws)
    ensures Registered(cs[..|cs| - 1] + [ws], nextId)
  {
    var r := cs[..|cs| - 1] + [ws];
    assert forall i :: 0 <= i < |r| - 1 ==> r[i] == cs[i];
    assert forall i :: 0 <= i < |r| ==> r[i].id == cs[i].id;
  }

  // ---------------------------------------------------------------------------
  // The hub.
  // ---------------------------------------------------------------------------

  class Hub {
    /** `webSocketServer.clients`, in iteration order. */
    var clients: seq<Socket>
    /** Every `send`, `close`, `terminate` and `ping`, in the order performed. */
    var out: seq<Effect>
    /** The identity the next connection gets. */
    var nextId: nat
    const cache: RedisCache
    const users: set<string>
    const parse: string -> Parsed
    const verify: (string, string) -> bool

    ghost predicate Valid()
      reads this, cache
    {
      cache.Valid() && UniqueUuids(cache.rooms) && Registered(clients, nextId)
    }

    constructor (cache: RedisCache, users: set<string>, parse: string -> Parsed, verify: (string, string) -> bool)
      requires cache.Valid() && UniqueUuids(cache.rooms)
      ensures Valid()
      ensures clients == [] && out == [] && nextId == 0
      ensures this.cache == cache && this.users == users && this.parse == parse && this.verify == verify
    {
      this.cache := cache;
      this.users := users;
      this.parse := parse;
      this.verify := verify;
      clients := [];
      out := [];
      nextId := 0;
    }

    /** `sendMessageToRoom`: one send to every connection bound to the room, sender included. */
    method SendMessageToRoom(roomId: string, message: WebSocketMessage)
      modifies this`out
      ensures out == old(out) + Sends(Recipients(clients, roomId, None), message)
    {
      var i := 0;
      while i < |clients|
        invariant 0 <= i <= |clients|
        invariant out == old(out) + Sends(Recipients(clients[..i], roomId, None), message)
      {
        RecipientsStep(clients, i, roomId, None);
        if clients[i].roomId == Some(roomId) {
          out := out + [Send(clients[i].id, message)];
        }
        i := i + 1;
      }
      assert clients[..i] == clients;
    }

    /** `sendMessageToRoomExcept`: the same sends, minus the one to `webSocket`. */
    method SendMessageToRoomExcept(roomId: string, message: WebSocketMessage, webSocket: Socket)
      modifies this`out
      ensures out == old(out) + Sends(Recipients(clients, roomId, Some(webSocket.id)), message)
    {
      var i := 0;
      while i < |clients|
        invariant 0 <= i <= |clients|
        invariant out == old(out) + Sends(Recipients(clients[..i], roomId, Some(webSocket.id)), message)
      {
        RecipientsStep(clients, i, roomId, Some(webSocket.id));
        if clients[i].roomId == Some(roomId) && clients[i].id != webSocket.id {
          out := out + [Send(clients[i].id, message)];
        }
        i := i + 1;
      }
      assert clients[..i] == clients;
    }

    /** `getUsername`: the resolved username, or an error sent to that connection. */
    method GetUsername(webSocket: Socket) returns (name: Option<string>)
      modifies this`out
      ensures name == ResolveUsername(users, webSocket)
      ensures out == old(out) + (if name.None? then UnknownUser(webSocket) else [])
    {
      if webSocket.username.Some? && webSocket.username.value in users {
        return webSocket.username;
      }
      out := out + [SendError(webSocket, UserNotFound)];
      return None;
    }

    method SendUserJoinEvent(webSocket: Socket, roomId: string)
      modifies this`out
      ensures out == old(out) + JoinEffects(clients, users, webSocket, roomId)
    {
      var name := GetUsername(webSocket);
      if !Truthy(name) {
        return;
      }
      SendMessageToRoomExcept(roomId, JoinedMessage(name.value), webSocket);
    }

    method SendUserLeftEvent(webSocket: Socket, roomId: string)
      modifies this`out
      ensures out == old(out) + LeftEffects(clients, users, webSocket, roomId)
    {
      var name := GetUsername(webSocket);
      if !Truthy(name) {
        return;
      }
      SendMessageToRoom(roomId, LeftMessage(name.value));
    }

    method SendUserMessage(webSocket: Socket, roomId: string, data: string)
      modifies this`out
      ensures out == old(out) + UserMessageEffects(clients, users, parse, webSocket, roomId, data)
    {
      var name := GetUsername(webSocket);
      if !Truthy(name) {
        return;
      }
      var dispatch := Route(parse(data), data, name.value);
      match dispatch
      case ToRoomExcept(m) => SendMessageToRoomExcept(roomId, m, webSocket);
      case ToRoom(m) => SendMessageToRoom(roomId, m);
    }

    /**
     * A connection event (`onConnection`). The new connection joins `clients`
     * unbound. On a refused admission it stays unbound, gets the one error and
     * is closed, and the store is untouched. On success its room, liveness and
     * username are bound, the username is added to the room's members, and
     * userJoined goes to the room except the newcomer.
     */
    method Connect(url: Option<string>, header: ServerRooms.Header, sessionUser: string) returns (id: nat)
      requires Valid()
      modifies this, cache`rooms
      ensures Valid()
      ensures id == old(nextId) && nextId == old(nextId) + 1
      ensures var reason := ServerRooms.AdmissionFailure(None, url, header, old(cache.rooms), verify);
        && (reason.Some? ==>
            && clients == old(clients) + [Socket(id, None, None, false)]
            && cache.rooms == old(cache.rooms)
            && out == old(out) + ServerRooms.Rejection(Socket(id, None, None, false), reason.value))
        && (reason.None? ==>
            var roomUuid := ServerRooms.UrlRoomUuid(url).value;
            var ws := Socket(id, Some(roomUuid), Some(sessionUser), true);
            && clients == old(clients) + [ws]
            && cache.rooms == MemberAdded(old(cache.rooms), roomUuid, sessionUser)
            && out == old(out) + JoinEffects(clients, users, ws, roomUuid))
    {
      var webSocket := Register();
      id := webSocket.id;
      var ok, effects := ServerRooms.VerifyUserCanJoinRoom(cache, webSocket, url, header, verify);
      if !ok {
        out := out + effects;
        return;
      }
      // An admitted connection has been sent nothing.
      Admit(ServerRooms.UrlRoomUuid(url).value, sessionUser);
    }

    /** A new connection joins `clients` with a fresh identity, unbound and not yet alive. */
    method Register() returns (webSocket: Socket)
      requires Valid()
      modifies this`clients, this`nextId
      ensures Valid()
      ensures webSocket == Socket(old(nextId), None, None, false)
      ensures clients == old(clients) + [webSocket] && nextId == old(nextId) + 1
    {
      webSocket := Socket(nextId, None, None, false);
      RegisteredAppend(clients, nextId, webSocket);
      clients := clients + [webSocket];
      nextId := nextId + 1;
    }

    /**
     * The admitted part of `onConnection` for the newest connection: bind its
     * room, liveness and username, add the member, announce the newcomer.
     */
    method Admit(roomUuid: string, sessionUser: string)
      requires Valid() && |clients| > 0 && roomUuid != ""
      modifies this`clients, this`out, cache`rooms
      ensures Valid()
      ensures var last := |old(clients)| - 1;
        var ws := old(clients)[last].(roomId := Some(roomUuid), isAlive := true, username := Some(sessionUser));
        && clients == old(clients)[..last] + [ws]
        && cache.rooms == MemberAdded(old(cache.rooms), roomUuid, sessionUser)
        && out == old(out) + JoinEffects(clients, users, ws, roomUuid)
    {
      var last := |clients| - 1;
      var webSocket := clients[last].(roomId := Some(roomUuid), isAlive := true, username := Some(sessionUser));
      RegisteredReplaceLast(clients, nextId, webSocket);
      clients := clients[..last] + [webSocket];
      var _ := ServerRooms.AddRoomMember(cache, roomUuid, sessionUser);
      SendUserJoinEvent(webSocket, roomUuid);
    }

    /** A message event on connection `id`. */
    method Message(id: nat, data: string)
      requires Valid()
      modifies this`out
      ensures Valid()
      ensures out == old(out) + MessageEffects(clients, users, parse, id, data)
    {
      var k := IndexOf(clients, id);
      if k == |clients| || clients[k].roomId.None? {
        return;
      }
      SendUserMessage(clients[k], clients[k].roomId.value, data);
    }

    /** A pong on connection `id`: `isAlive` is set again. */
    method Pong(id: nat)
      requires Valid()
      modifies this`clients
      ensures Valid()
      ensures clients == Ponged(old(clients), id)
    {
      var k := IndexOf(clients, id);
      if k == |clients| || clients[k].roomId.None? {
        return;
      }
      clients := clients[k := clients[k].(isAlive := true)];
    }

    /**
     * A close event on connection `id`. The `ws` library has already dropped
     * the connection from `clients`; for an admitted connection the handler
     * then removes the member from the store and sends userLeft to the room.
     * A connection that is already gone is left alone, so closing twice acts once.
     */
    method Close(id: nat)
      requires Valid()
      modifies this, cache`rooms
      ensures Valid()
      ensures nextId == old(nextId)
      ensures IndexOf(clients, id) == |clients|
      ensures var k := IndexOf(old(clients), id);
        && (k == |old(clients)| ==>
            clients == old(clients) && out == old(out) && cache.rooms == old(cache.rooms))
        && (k < |old(clients)| ==>
            var ws := old(clients)[k];
            && clients == old(clients)[..k] + old(clients)[k + 1..]
            && (ws.roomId.None? ==> out == old(out) && cache.rooms == old(cache.rooms))
            && (ws.roomId.Some? ==>
                && cache.rooms == ServerRooms.MemberRemoved(old(cache.rooms), ws.roomId.value, ws.username.value)
                && out == old(out) + LeftEffects(clients, users, ws, ws.roomId.value)))
    {
      var k := IndexOf(clients, id);
      if k == |clients| {
        return;
      }
      var webSocket := clients[k];
      RemovedAtIsGone(clients, k);
      clients := clients[..k] + clients[k + 1..];
      if webSocket.roomId.None? {
        return;
      }
      var roomUuid := webSocket.roomId.value;
      var _ := ServerRooms.RemoveRoomMember(cache, roomUuid, webSocket.username.value);
      SendUserLeftEvent(webSocket, roomUuid);
    }

    /**
     * The synchronous part of `heartBeat`'s callback on the connection at
     * position `i`: a live one has `isAlive` cleared and is pinged; a dead
     * one (whose `isAlive` is already false) suspends in `removeRoomMember`.
     */
    method PingAt(i: nat)
      requires i < |clients|
      modifies this`clients, this`out
      ensures clients == old(clients)[i := old(clients)[i].(isAlive := false)]
      ensures out == old(out) + if old(clients)[i].isAlive then [Ping(old(clients)[i].id)] else []
    {
      var webSocket := clients[i];
      if webSocket.isAlive {
        clients := clients[i := webSocket.(isAlive := false)];
        out := out + [Ping(webSocket.id)];
      }
    }

    /**
     * The rest of the callback on a dead connection: its member is removed
     * from its room, then it is terminated. An unbound connection has no
     * uuid, and `getRoomByUuid(undefined)` finds no room.
     */
    method Reap(webSocket: Socket)
      requires !webSocket.isAlive && cache.Valid() && UniqueUuids(cache.rooms)
      modifies this`out, cache`rooms
      ensures cache.Valid() && UniqueUuids(cache.rooms)
      ensures out == old(out) + [Terminate(webSocket.id)]
      ensures cache.rooms == if webSocket.roomId.Some? && webSocket.username.Some?
                             then ServerRooms.MemberRemoved(old(cache.rooms), webSocket.roomId.value, webSocket.username.value)
                             else old(cache.rooms)
    {
      if webSocket.roomId.Some? && webSocket.username.Some? {
        var _ := ServerRooms.RemoveRoomMember(cache, webSocket.roomId.value, webSocket.username.value);
      }
      out := out + [Terminate(webSocket.id)];
    }

    /**
     * The synchronous pass of `heartBeat`'s `forEach`: every live connection
     * has `isAlive` cleared and is pinged, in iteration order.
     */
    method PingPass()
      requires Valid()
      modifies this`clients, this`out
      ensures Valid()
      ensures clients == TickClients(old(clients))
      ensures out == old(out) + TickPings(old(clients))
    {
      ghost var cs := clients;
      var i := 0;
      while i < |clients|
        invariant 0 <= i <= |clients| == |cs|
        invariant forall j :: 0 <= j < i ==> clients[j] == cs[j].(isAlive := false)
        invariant forall j :: i <= j < |cs| ==> clients[j] == cs[j]
        invariant out == old(out) + TickPings(cs[..i])
      {
        TickPingsStep(cs, i);
        PingAt(i);
        i := i + 1;
      }
      assert cs[..i] == cs;
      RegisteredTick(cs, nextId);
    }

    /**
     * The suspended callbacks of the dead connections among `suspended`,
     * resumed one after another in iteration order.
     */
    method ReapPass(suspended: seq<Socket>)
      requires cache.Valid() && UniqueUuids(cache.rooms)
      modifies this`out, cache`rooms
      ensures cache.Valid() && UniqueUuids(cache.rooms)
      ensures out == old(out) + TickTerminates(suspended)
      ensures cache.rooms == Reaped(old(cache.rooms), suspended)
    {
      var i := 0;
      while i < |suspended|
        invariant 0 <= i <= |suspended|
        invariant out == old(out) + TickTerminates(suspended[..i])
        invariant cache.rooms == Reaped(old(cache.rooms), suspended[..i])
        invariant cache.Valid() && UniqueUuids(cache.rooms)
      {
        ReapStep(old(cache.rooms), suspended, i);
        if !suspended[i].isAlive {
          Reap(suspended[i]);
        }
        i := i + 1;
      }
      assert suspended[..i] == suspended;
    }

    /**
     * A heartbeat tick (`heartBeat`). The `forEach` first pings every live
     * connection and clears its `isAlive`; then each dead connection's
     * callback resumes, has its member removed from the store and terminates
     * the connection. Connections stay in `clients` until their close event.
     */
    method Tick()
      requires Valid()
      modifies this`clients, this`out, cache`rooms
      ensures Valid()
      ensures clients == TickClients(old(clients))
      ensures out == old(out) + TickEffects(old(clients))
      ensures cache.rooms == Reaped(old(cache.rooms), old(clients))
    {
      var suspended := clients;
      PingPass();
      ReapPass(suspended);
    }
  }
}
