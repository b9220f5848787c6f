/**
 * Room admission and membership on the server
 * (server/src/middlewares/rooms.ts): the room validator, the read paths that
 * strip passwords, room creation, the member-list updates and the admission
 * check run when a connection is opened.
 *
 * The store is the `RedisCache` object of module RedisStore. argon2 `hash`
 * and `verify`, `crypto.randomUUID` and the LeetCode question fetch are
 * parameters.
 */
module ServerRooms {
  import opened Common
  import opened RoomTypes
  import opened Sockets
  import opened Errors
  import opened RedisStore

  // ---------------------------------------------------------------------------
  // validateInputtedRoom
  // ---------------------------------------------------------------------------

  const MaxLength := 20
  const MaxRoomSize := 10
  const MinPasswordLength := 6

  /**
   * The guard chain of `validateInputtedRoom`, in the source's order. A room
   * passes exactly when its name is non-empty and at most 20 characters, its
   * size is between 1 and 10, and a non-empty password has 6 to 20 characters.
   */
  function ValidateInputtedRoom(room: Room): (ok: bool)
    ensures ok <==>
      && 1 <= |room.name| <= 20
      && 1 <= room.size <= 10
      && (HasPassword(room) ==> 6 <= |room.password.value| <= 20)
  {
    if room.name == "" || room.size <= 0 then false
    else if HasPassword(room) && |room.password.value| < MinPasswordLength then false
    else if |room.name| > MaxLength then false
    else if HasPassword(room) && |room.password.value| > MaxLength then false
    else if room.size > MaxRoomSize then false
    else true
  }

  // ---------------------------------------------------------------------------
  // Read paths: getRooms and getRoomByUuid never hand out a password.
  // ---------------------------------------------------------------------------

  /** `getRooms`: every stored room, in store order, with its password deleted. */
  method GetRooms(cache: RedisCache) returns (body: seq<Room>)
    ensures |body| == |cache.rooms|
    ensures forall i :: 0 <= i < |body| ==> body[i] == Stripped(cache.rooms[i])
    ensures forall x :: x in body ==> x.password.None?
  {
    var rooms := cache.GetRooms();
    body := [];
    var i := 0;
    while i < |rooms|
      invariant 0 <= i <= |rooms|
      invariant |body| == i
      invariant forall j :: 0 <= j < i ==> body[j] == Stripped(rooms[j])
    {
      body := body + [Stripped(rooms[i])];
      i := i + 1;
    }
  }

  /** `getRoomByUuid`: the first stored room with that uuid, password deleted, or `None`. */
  method GetRoomByUuid(cache: RedisCache, uuid: string) returns (r: Option<Room>)
    ensures r == StrippedOption(FindRoom(cache.rooms, uuid))
    ensures r.Some? ==> r.value.uuid == uuid && r.value.password.None?
    ensures r.None? <==> forall x :: x in cache.rooms ==> x.uuid != uuid
  {
    var room := cache.GetRoomByUuid(uuid);
    if room.None? {
      return None;
    }
    return Some(Stripped(room.value));
  }

  // ---------------------------------------------------------------------------
  // createRoom
  // ---------------------------------------------------------------------------

  /** The outcome of the LeetCode question fetch that `createRoom` awaits. */
  datatype QuestionOutcome = Fetched(meta: QuestionMetadata) | FetchFailed(message: string)

  /** The HTTP reply of `createRoom`: 201 with the room, or an error reply. */
  datatype Reply = Created(room: Room) | Failed(err: ErrorReply)

  /** The record `createRoom` builds from the request body before the question is attached. */
  function NewRecord(body: Room, owner: string, uuid: string, hash: string -> string): (r: Room)
    ensures r.name == body.name && r.size == body.size && r.questionData == body.questionData
    ensures r.uuid == uuid && r.owner == Some(owner) && r.members == []
    ensures HasPassword(body) ==> r.password == Some(hash(body.password.value))
    ensures !HasPassword(body) ==> r.password == body.password
  {
    var room := body.(owner := Some(owner), uuid := uuid, members := []);
    if HasPassword(room) then room.(password := Some(hash(room.password.value))) else room
  }

  /**
   * `createRoom`. An invalid body is refused with 400 before anything is
   * stored; a failed question fetch is refused with 400 and nothing is stored;
   * otherwise the record gets the fresh uuid, the session username as owner,
   * no members, the hash of a supplied password and the question, and is
   * added to the store. A refused insert answers 500; a stored room is
   * answered with 201 and without its password.
   */
  method CreateRoom(cache: RedisCache, body: Room, sessionUser: string, uuid: string,
                    hash: string -> string, question: QuestionOutcome) returns (reply: Reply)
    requires cache.Valid()
    requires forall x :: x in cache.rooms ==> x.uuid != uuid
    modifies cache`rooms
    ensures cache.Valid()
    ensures UniqueUuids(old(cache.rooms)) ==> UniqueUuids(cache.rooms)
    ensures !ValidateInputtedRoom(body) ==>
      reply == Failed(BadRequestError(Some("Invalid room data"))) && cache.rooms == old(cache.rooms)
    ensures ValidateInputtedRoom(body) && question.FetchFailed? && question.message != "" ==>
      reply == Failed(BadRequestError(Some(question.message))) && cache.rooms == old(cache.rooms)
    ensures ValidateInputtedRoom(body) && !(question.FetchFailed? && question.message != "") ==>
      var stored := NewRecord(body, sessionUser, uuid, hash).(questionData :=
        if question.Fetched? then Some(question.meta) else None);
      && stored.members == [] && stored.owner == Some(sessionUser) && stored.uuid == uuid
      && (HasPassword(body) ==> stored.password == Some(hash(body.password.value)))
      && cache.rooms == SetAdd(old(cache.rooms), stored)
      && reply == (if stored in old(cache.rooms)
                   then Failed(InternalServerError(Some("Failed to create room")))
                   else Created(Stripped(stored)))
    ensures reply.Created? ==> reply.room.password.None?
  {
    if !ValidateInputtedRoom(body) {
      return Failed(BadRequestError(Some("Invalid room data")));
    }
    var room := NewRecord(body, sessionUser, uuid, hash);
    if question.FetchFailed? && question.message != "" {
      return Failed(BadRequestError(Some(question.message)));
    }
    room := room.(questionData := if question.Fetched? then Some(question.meta) else None);
    SetAddShape(cache.rooms, room);
    var added := cache.AddRoom(room);
    if added == 0 {
      return Failed(InternalServerError(Some("Failed to create room")));
    }
    return Created(Stripped(room));
  }

  // ---------------------------------------------------------------------------
  // addRoomMember / removeRoomMember
  // ---------------------------------------------------------------------------

  /**
   * The store after the server's `removeRoomMember`: a room with exactly one
   * member is deleted whoever is being removed; otherwise every occurrence of
   * the username is filtered out and the room is written back.
   */
  function MemberRemoved(rooms: seq<Room>, uuid: string, username: string): seq<Room>
  {
    match FindRoom(rooms, uuid)
    case None => rooms
    case Some(room) =>
      if |room.members| == 1 then RemovedByUuid(rooms, uuid)
      else Updated(rooms, room.(members := RemoveAll(room.members, username)))
  }

  /** `addRoomMember`: pushes the username (duplicates allowed) and writes the room back; 0 when absent. */
  method AddRoomMember(cache: RedisCache, roomUuid: string, username: string) returns (n: nat)
    requires cache.Valid()
    modifies cache`rooms
    ensures cache.Valid()
    ensures cache.rooms == MemberAdded(old(cache.rooms), roomUuid, username)
    ensures FindRoom(old(cache.rooms), roomUuid).None? ==> n == 0
    ensures UniqueUuids(old(cache.rooms)) ==> UniqueUuids(cache.rooms)
  {
    var room := cache.GetRoomByUuid(roomUuid);
    if room.None? {
      return 0;
    }
    var r := room.value.(members := room.value.members + [username]);
    n := cache.UpdateRoom(r);
  }

  /** `removeRoomMember`: see `MemberRemoved`; 0 when the room is absent. */
  method RemoveRoomMember(cache: RedisCache, roomUuid: string, username: string) returns (n: nat)
    requires cache.Valid()
    modifies cache`rooms
    ensures cache.Valid()
    ensures cache.rooms == MemberRemoved(old(cache.rooms), roomUuid, username)
    ensures FindRoom(old(cache.rooms), roomUuid).None? ==> n == 0
    ensures UniqueUuids(old(cache.rooms)) ==> UniqueUuids(cache.rooms)
  {
    var room := cache.GetRoomByUuid(roomUuid);
    if room.None? {
      return 0;
    }
    if |room.value.members| == 1 {
      n := cache.RemoveRoomByUuid(roomUuid);
      return;
    }
    var r := room.value.(members := RemoveAll(room.value.members, username));
    n := cache.UpdateRoom(r);
  }

  /**
   * With unique uuids: an unknown room is left alone; a room with exactly one
   * member disappears, whichever username was passed; any other room keeps
   * its record with every occurrence of the username filtered out, the
   * remaining members in their order. Other rooms are unchanged.
   */
  lemma MemberRemovedSpec(rooms: seq<Room>, uuid: string, username: string)
    requires UniqueUuids(rooms)
    ensures UniqueUuids(MemberRemoved(rooms, uuid, username))
    ensures FindRoom(rooms, uuid).None? ==> MemberRemoved(rooms, uuid, username) == rooms
    ensures FindRoom(rooms, uuid).Some? && |FindRoom(rooms, uuid).value.members| == 1 ==>
      FindRoom(MemberRemoved(rooms, uuid, username), uuid).None?
    ensures FindRoom(rooms, uuid).Some? && |FindRoom(rooms, uuid).value.members| != 1 ==>
      var old_ := FindRoom(rooms, uuid).value;
      FindRoom(MemberRemoved(rooms, uuid, username), uuid) == Some(old_.(members := RemoveAll(old_.members, username)))
    ensures forall u :: u != uuid ==> FindRoom(MemberRemoved(rooms, uuid, username), u) == FindRoom(rooms, u)
  {
    match FindRoom(rooms, uuid)
    case None =>
    case Some(x) =>
      if |x.members| == 1 {
        RemovedByUuidGone(rooms, uuid);
        var after := RemovedByUuid(rooms, uuid);
        forall u | u != uuid ensures FindRoom(after, u) == FindRoom(rooms, u) {
          match FindRoom(rooms, u)
          case None =>
          case Some(y) =>
            FindUnique(after, y);
        }
      } else {
        UpdatedSpec(rooms, x.(members := RemoveAll(x.members, username)));
      }
  }

  /**
   * As written, the reaper and the close handler both remove a dead
   * connection's user. For a room holding two users, removing the same user
   * twice deletes the room although the other user is still in it.
   */
  lemma DoubleRemovalDeletesOccupiedRoom(rooms: seq<Room>, room: Room, a: string, b: string)
    requires UniqueUuids(rooms) && room in rooms && room.members == [a, b] && a != b
    ensures var once := MemberRemoved(rooms, room.uuid, a);
      && FindRoom(once, room.uuid) == Some(room.(members := [b]))
      && FindRoom(MemberRemoved(once, room.uuid, a), room.uuid).None?
  {
    FindUnique(rooms, room);
    MemberRemovedSpec(rooms, room.uuid, a);
    assert RemoveAll([a, b], a) == [b] by {
      assert [a, b][1..] == [b];
      assert [b][1..] == [];
    }
    var once := MemberRemoved(rooms, room.uuid, a);
    MemberRemovedSpec(once, room.uuid, a);
  }

  /**
   * As written, `push` lets one user be a member twice. Removing that user
   * then empties the list at once, and a room with no members is never
   * deleted by later removals.
   */
  lemma DuplicateMemberLeavesEmptyRoom(rooms: seq<Room>, room: Room, a: string)
    requires UniqueUuids(rooms) && room in rooms && room.members == [a, a]
    ensures var once := MemberRemoved(rooms, room.uuid, a);
      && FindRoom(once, room.uuid) == Some(room.(members := []))
      && FindRoom(MemberRemoved(once, room.uuid, a), room.uuid) == Some(room.(members := []))
  {
    FindUnique(rooms, room);
    MemberRemovedSpec(rooms, room.uuid, a);
    assert RemoveAll([a, a], a) == [] by {
      assert [a, a][1..] == [a];
      assert [a][1..] == [];
    }
    var once := MemberRemoved(rooms, room.uuid, a);
    MemberRemovedSpec(once, room.uuid, a);
  }

  // ---------------------------------------------------------------------------
  // The room uuid in the connection URL: `req.url?.split("/")[1]`.
  // ---------------------------------------------------------------------------

  /** `String.prototype.split` with a one-character separator. */
  function Split(s: string, sep: char): (parts: seq<string>)
    ensures |parts| >= 1
    ensures forall p :: p in parts ==> sep !in p
    decreases |s|
  {
    if s == [] then [""]
    else
      var rest := Split(s[1..], sep);
      if s[0] == sep then [""] + rest
      else [[s[0]] + rest[0]] + rest[1..]
  }

  /** `Array.prototype.join` with a one-character separator. */
  function Join(parts: seq<string>, sep: char): string
    requires |parts| >= 1
    decreases |parts|
  {
    if |parts| == 1 then parts[0] else parts[0] + [sep] + Join(parts[1..], sep)
  }

  /** Splitting loses nothing: joining the parts gives the string back. */
  lemma {:induction false} SplitJoin(s: string, sep: char)
    ensures Join(Split(s, sep), sep) == s
    decreases |s|
  {
    if s != [] {
      var rest := Split(s[1..], sep);
      SplitJoin(s[1..], sep);
      if s[0] == sep {
        assert ([""] + rest)[1..] == rest;
      } else {
        var parts := [[s[0]] + rest[0]] + rest[1..];
        if |rest| == 1 {
          assert parts == [[s[0]] + rest[0]];
        } else {
          assert parts[1..] == rest[1..];
          assert Join(rest, sep) == rest[0] + [sep] + Join(rest[1..], sep);
        }
      }
    }
  }

  /** A string without the separator is one part. */
  lemma {:induction false} SplitNoSeparator(s: string, sep: char)
    requires sep !in s
    ensures Split(s, sep) == [s]
    decreases |s|
  {
    if s != [] {
      SplitNoSeparator(s[1..], sep);
      assert [s[0]] + s[1..] == s;
    }
  }

  /** Splitting `a + sep + b` where `a` has no separator starts with `a`, then the parts of `b`. */
  lemma {:induction false} SplitAtSeparator(a: string, b: string, sep: char)
    requires sep !in a
    ensures Split(a + [sep] + b, sep) == [a] + Split(b, sep)
    decreases |a|
  {
    if a == [] {
      assert a + [sep] + b == [sep] + b;
      assert ([sep] + b)[1..] == b;
    } else {
      var s := a + [sep] + b;
      assert s[1..] == a[1..] + [sep] + b;
      SplitAtSeparator(a[1..], b, sep);
      assert [a[0]] + a[1..] == a;
    }
  }

  /** The second `/`-separated segment of the URL, if it has one. */
  function UrlRoomUuid(url: Option<string>): Option<string>
  {
    match url
    case None => None
    case Some(u) =>
      var parts := Split(u, '/');
      if |parts| >= 2 then Some(parts[1]) else None
  }

  /** For `/<uuid>` and `/<uuid>/<rest>` the uuid is the first path segment; a URL without `/` has none. */
  lemma UrlRoomUuidOfPath(uuid: string, rest: string, plain: string)
    requires '/' !in uuid && '/' !in plain
    ensures UrlRoomUuid(Some("/" + uuid)) == Some(uuid)
    ensures UrlRoomUuid(Some("/" + uuid + "/" + rest)) == Some(uuid)
    ensures UrlRoomUuid(Some(plain)) == None
  {
    SplitAtSeparator("", uuid, '/');
    assert "" + ['/'] + uuid == "/" + uuid;
    SplitNoSeparator(uuid, '/');
    SplitAtSeparator("", uuid + "/" + rest, '/');
    assert "" + ['/'] + (uuid + "/" + rest) == "/" + uuid + "/" + rest;
    SplitAtSeparator(uuid, rest, '/');
    assert uuid + ['/'] + rest == uuid + "/" + rest;
    SplitNoSeparator(plain, '/');
  }

  // ---------------------------------------------------------------------------
  // verifyUserCanJoinRoom
  // ---------------------------------------------------------------------------

  const AlreadyInRoom := "You are already in a room"
  const UuidRequired := "Room uuid is required"
  const RoomMissing := "Room does not exist"
  const PasswordRequired := "Password is required to join this room"
  const IncorrectPassword := "Incorrect password"
  const RoomFull := "Room is full"

  /**
   * `req.headers["password"]`, typed `string | string[]`: absent, a string,
   * or an array. Node joins a repeated custom header into one string with
   * ", ", so a repeated `password` header arrives as `Single`; `Repeated` is
   * the array case the type allows.
   */
  datatype Header = Absent | Single(value: string) | Repeated(values: seq<string>)

  /** `hashedPassword && typeof hashedPassword === "string"`. */
  predicate PasswordSupplied(h: Header)
  {
    h.Single? && h.value != ""
  }

  /** The password step: rooms without a password skip it. */
  predicate PasswordAccepted(room: Room, header: Header, verify: (string, string) -> bool)
  {
    HasPassword(room) ==> PasswordSupplied(header) && verify(room.password.value, header.value)
  }

  /**
   * The error `verifyUserCanJoinRoom` sends, or `None` when the connection may
   * join. The first failing check decides, in this order: already bound to a
   * room, no uuid in the URL, no such room, password, capacity.
   */
  function AdmissionFailure(boundRoom: Option<string>, url: Option<string>, header: Header,
                            rooms: seq<Room>, verify: (string, string) -> bool): (reason: Option<string>)
    ensures Truthy(boundRoom) ==> reason == Some(AlreadyInRoom)
    ensures !Truthy(boundRoom) && !Truthy(UrlRoomUuid(url)) ==> reason == Some(UuidRequired)
    ensures !Truthy(boundRoom) && Truthy(UrlRoomUuid(url)) ==>
      var found := FindRoom(rooms, UrlRoomUuid(url).value);
      && (found.None? ==> reason == Some(RoomMissing))
      && (found.Some? && HasPassword(found.value) && !PasswordSupplied(header) ==> reason == Some(PasswordRequired))
      && ((found.Some? && HasPassword(found.value) && PasswordSupplied(header) &&
           !verify(found.value.password.value, header.value)) ==> reason == Some(IncorrectPassword))
      && (found.Some? && PasswordAccepted(found.value, header, verify) ==>
          reason == if |found.value.members| >= found.value.size then Some(RoomFull) else None)
    ensures reason.None? <==>
      && !Truthy(boundRoom)
      && Truthy(UrlRoomUuid(url))
      && FindRoom(rooms, UrlRoomUuid(url).value).Some?
      && PasswordAccepted(FindRoom(rooms, UrlRoomUuid(url).value).value, header, verify)
      && |FindRoom(rooms, UrlRoomUuid(url).value).value.members| < FindRoom(rooms, UrlRoomUuid(url).value).value.size
  {
    var uuid := UrlRoomUuid(url);
    if Truthy(boundRoom) then Some(AlreadyInRoom)
    else if !Truthy(uuid) then Some(UuidRequired)
    else
      match FindRoom(rooms, uuid.value)
      case None => Some(RoomMissing)
      case Some(room) =>
        if HasPassword(room) && !PasswordSupplied(header) then Some(PasswordRequired)
        else if HasPassword(room) && !verify(room.password.value, header.value) then Some(IncorrectPassword)
        else if |room.members| >= room.size then Some(RoomFull)
        else None
  }

  /** What a refused connection receives: one error frame, then `close`. */
  function Rejection(ws: Socket, reason: string): seq<Effect>
  {
    [SendError(ws, reason), Close(ws.id)]
  }

  /**
   * `verifyUserCanJoinRoom`. Admission succeeds exactly when no check fails,
   * and then nothing is sent; a refusal sends exactly the first failing
   * check's error and closes the connection. A successful admission implies
   * the room exists, is not full, and a password room got an accepted password.
   */
  method VerifyUserCanJoinRoom(cache: RedisCache, ws: Socket, url: Option<string>, header: Header,
                               verify: (string, string) -> bool) returns (ok: bool, effects: seq<Effect>)
    ensures ok <==> AdmissionFailure(ws.roomId, url, header, cache.rooms, verify).None?
    ensures ok ==> effects == []
    ensures !ok ==> effects == Rejection(ws, AdmissionFailure(ws.roomId, url, header, cache.rooms, verify).value)
    ensures ok ==>
      && Truthy(UrlRoomUuid(url))
      && var room := FindRoom(cache.rooms, UrlRoomUuid(url).value);
      && room.Some?
      && |room.value.members| < room.value.size
      && (HasPassword(room.value) ==> PasswordSupplied(header) && verify(room.value.password.value, header.value))
  {
    var roomUuid := UrlRoomUuid(url);
    if Truthy(ws.roomId) {
      return false, Rejection(ws, AlreadyInRoom);
    }
    if !Truthy(roomUuid) {
      return false, Rejection(ws, UuidRequired);
    }
    var room := cache.GetRoomByUuid(roomUuid.value);
    if room.None? {
      return false, Rejection(ws, RoomMissing);
    }
    if HasPassword(room.value) {
      if !PasswordSupplied(header) {
        return false, Rejection(ws, PasswordRequired);
      }
      var isCorrectPassword := verify(room.value.password.value, header.value);
      if !isCorrectPassword {
        return false, Rejection(ws, IncorrectPassword);
      }
    }
    if |room.value.members| >= room.value.size {
      return false, Rejection(ws, RoomFull);
    }
    return true, [];
  }
}
