/**
 * The earlier room endpoints of the backend (backend/src/components/rooms.ts):
 * a validator, the room listing with passwords removed, the lookup by uuid
 * and room creation. Rooms there have no members and no question; they live
 * as JSON strings in the Redis set "rooms", modelled as a duplicate-free
 * sequence of records in `sMembers` order. `crypto.randomUUID` and argon2
 * `hash` are parameters; the reply is returned instead of written.
 */
module BackendRooms {
  import opened Common
  import opened Errors
  import RoomTypes
  import ServerRooms

  /** The backend's room record (the `Room` interface of rooms.ts). */
  datatype LegacyRoom = LegacyRoom(
    name: string,
    size: int,
    uuid: string,
    owner: Option<string>,
    password: Option<string>)

  /** A 201 with the created room, or an error reply. */
  datatype Reply = Created(room: LegacyRoom) | Failed(err: ErrorReply)

  const MaxLength := 20
  const MaxRoomSize := 10
  const MinPasswordLength := 6

  /** `validateRoom`: the guards in the order the source tries them. */
  function ValidateRoom(room: LegacyRoom): (ok: bool)
    ensures ok <==>
      && 1 <= |room.name| <= 20
      && 1 <= room.size <= 10
      && (Truthy(room.password) ==> 6 <= |room.password.value| <= 20)
  {
    if room.name == "" || room.size <= 0 then false
    else if Truthy(room.password) && |room.password.value| < MinPasswordLength then false
    else if |room.name| > MaxLength then false
    else if Truthy(room.password) && |room.password.value| > MaxLength then false
    else if room.size > MaxRoomSize then false
    else true
  }

  /** The server record a backend record corresponds to, given its members and question. */
  function AsServerRoom(room: LegacyRoom, members: seq<string>, question: Option<RoomTypes.QuestionMetadata>): RoomTypes.Room
  {
    RoomTypes.Room(room.name, room.size, room.uuid, room.owner, room.password, members, question)
  }

  /** The backend validator and the server validator accept the same rooms. */
  lemma ValidatorsAgree(room: LegacyRoom, members: seq<string>, question: Option<RoomTypes.QuestionMetadata>)
    ensures ValidateRoom(room) == ServerRooms.ValidateInputtedRoom(AsServerRoom(room, members, question))
  {
  }

  /** The record after `delete parsedRoom.password`. */
  function Stripped(room: LegacyRoom): (r: LegacyRoom)
    ensures r.password.None?
    ensures r.(password := room.password) == room
  {
    room.(password := None)
  }

  /** The key of a stored record. */
  function LegacyUuid(room: LegacyRoom): string
  {
    room.uuid
  }

  /** The record `createRoom` stores: fresh uuid, session owner, a truthy password replaced by its hash. */
  function NewRecord(body: LegacyRoom, sessionUserId: Option<string>, uuid: string, hash: string -> string): (r: LegacyRoom)
    ensures r.name == body.name && r.size == body.size
    ensures r.uuid == uuid && r.owner == sessionUserId
    ensures Truthy(body.password) ==> r.password == Some(hash(body.password.value))
    ensures !Truthy(body.password) ==> r.password == body.password
  {
    var room := body.(owner := sessionUserId, uuid := uuid);
    if Truthy(room.password) then room.(password := Some(hash(room.password.value))) else room
  }

  /** The Redis set "rooms". */
  class RoomSet {
    var rooms: seq<LegacyRoom>

    ghost predicate Valid()
      reads this
    {
      NoDuplicates(rooms)
    }

    constructor ()
      ensures Valid() && rooms == []
    {
      rooms := [];
    }

    /** `sMembers`. */
    method Members() returns (rs: seq<LegacyRoom>)
      ensures rs == rooms
    {
      return rooms;
    }

    /** `sAdd`: 1 when the record was new, 0 when an equal record was already there. */
    method Add(room: LegacyRoom) returns (n: nat)
      requires Valid()
      modifies this`rooms
      ensures Valid()
      ensures rooms == SetAdd(old(rooms), room)
      ensures n == if room in old(rooms) then 0 else 1
    {
      if room in rooms {
        return 0;
      }
      SetAddShape(rooms, room);
      rooms := rooms + [room];
      return 1;
    }
  }

  /** `getRooms`: every room in store order, each without its password. */
  method GetRooms(store: RoomSet) returns (body: seq<LegacyRoom>)
    ensures |body| == |store.rooms|
    ensures forall i :: 0 <= i < |body| ==> body[i] == Stripped(store.rooms[i])
    ensures forall x :: x in body ==> x.password.None?
  {
    var rooms := store.Members();
    body := [];
    var i := 0;
    while i < |rooms|
      invariant 0 <= i <= |rooms|
      invariant |body| == i
      invariant forall j :: 0 <= j < i ==> body[j] == Stripped(rooms[j])
    {
      var parsedRoom := rooms[i];
      parsedRoom := parsedRoom.(password := None);
      body := body + [parsedRoom];
      i := i + 1;
    }
  }

  /** `getRoom`: the first stored record with the uuid, password included, or none. */
  method GetRoom(store: RoomSet, roomUuid: string) returns (r: Option<LegacyRoom>)
    ensures r.None? <==> forall x :: x in store.rooms ==> x.uuid != roomUuid
    ensures r.Some? ==> r.value == store.rooms[FirstIndex(store.rooms, LegacyUuid, roomUuid)]
  {
    var rooms := store.Members();
    var i := 0;
    while i < |rooms|
      invariant 0 <= i <= |rooms|
      invariant forall j :: 0 <= j < i ==> rooms[j].uuid != roomUuid
    {
      if rooms[i].uuid == roomUuid {
        assert FirstIndex(rooms, LegacyUuid, roomUuid) == i;
        return Some(rooms[i]);
      }
      i := i + 1;
    }
    return None;
  }

  /**
   * `createRoom`. An invalid body is refused before anything is written. A
   * valid one is stored under a fresh uuid, owned by the session user, with a
   * truthy password replaced by its hash; a refused insert answers 500, and
   * the created room goes back without its password.
   */
  method CreateRoom(store: RoomSet, body: LegacyRoom, sessionUserId: Option<string>,
                    uuid: string, hash: string -> string) returns (reply: Reply)
    requires store.Valid()
    modifies store`rooms
    ensures store.Valid()
    ensures !ValidateRoom(body) ==>
      reply == Failed(BadRequestError(Some("Invalid room data"))) && store.rooms == old(store.rooms)
    ensures ValidateRoom(body) ==>
      var stored := NewRecord(body, sessionUserId, uuid, hash);
      && store.rooms == SetAdd(old(store.rooms), stored)
      && reply == (if stored in old(store.rooms)
                   then Failed(InternalServerError(Some("Failed to create room")))
                   else Created(Stripped(stored)))
    ensures reply.Created? ==>
      reply.room.password.None? && reply.room.uuid == uuid && reply.room.owner == sessionUserId
  {
    var room := body;
    if !ValidateRoom(room) {
      return Failed(BadRequestError(Some("Invalid room data")));
    }
    room := room.(uuid := uuid);
    room := room.(owner := sessionUserId, uuid := uuid);
    if Truthy(room.password) {
      var hashedPassword := hash(room.password.value);
      room := room.(password := Some(hashedPassword));
    }
    var addToRedis := store.Add(room);
    if addToRedis == 0 {
      return Failed(InternalServerError(Some("Failed to create room")));
    }
    room := room.(password := None);
    return Created(room);
  }
}
