/**
 * The Redis-backed cache of rooms and OAuth state nonces
 * (backend/src/components/redis.ts, class `RedisCache`).
 *
 * The Redis set under the key "rooms" holds JSON-encoded room records; it is
 * modelled as a duplicate-free sequence of `Room` values in the order
 * `sMembers` returns them. The set under "state_cache" holds state nonces.
 * Two records are the same set member exactly when they are equal values.
 */
module RedisStore {
  import opened Common
  import opened RoomTypes

  // ---------------------------------------------------------------------------
  // The store as a value: what each operation does to the sequence of records.
  // ---------------------------------------------------------------------------

  /** The key of a stored record. */
  function RoomUuid(room: Room): string
  {
    room.uuid
  }

  /** The first stored record with that uuid, if any (the `for ... of` search). */
  function FindRoom(rooms: seq<Room>, uuid: string): (r: Option<Room>)
    ensures r.None? <==> forall x :: x in rooms ==> x.uuid != uuid
    ensures r.Some? ==> r.value in rooms && r.value.uuid == uuid
  {
    var k := FirstIndex(rooms, RoomUuid, uuid);
    if k < |rooms| then Some(rooms[k]) else None
  }

  /** `removeRoomByUuid`: `sRem` of the first record carrying the uuid. */
  function RemovedByUuid(rooms: seq<Room>, uuid: string): seq<Room>
  {
    match FindRoom(rooms, uuid)
    case None => rooms
    case Some(room) => RemoveAll(rooms, room)
  }

  /** `updateRoom`: remove the record with the same uuid, then add the new one. */
  function Updated(rooms: seq<Room>, room: Room): seq<Room>
  {
    SetAdd(RemovedByUuid(rooms, room.uuid), room)
  }

  /** `addRoomMember`: the found record with `userId` pushed, written back. */
  function MemberAdded(rooms: seq<Room>, uuid: string, userId: string): seq<Room>
  {
    match FindRoom(rooms, uuid)
    case None => rooms
    case Some(room) => Updated(rooms, room.(members := room.members + [userId]))
  }

  /** `removeRoomMember`: the found record with every `userId` filtered out, written back. */
  function MemberDropped(rooms: seq<Room>, uuid: string, userId: string): seq<Room>
  {
    match FindRoom(rooms, uuid)
    case None => rooms
    case Some(room) => Updated(rooms, room.(members := RemoveAll(room.members, userId)))
  }

  /**
   * No two stored records share a uuid. The store does not enforce this
   * (`addRoom` takes any record). Room creation with a fresh uuid and every
   * write through `updateRoom`, `addRoomMember` and `removeRoomMember`
   * preserve it when the writes run one after another.
   */
  ghost predicate UniqueUuids(rooms: seq<Room>)
  {
    && NoDuplicates(rooms)
    && forall a, b :: a in rooms && b in rooms && a.uuid == b.uuid ==> a == b
  }

  // ---------------------------------------------------------------------------
  // Properties of the operations.
  // ---------------------------------------------------------------------------

  /** With unique uuids, the search finds the one record that carries the uuid. */
  lemma FindUnique(rooms: seq<Room>, x: Room)
    requires UniqueUuids(rooms) && x in rooms
    ensures FindRoom(rooms, x.uuid) == Some(x)
  {
  }

  /**
   * Removing by uuid takes out exactly the first matching record and leaves
   * every other record where it was.
   */
  lemma {:induction false} RemovedByUuidShape(rooms: seq<Room>, uuid: string)
    requires NoDuplicates(rooms)
    ensures FindRoom(rooms, uuid).None? ==> RemovedByUuid(rooms, uuid) == rooms
    ensures FindRoom(rooms, uuid).Some? ==>
      var k := FirstIndex(rooms, RoomUuid, uuid);
      RemovedByUuid(rooms, uuid) == rooms[..k] + rooms[k + 1..]
    ensures NoDuplicates(RemovedByUuid(rooms, uuid))
  {
    match FindRoom(rooms, uuid)
    case None =>
    case Some(x) =>
      var k := FirstIndex(rooms, RoomUuid, uuid);
      assert x == rooms[k];
      OccursOnlyAt(rooms, k);
      RemoveAllAt(rooms, k);
      RemoveAllNoDuplicates(rooms, x);
  }

  /** Removing by uuid from a store with unique uuids leaves no record with that uuid. */
  lemma RemovedByUuidGone(rooms: seq<Room>, uuid: string)
    requires UniqueUuids(rooms)
    ensures UniqueUuids(RemovedByUuid(rooms, uuid))
    ensures forall x :: x in RemovedByUuid(rooms, uuid) <==> x in rooms && x.uuid != uuid
  {
    RemovedByUuidShape(rooms, uuid);
  }

  /**
   * After `updateRoom(room)` on a store with unique uuids: the store still has
   * unique uuids, the old record for `room.uuid` is gone, the lookup yields
   * `room`, and the lookup of every other uuid is unchanged.
   */
  lemma UpdatedSpec(rooms: seq<Room>, room: Room)
    requires UniqueUuids(rooms)
    ensures UniqueUuids(Updated(rooms, room))
    ensures room !in RemovedByUuid(rooms, room.uuid)
    ensures Updated(rooms, room) == RemovedByUuid(rooms, room.uuid) + [room]
    ensures forall x :: x in Updated(rooms, room) && x.uuid == room.uuid ==> x == room
    ensures FindRoom(Updated(rooms, room), room.uuid) == Some(room)
    ensures forall u :: u != room.uuid ==> FindRoom(Updated(rooms, room), u) == FindRoom(rooms, u)
  {
    var removed := RemovedByUuid(rooms, room.uuid);
    RemovedByUuidGone(rooms, room.uuid);
    SetAddShape(removed, room);
    var r := Updated(rooms, room);
    assert UniqueUuids(r);
    FindUnique(r, room);
    forall u | u != room.uuid ensures FindRoom(r, u) == FindRoom(rooms, u) {
      match FindRoom(rooms, u)
      case None =>
      case Some(x) =>
        FindUnique(r, x);
    }
  }

  /**
   * `addRoomMember` on a store with unique uuids appends the user to the end
   * of the found room's members, keeps the rest of that record, and keeps
   * every other room; on an unknown uuid it changes nothing.
   */
  lemma MemberAddedSpec(rooms: seq<Room>, uuid: string, userId: string)
    requires UniqueUuids(rooms)
    ensures UniqueUuids(MemberAdded(rooms, uuid, userId))
    ensures FindRoom(rooms, uuid).None? ==> MemberAdded(rooms, uuid, userId) == rooms
    ensures FindRoom(rooms, uuid).Some? ==>
      var old_ := FindRoom(rooms, uuid).value;
      FindRoom(MemberAdded(rooms, uuid, userId), uuid) == Some(old_.(members := old_.members + [userId]))
    ensures forall u :: u != uuid ==> FindRoom(MemberAdded(rooms, uuid, userId), u) == FindRoom(rooms, u)
  {
    match FindRoom(rooms, uuid)
    case None =>
    case Some(x) =>
      UpdatedSpec(rooms, x.(members := x.members + [userId]));
  }

  /**
   * `removeRoomMember` on a store with unique uuids filters every occurrence
   * of the user out of the found room's members, keeping the room even when
   * no member is left; on an unknown uuid it changes nothing.
   */
  lemma MemberDroppedSpec(rooms: seq<Room>, uuid: string, userId: string)
    requires UniqueUuids(rooms)
    ensures UniqueUuids(MemberDropped(rooms, uuid, userId))
    ensures FindRoom(rooms, uuid).None? ==> MemberDropped(rooms, uuid, userId) == rooms
    ensures FindRoom(rooms, uuid).Some? ==>
      var old_ := FindRoom(rooms, uuid).value;
      FindRoom(MemberDropped(rooms, uuid, userId), uuid) == Some(old_.(members := RemoveAll(old_.members, userId)))
    ensures forall u :: u != uuid ==> FindRoom(MemberDropped(rooms, uuid, userId), u) == FindRoom(rooms, u)
  {
    match FindRoom(rooms, uuid)
    case None =>
    case Some(x) =>
      UpdatedSpec(rooms, x.(members := RemoveAll(x.members, userId)));
  }

  // ---------------------------------------------------------------------------
  // The cache object.
  // ---------------------------------------------------------------------------

  class RedisCache {
    /** The "state_cache" set of OAuth state nonces. */
    var states: set<string>
    /** The "rooms" set, in `sMembers` order. */
    var rooms: seq<Room>

    /** A Redis set holds each member once. */
    ghost predicate Valid()
      reads this
    {
      NoDuplicates(rooms)
    }

    constructor ()
      ensures Valid() && states == {} && rooms == []
    {
      states := {};
      rooms := [];
    }

    /** `sAdd` on the nonce set: 1 when the nonce was new, 0 when it was already there. */
    method AddState(state: string) returns (n: nat)
      modifies this`states
      ensures states == old(states) + {state}
      ensures n == if state in old(states) then 0 else 1
    {
      n := if state in states then 0 else 1;
      states := states + {state};
    }

    /** `sIsMember` on the nonce set. */
    method HasState(state: string) returns (b: bool)
      ensures b <==> state in states
    {
      b := state in states;
    }

    /** `sRem` on the nonce set: 1 when the nonce was there, 0 otherwise. */
    method RemoveState(state: string) returns (n: nat)
      modifies this`states
      ensures states == old(states) - {state}
      ensures n == if state in old(states) then 1 else 0
    {
      n := if state in states then 1 else 0;
      states := states - {state};
    }

    /** `sMembers` followed by `JSON.parse` of every member. */
    method GetRooms() returns (rs: seq<Room>)
      ensures rs == rooms
    {
      rs := rooms;
    }

    /** `sAdd` of the encoded record: 1 when it was new, 0 when an identical record is stored. */
    method AddRoom(room: Room) returns (n: nat)
      requires Valid()
      modifies this`rooms
      ensures Valid()
      ensures rooms == SetAdd(old(rooms), room)
      ensures n == if room in old(rooms) then 0 else 1
    {
      SetAddShape(rooms, room);
      n := if room in rooms then 0 else 1;
      rooms := SetAdd(rooms, room);
    }

    /** The first stored record with the uuid, or `None`. */
    method GetRoomByUuid(uuid: string) returns (r: Option<Room>)
      ensures r == FindRoom(rooms, uuid)
    {
      var all := GetRooms();
      var i := 0;
      while i < |all|
        invariant 0 <= i <= |all|
        invariant forall j :: 0 <= j < i ==> all[j].uuid != uuid
      {
        if all[i].uuid == uuid {
          return Some(all[i]);
        }
        i := i + 1;
      }
      return None;
    }

    /** Removes the first record with the uuid; 1 when one was removed, 0 when none matched. */
    method RemoveRoomByUuid(uuid: string) returns (n: nat)
      requires Valid()
      modifies this`rooms
      ensures Valid()
      ensures rooms == RemovedByUuid(old(rooms), uuid)
      ensures n == if FindRoom(old(rooms), uuid).Some? then 1 else 0
      ensures UniqueUuids(old(rooms)) ==> UniqueUuids(rooms)
    {
      RemovedByUuidShape(rooms, uuid);
      if UniqueUuids(rooms) {
        RemovedByUuidGone(rooms, uuid);
      }
      var room := GetRoomByUuid(uuid);
      if room.Some? {
        rooms := RemoveAll(rooms, room.value);
        return 1;
      }
      return 0;
    }

    /** Remove-by-uuid, then add; returns what the add returns. */
    method UpdateRoom(room: Room) returns (n: nat)
      requires Valid()
      modifies this`rooms
      ensures Valid()
      ensures rooms == Updated(old(rooms), room)
      ensures n == if room in RemovedByUuid(old(rooms), room.uuid) then 0 else 1
      ensures UniqueUuids(old(rooms)) ==> UniqueUuids(rooms)
    {
      if UniqueUuids(rooms) {
        UpdatedSpec(rooms, room);
      }
      var _ := RemoveRoomByUuid(room.uuid);
      n := AddRoom(room);
    }

    /** Pushes `userId` onto the found room's members and writes the record back; 0 when absent. */
    method AddRoomMember(roomUuid: string, userId: string) returns (n: nat)
      requires Valid()
      modifies this`rooms
      ensures Valid()
      ensures rooms == MemberAdded(old(rooms), roomUuid, userId)
      ensures FindRoom(old(rooms), roomUuid).None? ==> n == 0
      ensures UniqueUuids(old(rooms)) ==> n == if FindRoom(old(rooms), roomUuid).Some? then 1 else 0
      ensures UniqueUuids(old(rooms)) ==> UniqueUuids(rooms)
    {
      var room := GetRoomByUuid(roomUuid);
      if room.Some? {
        var r := room.value.(members := room.value.members + [userId]);
        if UniqueUuids(rooms) {
          UpdatedSpec(rooms, r);
        }
        n := UpdateRoom(r);
        return;
      }
      return 0;
    }

    /** Filters `userId` out of the found room's members and writes the record back; 0 when absent. */
    method RemoveRoomMember(roomUuid: string, userId: string) returns (n: nat)
      requires Valid()
      modifies this`rooms
      ensures Valid()
      ensures rooms == MemberDropped(old(rooms), roomUuid, userId)
      ensures FindRoom(old(rooms), roomUuid).None? ==> n == 0
      ensures UniqueUuids(old(rooms)) ==> n == if FindRoom(old(rooms), roomUuid).Some? then 1 else 0
      ensures UniqueUuids(old(rooms)) ==> UniqueUuids(rooms)
    {
      var room := GetRoomByUuid(roomUuid);
      if room.Some? {
        var r := room.value.(members := RemoveAll(room.value.members, userId));
        if UniqueUuids(rooms) {
          UpdatedSpec(rooms, r);
        }
        n := UpdateRoom(r);
        return;
      }
      return 0;
    }
  }
}
