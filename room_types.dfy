/**
 * The room record of the server (server/src/types/Room.ts) and the password
 * handling every read path applies to it.
 */
module RoomTypes {
  import opened Common

  /** The LeetCode question assigned to a room when it is created. */
  datatype QuestionMetadata = QuestionMetadata(questionID: string, questionTitle: string)

  /**
   * A stored room. `members` holds usernames: the server pushes usernames
   * although the type declares numbers. `owner` is the session username that
   * created the room. `password` is the argon2 hash once stored.
   */
  datatype Room = Room(
    name: string,
    size: int,
    uuid: string,
    owner: Option<string>,
    password: Option<string>,
    members: seq<string>,
    questionData: Option<QuestionMetadata>)

  /** `if (room.password)`: a password that is present and non-empty. */
  predicate HasPassword(room: Room)
  {
    Truthy(room.password)
  }

  /** The record after `delete room.password`: same record, password field gone. */
  function Stripped(room: Room): (r: Room)
    ensures r.password.None?
    ensures r.(password := room.password) == room
  {
    room.(password := None)
  }

  /**
   * Stripping an optional record (a lookup that may have found nothing): a
   * found record comes back without its password and is otherwise the same.
   */
  function StrippedOption(o: Option<Room>): (r: Option<Room>)
    ensures r.None? <==> o.None?
    ensures r.Some? ==> r.value.password.None? && r.value.(password := o.value.password) == o.value
  {
    match o
    case None => None
    case Some(room) => Some(Stripped(room))
  }
}
