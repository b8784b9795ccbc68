/** The home page's two forms (src/schemas/homeSchema.ts): the name that
    starts a new room, and the id of a room to join. */
module HomeSchema {

  import opened Text
  import RoomSchema

  /** `createRoomSchema.name`: the letters pattern, then `min(3)`. */
  function ValidCreateRoomName(name: string): (r: bool)
    ensures r <==> RoomSchema.ValidRoomName(name)
  {
    RoomSchema.LettersAndSpaces(name) && |name| >= 3
  }

  /** `joinRoomSchema.roomId`: the validation library's uuid test, taken as
      a parameter. */
  predicate ValidJoinRoom(roomId: string, isUuid: string -> bool) {
    isUuid(roomId)
  }

  /** The home form accepts exactly the names the room form accepts, so a
      name carried from the home page to the room form is never rejected there. */
  lemma SameNameRule(name: string)
    ensures ValidCreateRoomName(name) <==> RoomSchema.ValidRoomName(name)
  {
  }

  /** Rejections: a character outside letters and whitespace, or fewer than
      three characters (the empty name included). */
  lemma CreateRoomNameRejects(name: string)
    ensures (exists i :: 0 <= i < |name| && !IsAsciiLetter(name[i]) && !IsJsWhitespace(name[i])) ==> !ValidCreateRoomName(name)
    ensures |name| < 3 ==> !ValidCreateRoomName(name)
  {
  }
}
