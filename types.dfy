/** Shapes shared by the pages and utilities: the backend room snapshot
    (src/types/room.ts) and the front end's time slots and votes
    (src/types/vote.ts), plus the room-creation draft. */
module Types {

  datatype Option<+T> = None | Some(value: T)

  /** One backend vote record attached to a Time entry. */
  datatype RoomVote = RoomVote(voteId: string, createdAt: string, userName: string, timeId: string)

  /** One backend Time entry; `votes` is the source's `Vote` array. */
  datatype RoomTime = RoomTime(
    roomId: string,
    timeId: string,
    date: string,
    start: string,
    end: string,
    votes: seq<RoomVote>)

  /** The backend room snapshot (RoomAPIResponse); `times` is the source's `Time` array. */
  datatype Room = Room(
    roomId: string,
    title: Option<string>,
    description: Option<string>,
    emails: seq<string>,
    endingAt: string,
    createdAt: string,
    updatedAt: string,
    times: seq<RoomTime>)

  /** A vote as the front end holds it: a name, an optional email and the backend ids voted for. */
  datatype Vote = Vote(name: string, email: Option<string>, timeSlots: seq<string>)

  /** A slot as the voting page shows it. */
  datatype TimeSlot = TimeSlot(dateTime: string, duration: string, votes: seq<Vote>)

  /** One `{start, duration}` entry of the room-creation draft, both "HH:MM" strings. */
  datatype TimeRange = TimeRange(start: string, duration: string)

  /** One draft date: the calendar day (a day number) and its time ranges. */
  datatype DateSlot = DateSlot(date: int, times: seq<TimeRange>)
}
