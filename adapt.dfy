/** The room snapshot as the voting page shows it (src/utils/adaptTimeSlots.ts).
    The zone projection `toZonedTime(parseISO(start), 'America/Sao_Paulo').toISOString()`
    is the parameter `zonedIso`; the duration label is cut from the raw strings. */
module Adapt {

  import opened Types
  import opened Text

  /** `${start.substring(11, 16)} - ${end.substring(11, 16)}`. */
  function DurationLabel(start: string, end: string): (r: string)
    ensures |start| >= 16 && |end| >= 16 ==> r == start[11..16] + " - " + end[11..16]
    ensures |start| <= 11 && |end| <= 11 ==> r == " - "
  {
    JsSubstring(start, 11, 16) + " - " + JsSubstring(end, 11, 16)
  }

  /** One backend vote record as a front-end vote: its user name, no email,
      and the single id of the Time it belongs to. */
  function AdaptVote(timeId: string, v: RoomVote): (r: Vote)
    ensures r.name == v.userName && r.email.None? && r.timeSlots == [timeId]
  {
    Vote(v.userName, None, [timeId])
  }

  function AdaptVotes(timeId: string, vs: seq<RoomVote>): (r: seq<Vote>)
    ensures |r| == |vs|
    ensures forall j :: 0 <= j < |vs| ==> r[j] == AdaptVote(timeId, vs[j])
  {
    seq(|vs|, j requires 0 <= j < |vs| => AdaptVote(timeId, vs[j]))
  }

  function AdaptTime(t: RoomTime, zonedIso: string -> string): (r: TimeSlot)
    ensures r.dateTime == zonedIso(t.start)
    ensures r.duration == DurationLabel(t.start, t.end)
    ensures |r.votes| == |t.votes|
    ensures t.votes == [] ==> r.votes == []
    ensures forall j :: 0 <= j < |t.votes| ==>
              r.votes[j].name == t.votes[j].userName && r.votes[j].email.None? && r.votes[j].timeSlots == [t.timeId]
  {
    TimeSlot(zonedIso(t.start), DurationLabel(t.start, t.end), AdaptVotes(t.timeId, t.votes))
  }

  /** `adaptTimeSlots`: one slot per Time entry, in the snapshot's order. */
  function AdaptTimeSlots(room: Room, zonedIso: string -> string): (r: seq<TimeSlot>)
    ensures |r| == |room.times|
    ensures forall i :: 0 <= i < |r| ==> r[i] == AdaptTime(room.times[i], zonedIso)
  {
    seq(|room.times|, i requires 0 <= i < |room.times| => AdaptTime(room.times[i], zonedIso))
  }

  /** The names on an adapted slot's votes are the user names of its Time's
      records, in the same order. */
  lemma {:induction false} AdaptedVoterNames(room: Room, zonedIso: string -> string, i: nat)
    requires i < |room.times|
    ensures var slot := AdaptTimeSlots(room, zonedIso)[i];
            Names(slot.votes) == UserNames(room.times[i].votes)
  {
    var vs := room.times[i].votes;
    var slot := AdaptTimeSlots(room, zonedIso)[i];
    NamesPointwise(slot.votes, vs);
  }

  function Names(vs: seq<Vote>): seq<string> {
    if vs == [] then [] else [vs[0].name] + Names(vs[1..])
  }

  function UserNames(vs: seq<RoomVote>): seq<string> {
    if vs == [] then [] else [vs[0].userName] + UserNames(vs[1..])
  }

  lemma {:induction false} NamesPointwise(a: seq<Vote>, b: seq<RoomVote>)
    requires |a| == |b| && forall j :: 0 <= j < |a| ==> a[j].name == b[j].userName
    ensures Names(a) == UserNames(b)
  {
    if a != [] {
      NamesPointwise(a[1..], b[1..]);
    }
  }
}
