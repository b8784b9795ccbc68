/** The room-creation form's rules (src/schemas/roomSchema.ts). */
module RoomSchema {

  import opened Types
  import opened Text

  /** The values the room-creation form submits; a missing calendar or
      select value is `None`. */
  datatype RoomForm = RoomForm(
    name: string,
    title: string,
    description: Option<string>,
    endDate: Option<int>,
    endTime: Option<string>,
    selectedDates: seq<DateSlot>)

  /** `/^[A-Za-z\s]+$/`: one or more characters, each an ASCII letter or
      JavaScript whitespace. */
  predicate LettersAndSpaces(s: string) {
    |s| > 0 && forall i :: 0 <= i < |s| ==> IsAsciiLetter(s[i]) || IsJsWhitespace(s[i])
  }

  /** `name`: `nonempty()`, the letters pattern, `min(3)`. */
  function ValidRoomName(name: string): (r: bool)
    ensures r <==> |name| >= 3 && forall i :: 0 <= i < |name| ==> IsAsciiLetter(name[i]) || IsJsWhitespace(name[i])
  {
    |name| > 0 && LettersAndSpaces(name) && |name| >= 3
  }

  /** `title`: `nonempty()` then `min(5)`. */
  function ValidTitle(title: string): (r: bool)
    ensures r <==> |title| >= 5
  {
    |title| > 0 && |title| >= 5
  }

  /** `{start, duration}`: both non-empty strings. */
  predicate ValidTimeRange(t: TimeRange) {
    |t.start| > 0 && |t.duration| > 0
  }

  /** One entry of `selectedDates`: at least one time, each of them valid. */
  predicate ValidDateSlot(d: DateSlot) {
    |d.times| >= 1 && forall j :: 0 <= j < |d.times| ==> ValidTimeRange(d.times[j])
  }

  /** `selectedDates`: at least one date, each of them valid. */
  function ValidDates(ds: seq<DateSlot>): (r: bool)
    ensures r ==> |ds| >= 1 && forall i :: 0 <= i < |ds| ==> |ds[i].times| >= 1
    ensures r <==> |ds| >= 1 && (forall i :: 0 <= i < |ds| ==> |ds[i].times| >= 1) &&
                   forall i, j :: 0 <= i < |ds| && 0 <= j < |ds[i].times| ==>
                     |ds[i].times[j].start| > 0 && |ds[i].times[j].duration| > 0
  {
    |ds| >= 1 && forall i :: 0 <= i < |ds| ==> ValidDateSlot(ds[i])
  }

  /** `newRoomSchema`: the description may be absent or any string, the end
      date must be present, and the end time must be present though the
      empty string passes. */
  function ValidNewRoom(f: RoomForm): (r: bool)
    ensures r ==> |f.name| >= 3 && |f.title| >= 5 && f.endDate.Some? && f.endTime.Some? && |f.selectedDates| >= 1
  {
    ValidRoomName(f.name) && ValidTitle(f.title) && f.endDate.Some? && f.endTime.Some? &&
    ValidDates(f.selectedDates)
  }

  /** The name rule in one piece: at least three characters, all letters or
      whitespace; the empty name is among the rejected. */
  lemma RoomNameIff(name: string)
    ensures ValidRoomName(name) <==>
            |name| >= 3 && forall i :: 0 <= i < |name| ==> IsAsciiLetter(name[i]) || IsJsWhitespace(name[i])
    ensures !ValidRoomName("")
  {
  }

  /** A digit anywhere in the name rejects it, whatever its length. */
  lemma DigitRejectsName(name: string, i: nat)
    requires i < |name| && IsDigit(name[i])
    ensures !ValidRoomName(name)
  {
    assert !IsAsciiLetter(name[i]) && !IsJsWhitespace(name[i]);
  }

  /** Only the presence of the end time is checked, not its content. */
  lemma EmptyEndTimeAccepted(f: RoomForm)
    requires ValidNewRoom(f)
    ensures ValidNewRoom(f.(endTime := Some(""), description := None))
    ensures !ValidNewRoom(f.(endTime := None))
    ensures !ValidNewRoom(f.(endDate := None))
    ensures !ValidNewRoom(f.(selectedDates := []))
  {
  }

  /** A date left without times makes the whole form invalid. */
  lemma DateWithoutTimesRejected(f: RoomForm, i: nat)
    requires i < |f.selectedDates| && f.selectedDates[i].times == []
    ensures !ValidNewRoom(f)
  {
    assert !ValidDateSlot(f.selectedDates[i]);
  }
}
