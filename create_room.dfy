/** The room-creation page (src/pages/CreateRoom.tsx): the draft's list of
    dates, each with its `{start, duration}` entries, edited by five
    handlers, and the option tables of its pickers. A calendar date is a day
    number; two dates are the same when their day numbers are equal
    (`getTime()` equality of the calendar's midnights). */
module CreateRoom {

  import opened Types
  import opened Text
  import opened Clock
  import opened Payload
  import RoomSchema

  /** The single time a newly added date starts with. */
  const FirstTime: TimeRange := TimeRange("07:00", "00:30")

  /** The time `addTimeSlot` appends. */
  const ExtraTime: TimeRange := TimeRange("09:00", "01:00")

  // ---------------------------------------------------------------- handlers

  /** `selectedDates.some((slot) => slot.date.getTime() === date.getTime())`. */
  predicate HasDate(ds: seq<DateSlot>, date: int) {
    exists i :: 0 <= i < |ds| && ds[i].date == date
  }

  /** `handleDateSelect`: no date, or one already in the draft, changes
      nothing (a warning is shown); a new date is appended with one time. */
  function AddDate(ds: seq<DateSlot>, date: Option<int>): (r: seq<DateSlot>)
    ensures |ds| <= |r| <= |ds| + 1 && r[..|ds|] == ds
    ensures |r| == |ds| + 1 <==> date.Some? && forall i :: 0 <= i < |ds| ==> ds[i].date != date.value
    ensures |r| == |ds| + 1 ==> r[|ds|] == DateSlot(date.value, [FirstTime])
  {
    if date.None? || HasDate(ds, date.value) then ds
    else ds + [DateSlot(date.value, [FirstTime])]
  }

  /** `filter((_, index) => index !== at)`: drops the element at `at`, if
      there is one. */
  function RemoveAt<T>(s: seq<T>, at: int): (r: seq<T>)
    ensures 0 <= at < |s| ==> r == s[..at] + s[at + 1..]
    ensures !(0 <= at < |s|) ==> r == s
  {
    if s == [] then []
    else if at == 0 then s[1..]
    else
      var rest := RemoveAt(s[1..], at - 1);
      assert 0 <= at < |s| ==> [s[0]] + s[1..][..at - 1] == s[..at] && s[1..][at..] == s[at + 1..];
      [s[0]] + rest
  }

  /** `removeDateSlot`. */
  function RemoveDate(ds: seq<DateSlot>, dateIndex: int): (r: seq<DateSlot>)
    ensures 0 <= dateIndex < |ds| ==> |r| == |ds| - 1 && r == ds[..dateIndex] + ds[dateIndex + 1..]
    ensures !(0 <= dateIndex < |ds|) ==> r == ds
  {
    RemoveAt(ds, dateIndex)
  }

  /** `selectedDates.map((slot, index) => index === at ? f(slot) : slot)` for
      `addTimeSlot`: the date at `at` gains `ExtraTime` at the end. */
  function AddTime(ds: seq<DateSlot>, dateIndex: int): (r: seq<DateSlot>)
    ensures |r| == |ds|
    ensures forall i :: 0 <= i < |ds| && i != dateIndex ==> r[i] == ds[i]
    ensures 0 <= dateIndex < |ds| ==> r[dateIndex] == ds[dateIndex].(times := ds[dateIndex].times + [ExtraTime])
  {
    seq(|ds|, i requires 0 <= i < |ds| =>
      if i == dateIndex then ds[i].(times := ds[i].times + [ExtraTime]) else ds[i])
  }

  /** `.filter((slot) => slot.times.length > 0)`. */
  function DropEmpty(ds: seq<DateSlot>): (r: seq<DateSlot>)
    ensures |r| <= |ds|
    ensures forall k :: 0 <= k < |r| ==> |r[k].times| > 0
  {
    if ds == [] then []
    else if |ds[0].times| > 0 then [ds[0]] + DropEmpty(ds[1..])
    else DropEmpty(ds[1..])
  }

  /** `removeTimeSlot` before the empty dates are dropped. */
  function RemoveTimeIn(ds: seq<DateSlot>, dateIndex: int, timeIndex: int): (r: seq<DateSlot>)
    ensures |r| == |ds|
    ensures forall i :: 0 <= i < |ds| ==> r[i].date == ds[i].date
    ensures forall i :: 0 <= i < |ds| && i != dateIndex ==> r[i] == ds[i]
    ensures 0 <= dateIndex < |ds| ==> r[dateIndex].times == RemoveAt(ds[dateIndex].times, timeIndex)
  {
    seq(|ds|, i requires 0 <= i < |ds| =>
      if i == dateIndex then ds[i].(times := RemoveAt(ds[i].times, timeIndex)) else ds[i])
  }

  /** `removeTimeSlot`: the time at `timeIndex` of the date at `dateIndex`
      is dropped, then every date left without times is dropped. */
  function RemoveTime(ds: seq<DateSlot>, dateIndex: int, timeIndex: int): (r: seq<DateSlot>)
    ensures |r| <= |ds|
    ensures forall k :: 0 <= k < |r| ==> |r[k].times| > 0
  {
    DropEmpty(RemoveTimeIn(ds, dateIndex, timeIndex))
  }

  /** The two fields `updateTimeSlot` may set. */
  datatype Field = Start | Duration

  function SetField(t: TimeRange, field: Field, value: string): TimeRange {
    match field
    case Start => t.(start := value)
    case Duration => t.(duration := value)
  }

  /** `updateTimeSlot`: one field of one time of one date is replaced. */
  function UpdateTime(ds: seq<DateSlot>, dateIndex: int, timeIndex: int, field: Field, value: string): (r: seq<DateSlot>)
    ensures |r| == |ds|
    ensures forall i :: 0 <= i < |ds| ==> r[i].date == ds[i].date && |r[i].times| == |ds[i].times|
    ensures forall i, j :: 0 <= i < |ds| && 0 <= j < |ds[i].times| && (i, j) != (dateIndex, timeIndex) ==>
              r[i].times[j] == ds[i].times[j]
    ensures 0 <= dateIndex < |ds| && 0 <= timeIndex < |ds[dateIndex].times| ==>
              var old_ := ds[dateIndex].times[timeIndex];
              var new_ := r[dateIndex].times[timeIndex];
              (field.Start? ==> new_.start == value && new_.duration == old_.duration) &&
              (field.Duration? ==> new_.duration == value && new_.start == old_.start)
  {
    seq(|ds|, i requires 0 <= i < |ds| =>
      if i == dateIndex then
        ds[i].(times := seq(|ds[i].times|, j requires 0 <= j < |ds[i].times| =>
          if j == timeIndex then SetField(ds[i].times[j], field, value) else ds[i].times[j]))
      else ds[i])
  }

  // ---------------------------------------------------------------- invariants

  predicate DistinctDates(ds: seq<DateSlot>) {
    forall i, j :: 0 <= i < j < |ds| ==> ds[i].date != ds[j].date
  }

  predicate EveryDateHasTime(ds: seq<DateSlot>) {
    forall i :: 0 <= i < |ds| ==> |ds[i].times| > 0
  }

  /** What the handlers keep: no date twice, no date without times. */
  predicate DraftOk(ds: seq<DateSlot>) {
    DistinctDates(ds) && EveryDateHasTime(ds)
  }

  /** Adding a date either changes nothing or appends exactly one new date
      with the single time 07:00 for 00:30, so dates stay distinct. */
  lemma AddDateSpec(ds: seq<DateSlot>, date: Option<int>)
    ensures date.None? ==> AddDate(ds, date) == ds
    ensures date.Some? && (exists i :: 0 <= i < |ds| && ds[i].date == date.value) ==> AddDate(ds, date) == ds
    ensures date.Some? && (forall i :: 0 <= i < |ds| ==> ds[i].date != date.value) ==>
              AddDate(ds, date) == ds + [DateSlot(date.value, [FirstTime])]
    ensures DraftOk(ds) ==> DraftOk(AddDate(ds, date))
  {
    if DraftOk(ds) && date.Some? && !HasDate(ds, date.value) {
      var r := AddDate(ds, date);
      forall i, j | 0 <= i < j < |r| ensures r[i].date != r[j].date {
        assert r[i] == ds[i];
        if j < |ds| {
          assert r[j] == ds[j];
        }
      }
    }
  }

  /** Removing a date keeps the other dates in order and keeps the invariant. */
  lemma RemoveDateSpec(ds: seq<DateSlot>, dateIndex: int)
    ensures 0 <= dateIndex < |ds| ==> |RemoveDate(ds, dateIndex)| == |ds| - 1
    ensures DraftOk(ds) ==> DraftOk(RemoveDate(ds, dateIndex))
  {
    if DraftOk(ds) && 0 <= dateIndex < |ds| {
      var r := RemoveDate(ds, dateIndex);
      assert forall k :: 0 <= k < |r| ==> r[k] == (if k < dateIndex then ds[k] else ds[k + 1]);
    }
  }

  /** Adding a time keeps the invariant. */
  lemma AddTimeSpec(ds: seq<DateSlot>, dateIndex: int)
    ensures DraftOk(ds) ==> DraftOk(AddTime(ds, dateIndex))
  {
  }

  /** The list before the empty dates are dropped. */
  lemma {:induction false} DropEmptyKeeps(ds: seq<DateSlot>)
    requires EveryDateHasTime(ds)
    ensures DropEmpty(ds) == ds
  {
    if ds != [] {
      DropEmptyKeeps(ds[1..]);
      assert ds == [ds[0]] + ds[1..];
    }
  }

  lemma {:induction false} DropEmptyMembers(ds: seq<DateSlot>)
    ensures forall k :: 0 <= k < |DropEmpty(ds)| ==> DropEmpty(ds)[k] in ds
  {
    if ds != [] {
      DropEmptyMembers(ds[1..]);
    }
  }

  lemma {:induction false} DropEmptyDistinct(ds: seq<DateSlot>)
    requires DistinctDates(ds)
    ensures DistinctDates(DropEmpty(ds))
  {
    if ds != [] {
      var tail := ds[1..];
      assert DistinctDates(tail) by {
        forall i, j | 0 <= i < j < |tail| ensures tail[i].date != tail[j].date {
          assert tail[i] == ds[i + 1] && tail[j] == ds[j + 1];
        }
      }
      DropEmptyDistinct(tail);
      if |ds[0].times| > 0 {
        var rest := DropEmpty(tail);
        DropEmptyMembers(tail);
        var r := [ds[0]] + rest;
        forall i, j | 0 <= i < j < |r| ensures r[i].date != r[j].date {
          assert r[j] == rest[j - 1];
          var m :| 0 <= m < |tail| && tail[m] == rest[j - 1];
          assert tail[m] == ds[m + 1];
          if i > 0 {
            assert r[i] == rest[i - 1];
          }
        }
      }
    }
  }

  /** Removing a time: afterwards every date has a time, even a date whose
      last time was removed (it is gone), and dates stay distinct. */
  lemma RemoveTimeSpec(ds: seq<DateSlot>, dateIndex: int, timeIndex: int)
    ensures EveryDateHasTime(RemoveTime(ds, dateIndex, timeIndex))
    ensures DraftOk(ds) ==> DraftOk(RemoveTime(ds, dateIndex, timeIndex))
  {
    if DraftOk(ds) {
      DropEmptyDistinct(RemoveTimeIn(ds, dateIndex, timeIndex));
    }
  }

  /** When the date keeps a time, only that time is gone. */
  lemma RemoveTimeKeepsDate(ds: seq<DateSlot>, dateIndex: int, timeIndex: int)
    requires EveryDateHasTime(ds)
    requires 0 <= dateIndex < |ds| && 0 <= timeIndex < |ds[dateIndex].times| && |ds[dateIndex].times| > 1
    ensures var r := RemoveTime(ds, dateIndex, timeIndex);
            var ts := ds[dateIndex].times;
            |r| == |ds| && r[dateIndex].date == ds[dateIndex].date &&
            r[dateIndex].times == ts[..timeIndex] + ts[timeIndex + 1..] &&
            forall i :: 0 <= i < |ds| && i != dateIndex ==> r[i] == ds[i]
  {
    DropEmptyKeeps(RemoveTimeIn(ds, dateIndex, timeIndex));
  }

  /** Removing the only time of a date removes the date. */
  lemma RemoveLastTimeRemovesDate(ds: seq<DateSlot>, dateIndex: int)
    requires EveryDateHasTime(ds)
    requires 0 <= dateIndex < |ds| && |ds[dateIndex].times| == 1
    ensures RemoveTime(ds, dateIndex, 0) == RemoveDate(ds, dateIndex)
  {
    var mapped := RemoveTimeIn(ds, dateIndex, 0);
    DropOneEmpty(mapped, dateIndex);
    assert mapped[..dateIndex] == ds[..dateIndex];
    assert mapped[dateIndex + 1..] == ds[dateIndex + 1..];
  }

  /** Dropping empties from a list whose only empty date sits at `at`. */
  lemma {:induction false} DropOneEmpty(ds: seq<DateSlot>, at: nat)
    requires at < |ds| && ds[at].times == []
    requires forall i :: 0 <= i < |ds| && i != at ==> |ds[i].times| > 0
    ensures DropEmpty(ds) == ds[..at] + ds[at + 1..]
  {
    if at == 0 {
      DropEmptyKeeps(ds[1..]);
    } else {
      DropOneEmpty(ds[1..], at - 1);
      assert ds[..at] == [ds[0]] + ds[1..][..at - 1];
      assert ds[at + 1..] == ds[1..][at..];
    }
  }

  /** Updating a time keeps the invariant. */
  lemma UpdateTimeSpec(ds: seq<DateSlot>, dateIndex: int, timeIndex: int, field: Field, value: string)
    ensures DraftOk(ds) ==> DraftOk(UpdateTime(ds, dateIndex, timeIndex, field, value))
  {
  }

  // ---------------------------------------------------------------- pickers

  /** The end-time picker: 48 values, `pad2(floor(i / 2))` then `:00` or `:30`. */
  function EndTimeOptions(): (r: seq<string>)
    ensures |r| == 48
  {
    seq(48, i requires 0 <= i < 48 => Pad2(i / 2) + ":" + (if i % 2 == 0 then "00" else "30"))
  }

  /** Value `i` of the end-time picker is the time of day `30 * i` minutes. */
  lemma EndTimeOptionsAreHalfHours()
    ensures forall i :: 0 <= i < 48 ==> EndTimeOptions()[i] == ClockLabel(i / 2, 30 * (i % 2))
    ensures forall i :: 0 <= i < 48 ==> ParseClock(EndTimeOptions()[i]) == Some(30 * i)
  {
    forall i | 0 <= i < 48 ensures EndTimeOptions()[i] == ClockLabel(i / 2, 30 * (i % 2)) {
      if i % 2 == 0 {
        assert Pad2(0) == "00";
      } else {
        assert Pad2(30) == "30";
      }
    }
    forall i | 0 <= i < 48 ensures ParseClock(EndTimeOptions()[i]) == Some(30 * i) {
      ParseClockLabel(i / 2, 30 * (i % 2));
    }
  }

  /** The start-time picker: the 24 labels 00:00 .. 23:00. */
  function StartOptions(): seq<string> {
    HourLabels()
  }

  /** The duration picker's 13 fixed values. */
  const DurationOptions: seq<string> :=
    ["00:00", "00:15", "00:30", "01:00", "01:30", "02:00", "02:30", "03:00", "03:30", "04:00", "04:30", "05:00", "06:00"]

  /** The durations the picker offers, in minutes. */
  const DurationMinutesOffered: seq<nat> := [0, 15, 30, 60, 90, 120, 150, 180, 210, 240, 270, 300, 360]

  /** Option `k` read as a time of day is its minutes. */
  lemma DurationOptionClock(k: nat)
    requires k < |DurationOptions|
    ensures ParseClock(DurationOptions[k]) == Some(DurationMinutesOffered[k])
  {
    if k == 0 {} else if k == 1 {} else if k == 2 {} else if k == 3 {}
    else if k == 4 {} else if k == 5 {} else if k == 6 {} else if k == 7 {}
    else if k == 8 {} else if k == 9 {} else if k == 10 {} else if k == 11 {}
    else {}
  }

  /** Every duration the picker offers reads back as its minutes. */
  lemma DurationOptionsParse()
    ensures forall k :: 0 <= k < |DurationOptions| ==>
              DurationMinutes(DurationOptions[k]) == Some(DurationMinutesOffered[k])
  {
    forall k | 0 <= k < |DurationOptions|
      ensures DurationMinutes(DurationOptions[k]) == Some(DurationMinutesOffered[k])
    {
      DurationOptionClock(k);
      DurationOfClock(DurationOptions[k]);
    }
  }

  /** A time whose two fields were chosen from the pickers. */
  predicate PickedTime(t: TimeRange) {
    t.start in StartOptions() && t.duration in DurationOptions
  }

  predicate PickedDraft(ds: seq<DateSlot>) {
    forall i, j :: 0 <= i < |ds| && 0 <= j < |ds[i].times| ==> PickedTime(ds[i].times[j])
  }

  /** A picked time always converts. */
  lemma PickedTimeConverts(day: int, t: TimeRange)
    requires PickedTime(t)
    ensures ConvertTime(day, t).Ok?
  {
    HourLabelsParse();
    DurationOptionsParse();
  }

  lemma {:induction false} EntriesPicked(ds: seq<DateSlot>)
    requires PickedDraft(ds)
    ensures forall k :: 0 <= k < |Entries(ds)| ==> PickedTime(Entries(ds)[k].1)
  {
    if ds != [] {
      var tail := ds[1..];
      assert PickedDraft(tail) by {
        forall i, j | 0 <= i < |tail| && 0 <= j < |tail[i].times| ensures PickedTime(tail[i].times[j]) {
          assert tail[i] == ds[i + 1];
        }
      }
      EntriesPicked(tail);
      var head := seq(|ds[0].times|, j requires 0 <= j < |ds[0].times| => (ds[0].date, ds[0].times[j]));
      assert Entries(ds) == head + Entries(tail);
      forall k | 0 <= k < |Entries(ds)| ensures PickedTime(Entries(ds)[k].1) {
        if k >= |head| {
          assert Entries(ds)[k] == Entries(tail)[k - |head|];
        } else {
          assert PickedTime(ds[0].times[k]);
        }
      }
    }
  }

  /** A draft filled from the pickers never makes the payload converter fail. */
  lemma PickedDraftConverts(ds: seq<DateSlot>)
    requires PickedDraft(ds)
    ensures ConvertPayload(ds).Ok?
  {
    EntriesPicked(ds);
    ConvertEntriesOk(Entries(ds));
    forall k | 0 <= k < |Entries(ds)| ensures ConvertTime(Entries(ds)[k].0, Entries(ds)[k].1).Ok? {
      PickedTimeConverts(Entries(ds)[k].0, Entries(ds)[k].1);
    }
  }

  /** The handlers keep a draft picked as long as updates use picker values. */
  /** The times the handlers insert are picker values. */
  lemma DefaultsPicked()
    ensures PickedTime(FirstTime) && PickedTime(ExtraTime)
  {
    assert StartOptions()[7] == "07:00" && StartOptions()[9] == "09:00" by {
      assert Pad2(7) == "07" && Pad2(9) == "09";
    }
    assert DurationOptions[2] == "00:30" && DurationOptions[3] == "01:00";
  }

  /** Each handler keeps a draft picked, `updateTimeSlot` as long as it is
      given a picker value. */
  lemma AddDatePicked(ds: seq<DateSlot>, date: Option<int>)
    requires PickedDraft(ds)
    ensures PickedDraft(AddDate(ds, date))
  {
    DefaultsPicked();
    var a := AddDate(ds, date);
    forall i, j | 0 <= i < |a| && 0 <= j < |a[i].times| ensures PickedTime(a[i].times[j]) {
      if i < |ds| {
        assert a[i] == ds[i];
      }
    }
  }

  lemma RemoveDatePicked(ds: seq<DateSlot>, dateIndex: int)
    requires PickedDraft(ds)
    ensures PickedDraft(RemoveDate(ds, dateIndex))
  {
    if 0 <= dateIndex < |ds| {
      var r := RemoveDate(ds, dateIndex);
      forall i, j | 0 <= i < |r| && 0 <= j < |r[i].times| ensures PickedTime(r[i].times[j]) {
        assert r[i] == (if i < dateIndex then ds[i] else ds[i + 1]);
      }
    }
  }

  lemma AddTimePicked(ds: seq<DateSlot>, dateIndex: int)
    requires PickedDraft(ds)
    ensures PickedDraft(AddTime(ds, dateIndex))
  {
    DefaultsPicked();
    var t := AddTime(ds, dateIndex);
    forall i, j | 0 <= i < |t| && 0 <= j < |t[i].times| ensures PickedTime(t[i].times[j]) {
      if i == dateIndex && j == |ds[i].times| {
        assert t[i].times[j] == ExtraTime;
      } else {
        assert t[i].times[j] == ds[i].times[j];
      }
    }
  }

  lemma UpdateTimePicked(ds: seq<DateSlot>, dateIndex: int, timeIndex: int, field: Field, value: string)
    requires PickedDraft(ds)
    requires field.Start? ==> value in StartOptions()
    requires field.Duration? ==> value in DurationOptions
    ensures PickedDraft(UpdateTime(ds, dateIndex, timeIndex, field, value))
  {
  }

  lemma RemoveTimeInPicked(ds: seq<DateSlot>, dateIndex: int, timeIndex: int)
    requires PickedDraft(ds)
    ensures PickedDraft(RemoveTimeIn(ds, dateIndex, timeIndex))
  {
    var mapped := RemoveTimeIn(ds, dateIndex, timeIndex);
    forall i, j | 0 <= i < |mapped| && 0 <= j < |mapped[i].times| ensures PickedTime(mapped[i].times[j]) {
      if i == dateIndex && 0 <= timeIndex < |ds[i].times| {
        var ts := ds[i].times;
        assert mapped[i].times == ts[..timeIndex] + ts[timeIndex + 1..];
        assert mapped[i].times[j] == (if j < timeIndex then ts[j] else ts[j + 1]);
      }
    }
  }

  lemma RemoveTimePicked(ds: seq<DateSlot>, dateIndex: int, timeIndex: int)
    requires PickedDraft(ds)
    ensures PickedDraft(RemoveTime(ds, dateIndex, timeIndex))
  {
    var mapped := RemoveTimeIn(ds, dateIndex, timeIndex);
    RemoveTimeInPicked(ds, dateIndex, timeIndex);
    DropEmptyMembers(mapped);
    var r := DropEmpty(mapped);
    forall i, j | 0 <= i < |r| && 0 <= j < |r[i].times| ensures PickedTime(r[i].times[j]) {
      var m :| 0 <= m < |mapped| && mapped[m] == r[i];
    }
  }

  /** A draft the editor built from the pickers, with at least one date,
      passes the form's date rules. */
  lemma PickedDraftPassesDateRules(ds: seq<DateSlot>)
    requires PickedDraft(ds) && EveryDateHasTime(ds) && |ds| >= 1
    ensures RoomSchema.ValidDates(ds)
  {
    HourLabelsParse();
    forall i, j | 0 <= i < |ds| && 0 <= j < |ds[i].times| ensures RoomSchema.ValidTimeRange(ds[i].times[j]) {
      var t := ds[i].times[j];
      assert PickedTime(t);
      var h :| 0 <= h < 24 && HourLabels()[h] == t.start;
      var k :| 0 <= k < |DurationOptions| && DurationOptions[k] == t.duration;
    }
  }

  // ---------------------------------------------------------------- page state

  /** The form field `selectedDates`, overwritten by each handler through `setValue`. */
  class RoomDraftEditor {
    var selectedDates: seq<DateSlot>

    /** What every handler keeps: no date twice, no date without times, and
        every time one the pickers offer. */
    predicate Valid()
      reads this
    {
      DraftOk(selectedDates) && PickedDraft(selectedDates)
    }

    /** `defaultValues.selectedDates`. */
    constructor()
      ensures selectedDates == [] && Valid()
    {
      selectedDates := [];
    }

    /** `handleDateSelect(date)`; `warned` is the "already selected" toast. */
    method DateSelect(date: Option<int>) returns (warned: bool)
      requires Valid()
      modifies this
      ensures warned <==> date.None? || HasDate(old(selectedDates), date.value)
      ensures selectedDates == AddDate(old(selectedDates), date)
      ensures Valid()
    {
      warned := date.None? || HasDate(selectedDates, date.value);
      AddDateSpec(selectedDates, date);
      AddDatePicked(selectedDates, date);
      selectedDates := AddDate(selectedDates, date);
    }

    method RemoveDateSlot(dateIndex: int)
      requires Valid()
      modifies this
      ensures selectedDates == RemoveDate(old(selectedDates), dateIndex)
      ensures Valid()
    {
      RemoveDateSpec(selectedDates, dateIndex);
      RemoveDatePicked(selectedDates, dateIndex);
      selectedDates := RemoveDate(selectedDates, dateIndex);
    }

    method AddTimeSlot(dateIndex: int)
      requires Valid()
      modifies this
      ensures selectedDates == AddTime(old(selectedDates), dateIndex)
      ensures Valid()
    {
      AddTimeSpec(selectedDates, dateIndex);
      AddTimePicked(selectedDates, dateIndex);
      selectedDates := AddTime(selectedDates, dateIndex);
    }

    method RemoveTimeSlot(dateIndex: int, timeIndex: int)
      requires Valid()
      modifies this
      ensures selectedDates == RemoveTime(old(selectedDates), dateIndex, timeIndex)
      ensures Valid()
    {
      RemoveTimeSpec(selectedDates, dateIndex, timeIndex);
      RemoveTimePicked(selectedDates, dateIndex, timeIndex);
      selectedDates := RemoveTime(selectedDates, dateIndex, timeIndex);
    }

    /** The value comes from the start or the duration picker. */
    method UpdateTimeSlot(dateIndex: int, timeIndex: int, field: Field, value: string)
      requires Valid()
      requires field.Start? ==> value in StartOptions()
      requires field.Duration? ==> value in DurationOptions
      modifies this
      ensures selectedDates == UpdateTime(old(selectedDates), dateIndex, timeIndex, field, value)
      ensures Valid()
    {
      UpdateTimeSpec(selectedDates, dateIndex, timeIndex, field, value);
      UpdateTimePicked(selectedDates, dateIndex, timeIndex, field, value);
      selectedDates := UpdateTime(selectedDates, dateIndex, timeIndex, field, value);
    }
  }
}
