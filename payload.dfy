/** The room-creation payload (src/utils/convertPayloadForAPI.ts): every
    `{start, duration}` of every draft date becomes one `{date, start, end}`
    entry. Instants are whole minutes since the epoch; the draft's calendar
    day and its "HH:MM" start are read as UTC digits, with no zone shift. */
module Payload {

  import opened Types
  import opened Text
  import opened Clock

  const MinutesPerDay: nat := 24 * 60

  datatype ApiTime = ApiTime(date: int, start: int, end: int)

  /** The RangeError `toISOString` throws on an invalid Date: the start did not
      form a valid ISO time, or the duration read as NaN. */
  datatype ConvertError = InvalidStart(start: string) | InvalidDuration(duration: string)

  datatype Result<+T> = Ok(value: T) | Err(error: ConvertError)

  /** One time range of one draft day. */
  function ConvertTime(day: int, t: TimeRange): (r: Result<ApiTime>)
    ensures r.Ok? <==> ParseClock(t.start).Some? && DurationMinutes(t.duration).Some?
    ensures ParseClock(t.start).None? ==> r == Err(InvalidStart(t.start))
    ensures r.Ok? ==> r.value.date == r.value.start
    ensures r.Ok? ==> r.value.start == day * MinutesPerDay + ParseClock(t.start).value
    ensures r.Ok? ==> r.value.end - r.value.start == DurationMinutes(t.duration).value
  {
    match ParseClock(t.start)
    case None => Err(InvalidStart(t.start))
    case Some(clock) =>
      var start := day * MinutesPerDay + clock;
      match DurationMinutes(t.duration)
      case None => Err(InvalidDuration(t.duration))
      case Some(minutes) => Ok(ApiTime(start, start, start + minutes))
  }

  /** The draft flattened: one (day, range) pair per time range, date-major. */
  function Entries(ds: seq<DateSlot>): (r: seq<(int, TimeRange)>)
    ensures |r| == TotalTimes(ds)
  {
    if ds == [] then []
    else seq(|ds[0].times|, j requires 0 <= j < |ds[0].times| => (ds[0].date, ds[0].times[j])) + Entries(ds[1..])
  }

  /** The number of time ranges over all dates. */
  function TotalTimes(ds: seq<DateSlot>): nat {
    if ds == [] then 0 else |ds[0].times| + TotalTimes(ds[1..])
  }

  /** Applies `f` to each element in order; the first failure is the result. */
  function TryMap<A, B>(xs: seq<A>, f: A -> Result<B>): (r: Result<seq<B>>)
    ensures r.Ok? ==> |r.value| == |xs|
  {
    if xs == [] then Ok([])
    else match f(xs[0])
      case Err(e) => Err(e)
      case Ok(y) =>
        match TryMap(xs[1..], f)
        case Err(e) => Err(e)
        case Ok(ys) => Ok([y] + ys)
  }

  lemma {:induction false} TryMapOk<A, B>(xs: seq<A>, f: A -> Result<B>)
    ensures TryMap(xs, f).Ok? <==> forall k :: 0 <= k < |xs| ==> f(xs[k]).Ok?
  {
    if xs != [] {
      var tail := xs[1..];
      TryMapOk(tail, f);
      if f(xs[0]).Ok? {
        if TryMap(tail, f).Err? {
          var k :| 0 <= k < |tail| && !f(tail[k]).Ok?;
          assert xs[k + 1] == tail[k];
        } else {
          forall k | 1 <= k < |xs| ensures f(xs[k]).Ok? {
            assert xs[k] == tail[k - 1];
          }
        }
      }
    }
  }

  lemma {:induction false} TryMapValues<A, B>(xs: seq<A>, f: A -> Result<B>)
    requires TryMap(xs, f).Ok?
    ensures |TryMap(xs, f).value| == |xs|
    ensures forall k :: 0 <= k < |xs| ==> f(xs[k]) == Ok(TryMap(xs, f).value[k])
  {
    if xs != [] {
      var tail := xs[1..];
      TryMapValues(tail, f);
      var out := TryMap(xs, f).value;
      assert out == [f(xs[0]).value] + TryMap(tail, f).value;
      forall k | 1 <= k < |xs| ensures f(xs[k]) == Ok(out[k]) {
        assert xs[k] == tail[k - 1];
      }
    }
  }

  lemma {:induction false} TryMapErr<A, B>(xs: seq<A>, f: A -> Result<B>)
    requires TryMap(xs, f).Err?
    ensures exists k :: 0 <= k < |xs| && f(xs[k]) == Err(TryMap(xs, f).error) &&
                        forall i :: 0 <= i < k ==> f(xs[i]).Ok?
  {
    if f(xs[0]).Err? {
      assert f(xs[0]) == Err(TryMap(xs, f).error);
    } else {
      var tail := xs[1..];
      TryMapErr(tail, f);
      var k :| 0 <= k < |tail| && f(tail[k]) == Err(TryMap(tail, f).error) &&
               forall i :: 0 <= i < k ==> f(tail[i]).Ok?;
      assert forall i :: 1 <= i < k + 1 ==> xs[i] == tail[i - 1];
      assert f(xs[k + 1]) == Err(TryMap(xs, f).error);
    }
  }

  /** One flattened (day, range) pair. */
  function ConvertEntry(e: (int, TimeRange)): Result<ApiTime> {
    ConvertTime(e.0, e.1)
  }

  /** Converts a flattened list in order; the first failing entry throws. */
  function ConvertEntries(es: seq<(int, TimeRange)>): (r: Result<seq<ApiTime>>)
    ensures r.Ok? ==> |r.value| == |es|
  {
    TryMap(es, ConvertEntry)
  }

  /** `convertPayloadForAPI`: the nested `map` over dates and their times,
      then `flat`. Both maps run date-major, so converting the flattened
      pairs in order raises the same first error and yields the same list. */
  function ConvertPayload(ds: seq<DateSlot>): (r: Result<seq<ApiTime>>)
    ensures r.Ok? ==> |r.value| == TotalTimes(ds)
  {
    ConvertEntries(Entries(ds))
  }

  /** Success exactly when every entry converts. */
  lemma ConvertEntriesOk(es: seq<(int, TimeRange)>)
    ensures ConvertEntries(es).Ok? <==> forall k :: 0 <= k < |es| ==> ConvertTime(es[k].0, es[k].1).Ok?
  {
    TryMapOk(es, ConvertEntry);
  }

  /** On success, one output per entry, in order: output k is entry k converted. */
  lemma ConvertEntriesValues(es: seq<(int, TimeRange)>)
    requires ConvertEntries(es).Ok?
    ensures |ConvertEntries(es).value| == |es|
    ensures forall k :: 0 <= k < |es| ==> ConvertTime(es[k].0, es[k].1) == Ok(ConvertEntries(es).value[k])
  {
    TryMapValues(es, ConvertEntry);
  }

  /** On failure, the error is that of the first entry that does not convert. */
  lemma ConvertEntriesErr(es: seq<(int, TimeRange)>)
    requires ConvertEntries(es).Err?
    ensures exists k :: 0 <= k < |es| && ConvertTime(es[k].0, es[k].1) == Err(ConvertEntries(es).error) &&
                        forall i :: 0 <= i < k ==> ConvertTime(es[i].0, es[i].1).Ok?
  {
    TryMapErr(es, ConvertEntry);
    var k :| 0 <= k < |es| && ConvertEntry(es[k]) == Err(ConvertEntries(es).error) &&
             forall i :: 0 <= i < k ==> ConvertEntry(es[i]).Ok?;
    assert forall i :: 0 <= i < k ==> ConvertTime(es[i].0, es[i].1).Ok?;
  }

  /** Flattening keeps every pair: the j-th time of the i-th date sits at
      position TotalTimes(ds[..i]) + j, so the order is date-major, time-minor. */
  lemma {:induction false} EntriesAt(ds: seq<DateSlot>, i: nat, j: nat)
    requires i < |ds| && j < |ds[i].times|
    ensures |Entries(ds)| == TotalTimes(ds)
    ensures TotalTimes(ds[..i]) + j < |Entries(ds)|
    ensures Entries(ds)[TotalTimes(ds[..i]) + j] == (ds[i].date, ds[i].times[j])
  {
    if i == 0 {
      assert ds[..0] == [];
    } else {
      EntriesAt(ds[1..], i - 1, j);
      assert ds[1..][..i - 1] == ds[..i][1..];
      assert TotalTimes(ds[..i]) == |ds[0].times| + TotalTimes(ds[1..][..i - 1]);
    }
  }

  /** One output per time range, and the j-th time of the i-th date converts to
      the output at TotalTimes(ds[..i]) + j: its start is the day plus the "HH:MM"
      read as UTC, its date equals its start, and end minus start is the duration. */
  lemma PayloadShape(ds: seq<DateSlot>, i: nat, j: nat)
    requires ConvertPayload(ds).Ok?
    requires i < |ds| && j < |ds[i].times|
    ensures |ConvertPayload(ds).value| == TotalTimes(ds)
    ensures TotalTimes(ds[..i]) + j < TotalTimes(ds)
    ensures var out := ConvertPayload(ds).value[TotalTimes(ds[..i]) + j];
            var t := ds[i].times[j];
            ParseClock(t.start).Some? && DurationMinutes(t.duration).Some? &&
            out.start == ds[i].date * MinutesPerDay + ParseClock(t.start).value &&
            out.date == out.start &&
            out.end - out.start == DurationMinutes(t.duration).value
  {
    EntriesAt(ds, i, j);
    ConvertEntriesValues(Entries(ds));
  }

  /** Starting at 09:00 for 01:30 gives an instant at 09:00 of that day and ends 90 minutes later. */
  lemma NineForNinety(day: int)
    ensures var r := ConvertTime(day, TimeRange("09:00", "01:30"));
            r.Ok? && r.value.start == day * MinutesPerDay + 9 * 60 && r.value.end - r.value.start == 90
  {
    ParseClockLabel(9, 0);
    assert ClockLabel(9, 0) == "09:00";
    DurationOfLabel(1, 30);
    assert ClockLabel(1, 30) == "01:30";
  }

  /** A duration of 00:00 is not an error: the range ends where it starts. */
  lemma ZeroDuration(day: int, start: string)
    requires ParseClock(start).Some?
    ensures var r := ConvertTime(day, TimeRange(start, "00:00"));
            r.Ok? && r.value.end == r.value.start
  {
    ZeroLabel();
  }

  lemma ZeroLabel()
    ensures DurationMinutes("00:00") == Some(0)
  {
    DurationOfLabel(0, 0);
    assert ClockLabel(0, 0) == "00:00";
  }
}
