/** "HH:MM" clock strings: the labels the pages build with
    `String(n).padStart(2, '0')`, and the two ways the payload converter
    reads them back (as an ISO time of day, and through `split` and `parseInt`). */
module Clock {

  import opened Types
  import opened Text

  /** "HH:MM" for an hour and a minute below 100. */
  function ClockLabel(h: nat, m: nat): (r: string)
    requires h < 100 && m < 100
    ensures |r| == 5 && r[2] == ':'
  {
    Pad2(h) + ":" + Pad2(m)
  }

  /** "HH:00", the label of an hour row and of a start-time option. */
  function HourLabel(h: nat): (r: string)
    requires h < 24
    ensures r == ClockLabel(h, 0)
  {
    Pad2(h) + ":00"
  }

  /** `Array.from({ length: 24 }, (_, hour) => pad2(hour) + ":00")`: the hour
      rows of the voting grid and the start-time options of the draft editor. */
  function HourLabels(): (r: seq<string>)
    ensures |r| == 24
    ensures forall h :: 0 <= h < 24 ==> r[h] == HourLabel(h)
  {
    seq(24, h requires 0 <= h < 24 => HourLabel(h))
  }

  /** The time of day an ISO date-time string accepts after its `T`: exactly
      two digits, a colon and two digits, hours 00..24, minutes 00..59, and
      24 only as 24:00. Gives the minutes since midnight. */
  function ParseClock(s: string): (r: Option<nat>)
    ensures r.Some? ==> r.value <= 24 * 60
  {
    if |s| == 5 && IsDigit(s[0]) && IsDigit(s[1]) && s[2] == ':' && IsDigit(s[3]) && IsDigit(s[4]) then
      var h := DigitValue(s[0]) * 10 + DigitValue(s[1]);
      var m := DigitValue(s[3]) * 10 + DigitValue(s[4]);
      if h < 24 && m < 60 then Some(h * 60 + m)
      else if h == 24 && m == 0 then Some(24 * 60)
      else None
    else None
  }

  lemma ParseClockLabel(h: nat, m: nat)
    requires h < 24 && m < 60
    ensures ParseClock(ClockLabel(h, m)) == Some(h * 60 + m)
  {
    var s := ClockLabel(h, m);
    assert s[0] == Pad2(h)[0] && s[1] == Pad2(h)[1] && s[3] == Pad2(m)[0] && s[4] == Pad2(m)[1];
  }

  /** Label `h` reads back as `h`:00, so the labels run 00:00 to 23:00, an hour apart. */
  lemma HourLabelsParse()
    ensures forall h :: 0 <= h < 24 ==> ParseClock(HourLabels()[h]) == Some(h * 60)
    ensures HourLabels()[0] == "00:00" && HourLabels()[23] == "23:00"
  {
    forall h | 0 <= h < 24 ensures ParseClock(HourLabels()[h]) == Some(h * 60) {
      ParseClockLabel(h, 0);
    }
  }

  /** Every time of day below 24:00 that parses is the label of its own value. */
  lemma {:induction false} ParseClockRoundTrip(s: string)
    requires ParseClock(s).Some? && ParseClock(s).value < 24 * 60
    ensures s == ClockLabel(ParseClock(s).value / 60, ParseClock(s).value % 60)
  {
    var v := ParseClock(s).value;
    var h := DigitValue(s[0]) * 10 + DigitValue(s[1]);
    var m := DigitValue(s[3]) * 10 + DigitValue(s[4]);
    assert v == h * 60 + m && h < 24 && m < 60;
    assert v / 60 == h && v % 60 == m;
    var t := ClockLabel(h, m);
    assert t[0] == Pad2(h)[0] && t[1] == Pad2(h)[1] && t[2] == ':' && t[3] == Pad2(m)[0] && t[4] == Pad2(m)[1];
    assert DigitValue(s[0]) == h / 10 && DigitValue(s[1]) == h % 10;
    assert DigitValue(t[0]) == h / 10 && DigitValue(t[1]) == h % 10;
    assert DigitValue(s[3]) == m / 10 && DigitValue(s[4]) == m % 10;
    assert DigitValue(t[3]) == m / 10 && DigitValue(t[4]) == m % 10;
    assert s[0] == t[0] && s[1] == t[1] && s[3] == t[3] && s[4] == t[4];
  }

  /** The position of the first ':' in `s`, if any. */
  function FirstColon(s: string): (r: Option<nat>)
    ensures r.None? <==> ':' !in s
    ensures r.Some? ==> r.value < |s| && s[r.value] == ':' && ':' !in s[..r.value]
  {
    if s == [] then None
    else if s[0] == ':' then Some(0)
    else match FirstColon(s[1..])
      case None => None
      case Some(i) =>
        assert s[..i + 1] == [s[0]] + s[1..][..i];
        Some(i + 1)
  }

  /** `parseInt(d.split(":")[0]) * 60 + parseInt(d.split(":")[1])`, None where
      JavaScript computes NaN. The leading digits of the text after the first
      colon are those of the second field, since a colon is not a digit. */
  function DurationMinutes(d: string): (r: Option<nat>)
    ensures r.Some? ==> ':' in d && d != [] && IsDigit(d[0])
  {
    match (LeadingInt(d), FirstColon(d))
    case (Some(h), Some(i)) =>
      (match LeadingInt(d[i + 1..])
       case Some(m) => Some(h * 60 + m)
       case None => None)
    case _ => None
  }

  /** A duration label reads back as its hours times 60 plus its minutes. */
  lemma DurationOfLabel(h: nat, m: nat)
    requires h < 100 && m < 100
    ensures DurationMinutes(ClockLabel(h, m)) == Some(h * 60 + m)
  {
    var s := ClockLabel(h, m);
    assert s == Pad2(h) + (":" + Pad2(m));
    LeadingIntPad2(h, ":" + Pad2(m));
    assert s[..2] == Pad2(h);
    assert ':' !in s[..2];
    assert FirstColon(s) == Some(2);
    assert s[3..] == Pad2(m) + [];
    LeadingIntPad2(m, []);
  }

  /** On a time of day below 24:00 the two readings agree: `split` and
      `parseInt` give the same minutes as the ISO reading. */
  lemma DurationOfClock(s: string)
    requires ParseClock(s).Some? && ParseClock(s).value < 24 * 60
    ensures DurationMinutes(s) == ParseClock(s)
  {
    var v := ParseClock(s).value;
    ParseClockRoundTrip(s);
    DurationOfLabel(v / 60, v % 60);
  }
}
