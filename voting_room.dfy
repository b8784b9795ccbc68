/** The voting page (src/pages/VotingRoom.tsx): the duplicate-voter guard,
    the vote appended to the chosen slots, the select/deselect toggle, the
    groupings by weekday and by day, and the hour grid. Calendar projections
    of a slot's `dateTime` (its weekday name, its day key, its instant, its
    UTC day and time of day) are parameters. */
module VotingRoom {

  import opened Types
  import opened Text
  import opened Clock
  import opened Seqs
  import opened Sorting
  import opened SlotIds
  import opened Adapt
  import opened VoteSchema

  // ---------------------------------------------------------------- submit

  /** `timeSlot.Vote.some((vote) => vote.userName === name)`. */
  predicate SomeVoteBy(votes: seq<RoomVote>, name: string) {
    votes != [] && (votes[0].userName == name || SomeVoteBy(votes[1..], name))
  }

  /** `room.Time.some(...)`: somebody already voted under this name. */
  predicate UserAlreadyVoted(times: seq<RoomTime>, name: string) {
    times != [] && (SomeVoteBy(times[0].votes, name) || UserAlreadyVoted(times[1..], name))
  }

  lemma {:induction false} SomeVoteByIff(votes: seq<RoomVote>, name: string)
    ensures SomeVoteBy(votes, name) <==> exists j :: 0 <= j < |votes| && votes[j].userName == name
  {
    if votes != [] {
      SomeVoteByIff(votes[1..], name);
      if SomeVoteBy(votes[1..], name) {
        var j :| 0 <= j < |votes[1..]| && votes[1..][j].userName == name;
        assert votes[j + 1] == votes[1..][j];
      }
      if exists j :: 0 <= j < |votes| && votes[j].userName == name {
        var j :| 0 <= j < |votes| && votes[j].userName == name;
        if j > 0 {
          assert votes[1..][j - 1] == votes[j];
        }
      }
    }
  }

  /** The guard fires exactly when some vote record of some Time carries the name. */
  lemma {:induction false} UserAlreadyVotedIff(times: seq<RoomTime>, name: string)
    ensures UserAlreadyVoted(times, name) <==>
            exists i, j :: 0 <= i < |times| && 0 <= j < |times[i].votes| && times[i].votes[j].userName == name
  {
    if times != [] {
      UserAlreadyVotedIff(times[1..], name);
      SomeVoteByIff(times[0].votes, name);
      if UserAlreadyVoted(times[1..], name) {
        var i, j :| 0 <= i < |times[1..]| && 0 <= j < |times[1..][i].votes| && times[1..][i].votes[j].userName == name;
        assert times[i + 1] == times[1..][i];
      }
      if exists i, j :: 0 <= i < |times| && 0 <= j < |times[i].votes| && times[i].votes[j].userName == name {
        var i, j :| 0 <= i < |times| && 0 <= j < |times[i].votes| && times[i].votes[j].userName == name;
        if i > 0 {
          assert times[1..][i - 1] == times[i];
        }
      }
    }
  }

  /** `{ name, email: data.email || undefined, timeSlots: convertTimeSlotsToUUIDs(...) }`. */
  function NewVote(data: VoteForm, room: Room): (v: Vote)
    ensures v.name == data.name
    ensures v.email.None? <==> data.email.None? || data.email.value == ""
    ensures v.email.Some? ==> v.email == data.email
    ensures |v.timeSlots| <= |data.selectedSlots|
    ensures v.timeSlots == ConvertTimeSlotsToUuids(data.selectedSlots, Some(room))
  {
    var email := if data.email.Some? && data.email.value != "" then data.email else None;
    Vote(data.name, email, ConvertTimeSlotsToUuids(data.selectedSlots, Some(room)))
  }

  /** `timeSlots.map(...)`: the vote is appended to every slot whose
      `dateTime` was selected. */
  function ApplyVote(slots: seq<TimeSlot>, selected: seq<string>, vote: Vote): (r: seq<TimeSlot>)
    ensures |r| == |slots|
    ensures forall i :: 0 <= i < |slots| && slots[i].dateTime in selected ==>
              r[i] == slots[i].(votes := slots[i].votes + [vote])
    ensures forall i :: 0 <= i < |slots| && slots[i].dateTime !in selected ==> r[i] == slots[i]
  {
    seq(|slots|, i requires 0 <= i < |slots| =>
      if slots[i].dateTime in selected then slots[i].(votes := slots[i].votes + [vote]) else slots[i])
  }

  function TotalVotes(slots: seq<TimeSlot>): nat {
    if slots == [] then 0 else |slots[0].votes| + TotalVotes(slots[1..])
  }

  /** The number of slots whose `dateTime` is selected. */
  function SelectedCount(slots: seq<TimeSlot>, selected: seq<string>): nat {
    if slots == [] then 0
    else (if slots[0].dateTime in selected then 1 else 0) + SelectedCount(slots[1..], selected)
  }

  /** Applying a vote adds exactly one vote per selected slot, and keeps every
      earlier vote where it was. */
  lemma {:induction false} ApplyVoteTotal(slots: seq<TimeSlot>, selected: seq<string>, vote: Vote)
    ensures TotalVotes(ApplyVote(slots, selected, vote)) == TotalVotes(slots) + SelectedCount(slots, selected)
    ensures forall i :: 0 <= i < |slots| ==>
              ApplyVote(slots, selected, vote)[i].votes[..|slots[i].votes|] == slots[i].votes
  {
    if slots != [] {
      ApplyVoteTotal(slots[1..], selected, vote);
      assert ApplyVote(slots, selected, vote)[1..] == ApplyVote(slots[1..], selected, vote);
    }
    forall i | 0 <= i < |slots|
      ensures ApplyVote(slots, selected, vote)[i].votes[..|slots[i].votes|] == slots[i].votes
    {
      if slots[i].dateTime in selected {
        assert (slots[i].votes + [vote])[..|slots[i].votes|] == slots[i].votes;
      }
    }
  }

  /** With nothing selected the slots are unchanged. */
  lemma ApplyNothing(slots: seq<TimeSlot>, vote: Vote)
    ensures ApplyVote(slots, [], vote) == slots
  {
  }

  /** What `onSubmit` ended with. */
  datatype SubmitOutcome =
    | Invalid          // the form's rules rejected the values; `onSubmit` never ran
    | NoRoom           // no room loaded yet
    | AlreadyVoted     // the name already has a vote in this room
    | Posted(vote: Vote)
    | PostFailed(vote: Vote)

  // ---------------------------------------------------------------- selection

  /** `currentSlots.filter((slot) => slot !== id)`. */
  function RemoveAll(s: seq<string>, x: string): (r: seq<string>)
    ensures x !in r
    ensures forall y :: y != x ==> (y in r <==> y in s)
    ensures |r| <= |s|
  {
    if s == [] then []
    else if s[0] == x then RemoveAll(s[1..], x)
    else [s[0]] + RemoveAll(s[1..], x)
  }

  /** The filter keeps every other id as many times as it occurs, in order. */
  lemma {:induction false} RemoveAllCounts(s: seq<string>, x: string)
    ensures IsSubsequence(RemoveAll(s, x), s)
    ensures forall y :: multiset(RemoveAll(s, x))[y] == if y == x then 0 else multiset(s)[y]
  {
    if s != [] {
      assert s == [s[0]] + s[1..];
      RemoveAllCounts(s[1..], x);
      var r := RemoveAll(s[1..], x);
      if s[0] != x {
        assert RemoveAll(s, x) == [s[0]] + r;
        assert ([s[0]] + r)[1..] == r;
      } else {
        assert IsSubsequence(r, s) by {
          if r != [] {
            assert r[0] != s[0];
          }
        }
      }
    }
  }

  /** `handleSlotClick`: a selected id is removed everywhere it occurs, an
      unselected one is appended. */
  function Toggle(cur: seq<string>, id: string): (r: seq<string>)
    ensures id in r <==> id !in cur
    ensures forall y :: y != id ==> (y in r <==> y in cur)
    ensures id !in cur ==> r == cur + [id]
  {
    if id in cur then RemoveAll(cur, id) else cur + [id]
  }

  predicate Distinct(s: seq<string>) {
    forall i, j :: 0 <= i < j < |s| ==> s[i] != s[j]
  }

  lemma {:induction false} RemoveAllAbsent(s: seq<string>, x: string)
    requires x !in s
    ensures RemoveAll(s, x) == s
  {
    if s != [] {
      RemoveAllAbsent(s[1..], x);
      assert s == [s[0]] + s[1..];
    }
  }

  lemma {:induction false} RemoveAllLast(s: seq<string>, x: string)
    ensures RemoveAll(s + [x], x) == RemoveAll(s, x)
  {
    if s == [] {
      assert [x][1..] == [];
    } else {
      assert (s + [x])[1..] == s[1..] + [x];
      RemoveAllLast(s[1..], x);
    }
  }

  /** Two clicks on an id that was not selected restore the selection. */
  lemma ToggleTwice(cur: seq<string>, id: string)
    requires id !in cur
    ensures Toggle(Toggle(cur, id), id) == cur
  {
    RemoveAllLast(cur, id);
    RemoveAllAbsent(cur, id);
  }

  lemma {:induction false} RemoveAllDistinct(s: seq<string>, x: string)
    requires Distinct(s)
    ensures Distinct(RemoveAll(s, x))
  {
    if s != [] {
      assert Distinct(s[1..]) by {
        forall i, j | 0 <= i < j < |s[1..]| ensures s[1..][i] != s[1..][j] {
          assert s[1..][i] == s[i + 1] && s[1..][j] == s[j + 1];
        }
      }
      RemoveAllDistinct(s[1..], x);
      if s[0] != x {
        var rest := RemoveAll(s[1..], x);
        assert s[0] !in s[1..] by {
          forall k | 0 <= k < |s[1..]| ensures s[1..][k] != s[0] {
            assert s[1..][k] == s[k + 1];
          }
        }
        assert s[0] !in rest;
        var r := [s[0]] + rest;
        forall i, j | 0 <= i < j < |r| ensures r[i] != r[j] {
          assert r[j] == rest[j - 1];
          if i > 0 {
            assert r[i] == rest[i - 1];
          }
        }
      }
    }
  }

  /** Toggling never puts an id in the selection twice. */
  lemma ToggleDistinct(cur: seq<string>, id: string)
    requires Distinct(cur)
    ensures Distinct(Toggle(cur, id))
  {
    if id in cur {
      RemoveAllDistinct(cur, id);
    } else {
      var r := cur + [id];
      forall i, j | 0 <= i < j < |r| ensures r[i] != r[j] {
        if j == |cur| {
          assert r[i] == cur[i];
        } else {
          assert r[i] == cur[i] && r[j] == cur[j];
        }
      }
    }
  }

  function DateTimeOf(s: TimeSlot): string {
    s.dateTime
  }

  /** `timeSlots.find((slot) => slot.dateTime === selectedSlots[0]) || null`:
      the first slot at the first selected date-time; nothing when the
      selection is empty. */
  function SelectedSlotForVoters(slots: seq<TimeSlot>, selected: seq<string>): (r: Option<TimeSlot>)
    ensures selected == [] ==> r.None?
    ensures selected != [] ==> (r.None? <==> forall i :: 0 <= i < |slots| ==> slots[i].dateTime != selected[0])
    ensures r.Some? ==> r.value in slots && r.value.dateTime == selected[0]
    ensures r.Some? ==> exists i :: 0 <= i < |slots| && slots[i] == r.value &&
                                    forall j :: 0 <= j < i ==> slots[j].dateTime != selected[0]
  {
    if selected == [] then None
    else
      var r := FindKey(slots, DateTimeOf, selected[0]);
      assert forall i :: 0 <= i < |slots| ==> DateTimeOf(slots[i]) == slots[i].dateTime;
      assert r.Some? ==> r.value in slots;
      r
  }

  /** After `handleShowVoters(slot)` the dialog shows a slot at that slot's
      date-time, and the first one there. */
  lemma ShowVotersFinds(slots: seq<TimeSlot>, i: nat)
    requires i < |slots|
    ensures var r := SelectedSlotForVoters(slots, [slots[i].dateTime]);
            r.Some? && r.value.dateTime == slots[i].dateTime &&
            exists k :: 0 <= k <= i && slots[k] == r.value &&
                        forall j :: 0 <= j < k ==> slots[j].dateTime != slots[i].dateTime
  {
    var r := FindKey(slots, DateTimeOf, slots[i].dateTime);
    assert DateTimeOf(slots[i]) == slots[i].dateTime;
    var k :| 0 <= k < |slots| && slots[k] == r.value && DateTimeOf(slots[k]) == slots[i].dateTime &&
             forall j :: 0 <= j < k ==> DateTimeOf(slots[j]) != slots[i].dateTime;
    assert k <= i;
  }

  // ---------------------------------------------------------------- groupings

  /** A slot's group key: a calendar projection of its `dateTime`. */
  function ByDay(dayOf: string -> string): TimeSlot -> string {
    (s: TimeSlot) => dayOf(s.dateTime)
  }

  /** A slot's sort key: the instant of its `dateTime`, in minutes. */
  function ByInstant(instantOf: string -> int): TimeSlot -> int {
    (s: TimeSlot) => instantOf(s.dateTime)
  }

  /** The keys of an object filled slot by slot, in the order
      `Object.keys` lists them: first insertion first. */
  function FirstSeenKeys(slots: seq<TimeSlot>, key: TimeSlot -> string): seq<string> {
    if slots == [] then []
    else
      var prev := FirstSeenKeys(slots[..|slots| - 1], key);
      var k := key(slots[|slots| - 1]);
      if k in prev then prev else prev + [k]
  }

  /** Every key once. */
  lemma {:induction false} FirstSeenDistinct(slots: seq<TimeSlot>, key: TimeSlot -> string)
    ensures Distinct(FirstSeenKeys(slots, key))
  {
    if slots != [] {
      var p := slots[..|slots| - 1];
      var k := key(slots[|slots| - 1]);
      var prev := FirstSeenKeys(p, key);
      FirstSeenDistinct(p, key);
      if k !in prev {
        var r := prev + [k];
        forall i, j | 0 <= i < j < |r| ensures r[i] != r[j] {
          assert r[i] == prev[i];
          if j < |prev| {
            assert r[j] == prev[j];
          }
        }
      }
    }
  }

  /** Exactly the keys of the slots. */
  lemma {:induction false} FirstSeenMembers(slots: seq<TimeSlot>, key: TimeSlot -> string)
    ensures forall i :: 0 <= i < |slots| ==> key(slots[i]) in FirstSeenKeys(slots, key)
    ensures forall j :: 0 <= j < |FirstSeenKeys(slots, key)| ==>
              exists i :: 0 <= i < |slots| && key(slots[i]) == FirstSeenKeys(slots, key)[j]
  {
    if slots != [] {
      var p := slots[..|slots| - 1];
      var k := key(slots[|slots| - 1]);
      var prev := FirstSeenKeys(p, key);
      FirstSeenMembers(p, key);
      assert forall i :: 0 <= i < |p| ==> p[i] == slots[i];
      var r := FirstSeenKeys(slots, key);
      forall j | 0 <= j < |r| ensures exists i :: 0 <= i < |slots| && key(slots[i]) == r[j] {
        if j < |prev| {
          assert r[j] == prev[j];
          var i :| 0 <= i < |p| && key(p[i]) == prev[j];
          assert key(slots[i]) == r[j];
        } else {
          assert key(slots[|slots| - 1]) == r[j];
        }
      }
    } else {
      assert FirstSeenKeys(slots, key) == [];
    }
  }

  /** One more slot: the keys grow by its key if that key is new. */
  lemma FirstSeenSnoc(slots: seq<TimeSlot>, i: nat, key: TimeSlot -> string)
    requires i < |slots|
    ensures FirstSeenKeys(slots[..i + 1], key) ==
            if key(slots[i]) in FirstSeenKeys(slots[..i], key) then FirstSeenKeys(slots[..i], key)
            else FirstSeenKeys(slots[..i], key) + [key(slots[i])]
  {
    assert slots[..i + 1][..i] == slots[..i];
  }

  /** One more slot: it joins the list of its own key only. */
  lemma WithKeySnoc(s: seq<TimeSlot>, x: TimeSlot, key: TimeSlot -> string, k: string)
    ensures WithKey(s + [x], key, k) == if key(x) == k then WithKey(s, key, k) + [x] else WithKey(s, key, k)
  {
    WithKeyAppend(s, [x], key, k);
    assert [x][1..] == [];
  }

  /** The grouping loop of lines 71-78 (and the `reduce` of lines 136-143):
      each slot is pushed onto the list of its key, a key's list being
      created on first sight. */
  method GroupBy(slots: seq<TimeSlot>, key: TimeSlot -> string) returns (groups: map<string, seq<TimeSlot>>, keys: seq<string>)
    ensures keys == FirstSeenKeys(slots, key)
    ensures forall k :: k in groups <==> k in keys
    ensures forall k :: k in groups ==> groups[k] == WithKey(slots, key, k)
  {
    groups := map[];
    keys := [];
    for i := 0 to |slots|
      invariant keys == FirstSeenKeys(slots[..i], key)
      invariant forall k :: k in groups <==> k in keys
      invariant forall k :: k in groups ==> groups[k] == WithKey(slots[..i], key, k)
      invariant forall k :: k !in groups ==> WithKey(slots[..i], key, k) == []
    {
      var slot := slots[i];
      var day := key(slot);
      FirstSeenSnoc(slots, i, key);
      assert slots[..i + 1] == slots[..i] + [slot];
      ghost var before := groups;
      if day !in groups {
        groups := groups[day := []];
        keys := keys + [day];
      }
      groups := groups[day := groups[day] + [slot]];
      forall k ensures k in groups ==> groups[k] == WithKey(slots[..i + 1], key, k)
                ensures k !in groups ==> WithKey(slots[..i + 1], key, k) == []
      {
        WithKeySnoc(slots[..i], slot, key, k);
        if k != day {
          assert k in groups <==> k in before;
        }
      }
    }
    assert slots[..|slots|] == slots;
  }

  /** The spec of one weekday group: the slots of that weekday, in ascending
      order of instant, ties in list order. */
  function WeekdayGroup(slots: seq<TimeSlot>, weekdayOf: string -> string, instantOf: string -> int, day: string): (r: seq<TimeSlot>)
    ensures |r| == |WithKey(slots, ByDay(weekdayOf), day)|
  {
    SortByKey(WithKey(slots, ByDay(weekdayOf), day), ByInstant(instantOf))
  }

  /** Sorting a weekday's list gives that weekday's group. */
  lemma SortedGroup(slots: seq<TimeSlot>, weekdayOf: string -> string, instantOf: string -> int, day: string, g: seq<TimeSlot>)
    requires g == WithKey(slots, ByDay(weekdayOf), day)
    ensures SortByKey(g, ByInstant(instantOf)) == WeekdayGroup(slots, weekdayOf, instantOf, day)
  {
  }

  /** `groupedSlots`: group by weekday, then sort each group in place by
      `compareAsc` of the parsed date-times. */
  method GroupByWeekday(slots: seq<TimeSlot>, weekdayOf: string -> string, instantOf: string -> int)
    returns (groups: map<string, seq<TimeSlot>>, keys: seq<string>)
    ensures keys == FirstSeenKeys(slots, ByDay(weekdayOf))
    ensures forall k :: k in groups <==> k in keys
    ensures forall k :: k in groups ==> groups[k] == WeekdayGroup(slots, weekdayOf, instantOf, k)
  {
    groups, keys := GroupBy(slots, ByDay(weekdayOf));
    FirstSeenDistinct(slots, ByDay(weekdayOf));
    for j := 0 to |keys|
      invariant forall k :: k in groups <==> k in keys
      invariant forall k :: k in groups && k in keys[..j] ==> groups[k] == WeekdayGroup(slots, weekdayOf, instantOf, k)
      invariant forall k :: k in groups && k !in keys[..j] ==> groups[k] == WithKey(slots, ByDay(weekdayOf), k)
    {
      var day := keys[j];
      assert keys[..j + 1] == keys[..j] + [day];
      assert day !in keys[..j] by {
        forall m | 0 <= m < j ensures keys[..j][m] != day {
          assert keys[..j][m] == keys[m];
        }
      }
      var sorted := SortByKey(groups[day], ByInstant(instantOf));
      SortedGroup(slots, weekdayOf, instantOf, day, groups[day]);
      groups := groups[day := sorted];
    }
    assert keys[..|keys|] == keys;
  }

  /** The weekday groups partition the slots: every slot is in the group of
      its weekday, every member of a group has that weekday, and each group
      is a permutation of its slots sorted ascending by instant. */
  lemma WeekdayGroupsPartition(slots: seq<TimeSlot>, weekdayOf: string -> string, instantOf: string -> int, day: string)
    ensures var g := WeekdayGroup(slots, weekdayOf, instantOf, day);
            multiset(g) == multiset(WithKey(slots, ByDay(weekdayOf), day)) &&
            SortedBy(g, ByInstant(instantOf)) &&
            (forall k :: 0 <= k < |g| ==> weekdayOf(g[k].dateTime) == day && g[k] in slots) &&
            (forall i :: 0 <= i < |slots| && weekdayOf(slots[i].dateTime) == day ==> slots[i] in g)
  {
    var w := WithKey(slots, ByDay(weekdayOf), day);
    var g := WeekdayGroup(slots, weekdayOf, instantOf, day);
    SortByKeySorted(w, ByInstant(instantOf));
    WithKeyMembers(slots, ByDay(weekdayOf), day);
    SubsequenceElements(w, slots);
    forall k | 0 <= k < |g| ensures weekdayOf(g[k].dateTime) == day && g[k] in slots {
      assert g[k] in multiset(w);
      var m :| 0 <= m < |w| && w[m] == g[k];
      assert ByDay(weekdayOf)(w[m]) == day;
    }
    forall i | 0 <= i < |slots| && weekdayOf(slots[i].dateTime) == day ensures slots[i] in g {
      assert ByDay(weekdayOf)(slots[i]) == day;
      assert slots[i] in multiset(w);
    }
  }

  /** `Object.keys(groupedTimeSlots).sort()`. */
  function SortedDates(slots: seq<TimeSlot>, dayOf: string -> string): (r: seq<string>)
    ensures StrSorted(r)
    ensures multiset(r) == multiset(FirstSeenKeys(slots, ByDay(dayOf)))
  {
    SortStrings(FirstSeenKeys(slots, ByDay(dayOf)))
  }

  lemma {:induction false} DistinctCount(s: seq<string>, x: string)
    requires Distinct(s)
    ensures multiset(s)[x] <= 1
  {
    if s != [] {
      assert s == [s[0]] + s[1..];
      assert Distinct(s[1..]) by {
        forall i, j | 0 <= i < j < |s[1..]| ensures s[1..][i] != s[1..][j] {
          assert s[1..][i] == s[i + 1] && s[1..][j] == s[j + 1];
        }
      }
      DistinctCount(s[1..], x);
      if s[0] == x {
        assert x !in s[1..] by {
          forall k | 0 <= k < |s[1..]| ensures s[1..][k] != x {
            assert s[1..][k] == s[k + 1];
          }
        }
      }
    }
  }

  lemma CountTwo(s: seq<string>, i: nat, j: nat)
    requires i < j < |s| && s[i] == s[j]
    ensures multiset(s)[s[i]] >= 2
  {
    assert s == s[..i] + [s[i]] + s[i + 1..j] + [s[j]] + s[j + 1..];
  }

  /** The day columns: every day key once, in ascending string order, and a
      key is a column exactly when some slot falls on that day. */
  lemma SortedDatesSpec(slots: seq<TimeSlot>, dayOf: string -> string)
    ensures var r := SortedDates(slots, dayOf);
            StrSorted(r) && Distinct(r) &&
            (forall i :: 0 <= i < |slots| ==> dayOf(slots[i].dateTime) in r) &&
            (forall j :: 0 <= j < |r| ==> exists i :: 0 <= i < |slots| && dayOf(slots[i].dateTime) == r[j])
  {
    var keys := FirstSeenKeys(slots, ByDay(dayOf));
    var r := SortedDates(slots, dayOf);
    FirstSeenDistinct(slots, ByDay(dayOf));
    FirstSeenMembers(slots, ByDay(dayOf));
    assert multiset(r) == multiset(keys);
    forall i, j | 0 <= i < j < |r| ensures r[i] != r[j] {
      if r[i] == r[j] {
        CountTwo(r, i, j);
        DistinctCount(keys, r[i]);
      }
    }
    forall i | 0 <= i < |slots| ensures dayOf(slots[i].dateTime) in r {
      assert ByDay(dayOf)(slots[i]) in keys;
      assert ByDay(dayOf)(slots[i]) in multiset(keys);
    }
    forall j | 0 <= j < |r| ensures exists i :: 0 <= i < |slots| && dayOf(slots[i].dateTime) == r[j] {
      assert r[j] in multiset(keys);
      var m :| 0 <= m < |keys| && keys[m] == r[j];
      var i :| 0 <= i < |slots| && ByDay(dayOf)(slots[i]) == keys[m];
    }
  }

  // ---------------------------------------------------------------- hour grid

  /** A slot's cell coordinates: its UTC day key and its UTC "HH:mm". */
  function CellKey(dateOf: string -> string, timeOf: string -> string): TimeSlot -> (string, string) {
    (s: TimeSlot) => (dateOf(s.dateTime), timeOf(s.dateTime))
  }

  /** The cell of column `date` and row `hour` (whose label is
      `HourLabels()[hour]`): the first slot on that day whose time of day is
      exactly the row's label, or nothing. */
  function GridCell(slots: seq<TimeSlot>, date: string, hour: nat, dateOf: string -> string, timeOf: string -> string): (r: Option<TimeSlot>)
    requires hour < 24
    ensures r.None? <==> forall i :: 0 <= i < |slots| ==>
              !(dateOf(slots[i].dateTime) == date && timeOf(slots[i].dateTime) == HourLabel(hour))
    ensures r.Some? ==>
              (exists i :: 0 <= i < |slots| && slots[i] == r.value &&
                 dateOf(slots[i].dateTime) == date && timeOf(slots[i].dateTime) == HourLabel(hour) &&
                 forall j :: 0 <= j < i ==> !(dateOf(slots[j].dateTime) == date && timeOf(slots[j].dateTime) == HourLabel(hour)))
  {
    var key := CellKey(dateOf, timeOf);
    var r := FindKey(slots, key, (date, HourLabel(hour)));
    assert forall i :: 0 <= i < |slots| ==> key(slots[i]) == (dateOf(slots[i].dateTime), timeOf(slots[i].dateTime));
    r
  }

  // ---------------------------------------------------------------- page state

  /** The page's state: the loaded room, the displayed slots, the form's
      fields, and the votes handed to `postVote`, in order. */
  class VotingRoomPage {
    var room: Option<Room>
    var timeSlots: seq<TimeSlot>
    var name: string
    var email: string
    var selectedSlots: seq<string>
    var showVotersDialog: bool
    var posted: seq<Vote>

    /** The defaults of `useState` and `useForm`. */
    constructor()
      ensures room == None && timeSlots == [] && posted == []
      ensures name == "" && email == "" && selectedSlots == [] && !showVotersDialog
    {
      room := None;
      timeSlots := [];
      name := "";
      email := "";
      selectedSlots := [];
      showVotersDialog := false;
      posted := [];
    }

    /** `fetchRoom` succeeded: keep the room and its adapted slots. */
    method Load(apiRoom: Room, zonedIso: string -> string)
      modifies this
      ensures room == Some(apiRoom) && timeSlots == AdaptTimeSlots(apiRoom, zonedIso)
      ensures name == old(name) && email == old(email) && selectedSlots == old(selectedSlots)
      ensures showVotersDialog == old(showVotersDialog) && posted == old(posted)
    {
      room := Some(apiRoom);
      timeSlots := AdaptTimeSlots(apiRoom, zonedIso);
    }

    /** The values the form hands to `onSubmit`: the typed name and email
        and the selection kept under `selectedSlots`. */
    function Form(): VoteForm
      reads this
    {
      VoteForm(name, Some(email), selectedSlots)
    }

    /** Typing into the name input (`register('name')`). */
    method TypeName(text: string)
      modifies this
      ensures name == text && Form().name == text
      ensures room == old(room) && timeSlots == old(timeSlots) && posted == old(posted)
      ensures email == old(email) && selectedSlots == old(selectedSlots) && showVotersDialog == old(showVotersDialog)
    {
      name := text;
    }

    /** Typing into the email input (`register('email')`). */
    method TypeEmail(text: string)
      modifies this
      ensures email == text && Form().email == Some(text)
      ensures room == old(room) && timeSlots == old(timeSlots) && posted == old(posted)
      ensures name == old(name) && selectedSlots == old(selectedSlots) && showVotersDialog == old(showVotersDialog)
    {
      email := text;
    }

    /** `handleSubmit(onSubmit)` on the current form values: the form's rules
        run first; without a room or with a name that already voted nothing
        changes. Otherwise the slots are updated and the vote is posted
        before the outcome is known, so a failed post keeps the updated
        slots; only a successful post clears the form. */
    method Submit(postOk: bool) returns (outcome: SubmitOutcome)
      modifies this
      ensures room == old(room) && showVotersDialog == old(showVotersDialog)
      ensures !ValidVote(old(Form())) ==> outcome == Invalid
      ensures ValidVote(old(Form())) && old(room).None? ==> outcome == NoRoom
      ensures ValidVote(old(Form())) && old(room).Some? && UserAlreadyVoted(old(room).value.times, old(name)) ==>
                outcome == AlreadyVoted
      ensures outcome.Invalid? || outcome.NoRoom? || outcome.AlreadyVoted? ==>
                timeSlots == old(timeSlots) && posted == old(posted) &&
                name == old(name) && email == old(email) && selectedSlots == old(selectedSlots)
      ensures ValidVote(old(Form())) && old(room).Some? && !UserAlreadyVoted(old(room).value.times, old(name)) ==>
                var v := NewVote(old(Form()), old(room).value);
                timeSlots == ApplyVote(old(timeSlots), old(selectedSlots), v) &&
                posted == old(posted) + [v] &&
                (postOk ==> outcome == Posted(v) && name == "" && email == "" && selectedSlots == []) &&
                (!postOk ==> outcome == PostFailed(v) && name == old(name) && email == old(email) &&
                             selectedSlots == old(selectedSlots))
    {
      var data := Form();
      if !ValidVote(data) {
        return Invalid;
      }
      if room.None? {
        return NoRoom;
      }
      var r := room.value;
      if UserAlreadyVoted(r.times, data.name) {
        return AlreadyVoted;
      }
      var v := NewVote(data, r);
      timeSlots := ApplyVote(timeSlots, data.selectedSlots, v);
      posted := posted + [v];
      if !postOk {
        return PostFailed(v);
      }
      name := "";
      email := "";
      selectedSlots := [];
      outcome := Posted(v);
    }

    /** `handleSlotClick(dateTime)`. */
    method SlotClick(dateTime: string)
      modifies this
      ensures selectedSlots == Toggle(old(selectedSlots), dateTime)
      ensures room == old(room) && timeSlots == old(timeSlots) && posted == old(posted)
      ensures name == old(name) && email == old(email) && showVotersDialog == old(showVotersDialog)
    {
      selectedSlots := Toggle(selectedSlots, dateTime);
    }

    /** `handleShowVoters(slot)`: the selection becomes exactly that slot's
        date-time and the voters dialog opens. */
    method ShowVoters(slot: TimeSlot)
      modifies this
      ensures selectedSlots == [slot.dateTime] && showVotersDialog
      ensures room == old(room) && timeSlots == old(timeSlots) && posted == old(posted)
      ensures name == old(name) && email == old(email)
    {
      selectedSlots := [slot.dateTime];
      showVotersDialog := true;
    }
  }
}
