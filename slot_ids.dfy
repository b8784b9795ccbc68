/** Resolving the selected start strings to backend Time ids
    (src/utils/convertTimeSlotsToUUIDs.ts): `map` each string to the id of
    the first Time that starts there or to null, then drop the nulls. */
module SlotIds {

  import opened Types
  import opened Seqs

  function StartOf(t: RoomTime): string {
    t.start
  }

  /** `room.Time.find((slot) => slot.start === selectedTime)?.timeId ?? null`. */
  function ResolveOne(times: seq<RoomTime>, selected: string): (r: Option<string>)
    ensures r.None? <==> forall i :: 0 <= i < |times| ==> times[i].start != selected
    ensures r.Some? ==> exists i :: 0 <= i < |times| && times[i].start == selected && times[i].timeId == r.value &&
                                    forall j :: 0 <= j < i ==> times[j].start != selected
  {
    match FindKey(times, StartOf, selected)
    case None => None
    case Some(t) => Some(t.timeId)
  }

  /** `.filter((uuid) => uuid !== null)`. */
  function DropMisses(xs: seq<Option<string>>): (r: seq<string>)
    ensures |r| <= |xs|
  {
    if xs == [] then []
    else match xs[0]
      case None => DropMisses(xs[1..])
      case Some(id) => [id] + DropMisses(xs[1..])
  }

  /** The `map` step: one lookup per selected string. */
  function Lookups(times: seq<RoomTime>, selected: seq<string>): (r: seq<Option<string>>)
    ensures |r| == |selected|
    ensures forall i :: 0 <= i < |selected| ==> r[i] == ResolveOne(times, selected[i])
  {
    seq(|selected|, i requires 0 <= i < |selected| => ResolveOne(times, selected[i]))
  }

  lemma LookupsTail(times: seq<RoomTime>, selected: seq<string>)
    requires selected != []
    ensures Lookups(times, selected) == [ResolveOne(times, selected[0])] + Lookups(times, selected[1..])
  {
  }

  /** `convertTimeSlotsToUUIDs`; a missing room gives the empty list. */
  function ConvertTimeSlotsToUuids(selected: seq<string>, room: Option<Room>): (r: seq<string>)
    ensures |r| <= |selected|
  {
    if room.None? then []
    else DropMisses(Lookups(room.value.times, selected))
  }

  predicate HasStart(times: seq<RoomTime>, s: string) {
    exists i :: 0 <= i < |times| && times[i].start == s
  }

  /** The selected strings that some Time starts at, in their order, repeats kept. */
  function Matched(selected: seq<string>, times: seq<RoomTime>): (r: seq<string>)
    ensures IsSubsequence(r, selected)
    ensures forall k :: 0 <= k < |r| ==> HasStart(times, r[k])
  {
    if selected == [] then []
    else if HasStart(times, selected[0]) then [selected[0]] + Matched(selected[1..], times)
    else Matched(selected[1..], times)
  }

  /** The output is exactly the ids of the matched strings, in the same order:
      the k-th id is that of the first Time starting at the k-th matched string. */
  lemma {:induction false} ResolvesMatched(selected: seq<string>, room: Room)
    ensures var r := ConvertTimeSlotsToUuids(selected, Some(room));
            var m := Matched(selected, room.times);
            |r| == |m| && forall k :: 0 <= k < |r| ==> ResolveOne(room.times, m[k]) == Some(r[k])
  {
    if selected != [] {
      ResolvesMatched(selected[1..], room);
      var lookups := Lookups(room.times, selected);
      LookupsTail(room.times, selected);
      assert lookups[1..] == Lookups(room.times, selected[1..]);
      if HasStart(room.times, selected[0]) {
        var i :| 0 <= i < |room.times| && room.times[i].start == selected[0];
        assert lookups[0].Some?;
      } else {
        assert lookups[0].None?;
      }
    }
  }

  /** When every selected string matches a start, nothing is dropped. */
  lemma {:induction false} AllMatchedKeepsLength(selected: seq<string>, room: Room)
    requires forall k :: 0 <= k < |selected| ==> HasStart(room.times, selected[k])
    ensures |ConvertTimeSlotsToUuids(selected, Some(room))| == |selected|
  {
    ResolvesMatched(selected, room);
    MatchedAll(selected, room.times);
  }

  lemma {:induction false} MatchedAll(selected: seq<string>, times: seq<RoomTime>)
    requires forall k :: 0 <= k < |selected| ==> HasStart(times, selected[k])
    ensures Matched(selected, times) == selected
  {
    if selected != [] {
      MatchedAll(selected[1..], times);
    }
  }

  /** A selected string that no Time starts at is silently dropped: the output is shorter. */
  lemma {:induction false} MissShortens(selected: seq<string>, room: Room, k: nat)
    requires k < |selected| && !HasStart(room.times, selected[k])
    ensures |ConvertTimeSlotsToUuids(selected, Some(room))| < |selected|
  {
    ResolvesMatched(selected, room);
    MatchedMissing(selected, room.times, k);
  }

  lemma {:induction false} MatchedMissing(selected: seq<string>, times: seq<RoomTime>, k: nat)
    requires k < |selected| && !HasStart(times, selected[k])
    ensures |Matched(selected, times)| < |selected|
  {
    SubsequenceElements(Matched(selected, times), selected);
    if k > 0 {
      assert selected[1..][k - 1] == selected[k];
      MatchedMissing(selected[1..], times, k - 1);
    } else {
      SubsequenceElements(Matched(selected[1..], times), selected[1..]);
    }
  }

  /** A room without Time entries resolves nothing. */
  lemma {:induction false} NoTimesNoIds(selected: seq<string>, room: Room)
    requires room.times == []
    ensures ConvertTimeSlotsToUuids(selected, Some(room)) == []
  {
    ResolvesMatched(selected, room);
  }
}
