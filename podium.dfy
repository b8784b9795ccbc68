/** The podium of the five most-voted slots (src/pages/VotingPodium.tsx):
    keep the slots with votes, sort them by vote count (most first, ties in
    input order), take five, give each a dense rank through a first-seen map
    from vote count to rank, and lay them out through the table [3,1,0,2,4]. */
module Podium {

  import opened Types
  import opened Seqs
  import opened Sorting

  const TopCount: nat := 5
  const PodiumOrder: seq<nat> := [3, 1, 0, 2, 4]
  const StyleCount: nat := 5

  function VoteCount(s: TimeSlot): nat {
    |s.votes|
  }

  /** The sort key of `(a, b) => b.votes.length - a.votes.length`: ascending in
      this key is descending in votes. */
  function ByVotesDesc(s: TimeSlot): int {
    -|s.votes|
  }

  /** `timeSlots.filter((slot) => slot.votes.length > 0)`. */
  function Voted(ts: seq<TimeSlot>): (r: seq<TimeSlot>)
    ensures |r| <= |ts|
  {
    if ts == [] then []
    else if |ts[0].votes| > 0 then [ts[0]] + Voted(ts[1..])
    else Voted(ts[1..])
  }

  /** The filter keeps exactly the slots with votes, in their order, each as
      many times as it occurs. */
  lemma {:induction false} VotedMembers(ts: seq<TimeSlot>)
    ensures IsSubsequence(Voted(ts), ts)
    ensures forall k :: 0 <= k < |Voted(ts)| ==> |Voted(ts)[k].votes| > 0
    ensures forall i :: 0 <= i < |ts| && |ts[i].votes| > 0 ==> ts[i] in Voted(ts)
    ensures forall x :: multiset(Voted(ts))[x] == if |x.votes| > 0 then multiset(ts)[x] else 0
  {
    if ts != [] {
      VotedMembers(ts[1..]);
      var r := Voted(ts[1..]);
      assert ts == [ts[0]] + ts[1..];
      if |ts[0].votes| > 0 {
        assert Voted(ts) == [ts[0]] + r;
        assert ([ts[0]] + r)[1..] == r;
      }
      forall i | 0 <= i < |ts| && |ts[i].votes| > 0 ensures ts[i] in Voted(ts) {
        if i > 0 { assert ts[i] == ts[1..][i - 1]; }
      }
    }
  }

  /** The voted slots, most votes first; a stable sort. */
  function Ranked(ts: seq<TimeSlot>): (r: seq<TimeSlot>)
    ensures |r| == |Voted(ts)| && multiset(r) == multiset(Voted(ts))
    ensures SortedBy(r, ByVotesDesc)
  {
    SortByKeySorted(Voted(ts), ByVotesDesc);
    SortByKey(Voted(ts), ByVotesDesc)
  }

  /** `votedSlots`: filter, sort, `slice(0, 5)`. */
  function VotedSlots(ts: seq<TimeSlot>): (r: seq<TimeSlot>)
    ensures |r| <= TopCount && |r| <= |Ranked(ts)| && r == Ranked(ts)[..|r|]
    ensures |r| < TopCount ==> r == Ranked(ts)
  {
    var sorted := Ranked(ts);
    if |sorted| <= TopCount then sorted else sorted[..TopCount]
  }

  /** Every slot of the sorted list is a voted slot of the input. */
  lemma RankedMembers(ts: seq<TimeSlot>, k: nat)
    requires k < |Ranked(ts)|
    ensures |Ranked(ts)[k].votes| > 0 && Ranked(ts)[k] in ts
  {
    var v := Voted(ts);
    VotedMembers(ts);
    SubsequenceElements(v, ts);
    var x := Ranked(ts)[k];
    assert x in multiset(Ranked(ts));
    assert x in multiset(v);
    var j :| 0 <= j < |v| && v[j] == x;
  }

  /** The selection holds only slots with votes, at most five of them, and
      exactly min(5, number of voted slots). */
  lemma SelectionOnlyVoted(ts: seq<TimeSlot>)
    ensures |VotedSlots(ts)| <= TopCount
    ensures |VotedSlots(ts)| == if |Voted(ts)| <= TopCount then |Voted(ts)| else TopCount
    ensures forall k :: 0 <= k < |VotedSlots(ts)| ==> |VotedSlots(ts)[k].votes| > 0 && VotedSlots(ts)[k] in ts
  {
    forall k | 0 <= k < |VotedSlots(ts)|
      ensures |VotedSlots(ts)[k].votes| > 0 && VotedSlots(ts)[k] in ts
    {
      RankedMembers(ts, k);
    }
  }

  /** The selection is in non-increasing order of votes. */
  lemma SelectionDescending(ts: seq<TimeSlot>)
    ensures forall i, j :: 0 <= i < j < |VotedSlots(ts)| ==> |VotedSlots(ts)[i].votes| >= |VotedSlots(ts)[j].votes|
  {
    var sorted := Ranked(ts);
    SortByKeySorted(Voted(ts), ByVotesDesc);
    forall i, j | 0 <= i < j < |VotedSlots(ts)|
      ensures |VotedSlots(ts)[i].votes| >= |VotedSlots(ts)[j].votes|
    {
      assert ByVotesDesc(sorted[i]) <= ByVotesDesc(sorted[j]);
    }
  }

  /** Ties keep their input order: for each vote count, the voted slots with
      that count come out of the sort in the order they came in. */
  lemma SelectionStable(ts: seq<TimeSlot>, votes: int)
    ensures WithKey(Ranked(ts), ByVotesDesc, -votes) == WithKey(Voted(ts), ByVotesDesc, -votes)
  {
    SortByKeyStable(Voted(ts), ByVotesDesc, -votes);
  }

  /** No voted slot left out of the selection has more votes than one in it. */
  lemma NoneLeftOutBeatsSelected(ts: seq<TimeSlot>, x: TimeSlot, y: TimeSlot)
    requires x in ts && |x.votes| > 0 && x !in VotedSlots(ts)
    requires y in VotedSlots(ts)
    ensures |x.votes| <= |y.votes|
  {
    var sorted := Ranked(ts);
    VotedMembers(ts);
    SortByKeySorted(Voted(ts), ByVotesDesc);
    assert x in Voted(ts);
    assert x in multiset(Voted(ts));
    assert x in multiset(sorted);
    var j :| 0 <= j < |sorted| && sorted[j] == x;
    var i :| 0 <= i < |VotedSlots(ts)| && VotedSlots(ts)[i] == y;
    assert j >= TopCount;
    assert sorted[i] == y;
    assert ByVotesDesc(sorted[i]) <= ByVotesDesc(sorted[j]);
  }

  // ---------------------------------------------------------------- ranks

  function Counts(vs: seq<TimeSlot>): (r: seq<nat>)
    ensures |r| == |vs| && forall i :: 0 <= i < |vs| ==> r[i] == |vs[i].votes|
  {
    seq(|vs|, i requires 0 <= i < |vs| => |vs[i].votes|)
  }

  /** The map the `forEach` builds: a count seen for the first time gets the
      next rank, and a count seen before keeps the rank it has. */
  function RankMapOf(counts: seq<nat>): (m: map<nat, nat>)
    ensures forall c :: c in m <==> c in counts
  {
    if counts == [] then map[]
    else
      var prefix := counts[..|counts| - 1];
      var c := counts[|counts| - 1];
      assert counts == prefix + [c];
      var prev := RankMapOf(prefix);
      if c in prev then prev else prev[c := |prev|]
  }

  /** Ranks are dense: every rank is below the number of distinct counts,
      which is at most the number of slots. */
  lemma {:induction false} RankMapBounds(counts: seq<nat>)
    ensures forall c :: c in RankMapOf(counts) ==> RankMapOf(counts)[c] < |RankMapOf(counts)|
    ensures |RankMapOf(counts)| <= |counts|
  {
    if counts != [] {
      var prefix := counts[..|counts| - 1];
      var c := counts[|counts| - 1];
      RankMapBounds(prefix);
      assert counts == prefix + [c];
      RankSnoc(prefix, c);
      var prev := RankMapOf(prefix);
      if c !in prev {
        assert prev[c := |prev|].Keys == prev.Keys + {c};
      }
    }
  }

  /** The rank assignment of VotingPodium.tsx, lines 53-63: a loop over the
      selection with a map and a running counter. */
  method RankMap(votedSlots: seq<TimeSlot>) returns (rankMap: map<nat, nat>)
    ensures rankMap == RankMapOf(Counts(votedSlots))
  {
    rankMap := map[];
    var currentRank := 0;
    for i := 0 to |votedSlots|
      invariant rankMap == RankMapOf(Counts(votedSlots[..i]))
      invariant currentRank == |rankMap|
    {
      assert Counts(votedSlots[..i + 1])[..i] == Counts(votedSlots[..i]);
      var votes := |votedSlots[i].votes|;
      if votes !in rankMap {
        rankMap := rankMap[votes := currentRank];
        currentRank := currentRank + 1;
      }
    }
    assert votedSlots[..|votedSlots|] == votedSlots;
  }

  predicate NonIncreasing(c: seq<nat>) {
    forall i, j :: 0 <= i < j < |c| ==> c[i] >= c[j]
  }

  /** One more count: a new count gets the next rank, a known one changes nothing. */
  lemma RankSnoc(p: seq<nat>, x: nat)
    ensures RankMapOf(p + [x]) ==
            if x in RankMapOf(p) then RankMapOf(p) else RankMapOf(p)[x := |RankMapOf(p)|]
  {
    assert (p + [x])[..|p|] == p;
  }

  /** Ranks given to a prefix are never changed by what follows. */
  lemma {:induction false} RankPrefixStable(c: seq<nat>, k: nat, v: nat)
    requires k <= |c| && v in RankMapOf(c[..k])
    ensures v in RankMapOf(c) && RankMapOf(c)[v] == RankMapOf(c[..k])[v]
    decreases |c|
  {
    if k < |c| {
      var p := c[..|c| - 1];
      assert p[..k] == c[..k];
      assert c == p + [c[|c| - 1]];
      RankPrefixStable(p, k, v);
      RankSnoc(p, c[|c| - 1]);
    } else {
      assert c[..k] == c;
    }
  }

  lemma NonIncreasingPrefix(c: seq<nat>, k: nat)
    requires NonIncreasing(c) && k <= |c|
    ensures NonIncreasing(c[..k])
  {
  }

  /** In a non-increasing list the last count holds the highest rank. */
  lemma {:induction false} LastHasTopRank(c: seq<nat>)
    requires |c| > 0 && NonIncreasing(c)
    ensures RankMapOf(c)[c[|c| - 1]] == |RankMapOf(c)| - 1
  {
    var p := c[..|c| - 1];
    var x := c[|c| - 1];
    assert c == p + [x];
    RankSnoc(p, x);
    if p != [] {
      NonIncreasingPrefix(c, |c| - 1);
      LastHasTopRank(p);
      if x in RankMapOf(p) {
        assert x in p;
        var j :| 0 <= j < |p| && p[j] == x;
        assert c[j] >= c[|p| - 1] >= x;
        assert p[|p| - 1] == x;
      }
    }
  }

  /** One more count, no larger than the last: on a tie it shares the last
      count's rank, otherwise it gets the next one. */
  lemma {:induction false} RankStepSnoc(p: seq<nat>, x: nat)
    requires |p| > 0 && NonIncreasing(p) && x <= p[|p| - 1]
    ensures p[|p| - 1] in RankMapOf(p + [x]) && x in RankMapOf(p + [x])
    ensures RankMapOf(p + [x])[x] == RankMapOf(p + [x])[p[|p| - 1]] + (if x == p[|p| - 1] then 0 else 1)
  {
    var y := p[|p| - 1];
    LastHasTopRank(p);
    RankSnoc(p, x);
    if x != y {
      forall j | 0 <= j < |p| ensures p[j] != x {
        assert p[j] >= y;
      }
      assert x !in p;
    }
  }

  /** Dense ranking step: the next slot keeps the rank on a tie and goes up by
      exactly one on a new, smaller count. */
  lemma {:induction false} RankStep(c: seq<nat>, i: nat)
    requires NonIncreasing(c) && i + 1 < |c|
    ensures RankMapOf(c)[c[i + 1]] == RankMapOf(c)[c[i]] + (if c[i + 1] == c[i] then 0 else 1)
  {
    var p := c[..i + 1];
    assert c[..i + 2] == p + [c[i + 1]];
    assert p[|p| - 1] == c[i];
    NonIncreasingPrefix(c, i + 1);
    RankStepSnoc(p, c[i + 1]);
    RankPrefixStable(c, i + 2, c[i]);
    RankPrefixStable(c, i + 2, c[i + 1]);
  }

  /** The first slot has rank 0. */
  lemma RankFirst(c: seq<nat>)
    requires |c| > 0
    ensures RankMapOf(c)[c[0]] == 0
  {
    assert c[..1] == [] + [c[0]];
    RankSnoc([], c[0]);
    RankPrefixStable(c, 1, c[0]);
  }

  /** Ranks that stay on a tie and go up by one on a smaller count never go
      down along a non-increasing run, and go up across a strict drop. */
  lemma {:induction false} StepsMonotone(c: seq<nat>, m: map<nat, nat>, i: nat, j: nat)
    requires i <= j < |c|
    requires forall k :: i <= k <= j ==> c[k] in m
    requires forall k :: i <= k < j ==> c[k] >= c[k + 1]
    requires forall k :: i <= k < j ==> m[c[k + 1]] == m[c[k]] + (if c[k + 1] == c[k] then 0 else 1)
    ensures m[c[i]] <= m[c[j]]
    ensures c[i] > c[j] ==> m[c[i]] < m[c[j]]
    decreases j - i
  {
    if i < j {
      StepsMonotone(c, m, i + 1, j);
    }
  }

  /** Every step of a non-increasing run is a dense-ranking step. */
  lemma RankSteps(c: seq<nat>, i: nat, j: nat)
    requires NonIncreasing(c) && i <= j < |c|
    ensures forall k :: i <= k <= j ==> c[k] in RankMapOf(c)
    ensures forall k :: i <= k < j ==>
              RankMapOf(c)[c[k + 1]] == RankMapOf(c)[c[k]] + (if c[k + 1] == c[k] then 0 else 1)
  {
    forall k | i <= k < j
      ensures RankMapOf(c)[c[k + 1]] == RankMapOf(c)[c[k]] + (if c[k + 1] == c[k] then 0 else 1)
    {
      RankStep(c, k);
    }
  }

  /** Equal counts share a rank; a strictly higher count has a strictly smaller rank. */
  lemma {:induction false} RankMonotone(c: seq<nat>, i: nat, j: nat)
    requires NonIncreasing(c) && i < j < |c|
    ensures RankMapOf(c)[c[i]] <= RankMapOf(c)[c[j]]
    ensures c[i] > c[j] ==> RankMapOf(c)[c[i]] < RankMapOf(c)[c[j]]
  {
    RankSteps(c, i, j);
    StepsMonotone(c, RankMapOf(c), i, j);
  }

  /** The worked example: counts [5,5,3,2,2] get ranks [0,0,1,2,2]. */
  lemma RankExample()
    ensures var m := RankMapOf([5, 5, 3, 2, 2]);
            m[5] == 0 && m[3] == 1 && m[2] == 2
  {
    var c: seq<nat> := [5, 5, 3, 2, 2];
    assert NonIncreasing(c);
    RankFirst(c);
    RankStep(c, 1);
    RankStep(c, 2);
  }

  /** The ranks of the podium's selection are dense: the top slot has rank
      0, the next slot keeps the rank on a tie and goes up by exactly one
      on fewer votes, and more votes always mean a smaller rank. */
  lemma PodiumRanksDense(ts: seq<TimeSlot>, i: nat, j: nat)
    requires i < j < |VotedSlots(ts)|
    ensures var v := VotedSlots(ts);
            var m := RankMapOf(Counts(v));
            |v[0].votes| in m && |v[i].votes| in m && |v[i + 1].votes| in m && |v[j].votes| in m &&
            m[|v[0].votes|] == 0 &&
            m[|v[i + 1].votes|] == m[|v[i].votes|] + (if |v[i + 1].votes| == |v[i].votes| then 0 else 1) &&
            m[|v[i].votes|] <= m[|v[j].votes|] &&
            (|v[i].votes| > |v[j].votes| ==> m[|v[i].votes|] < m[|v[j].votes|])
  {
    var v := VotedSlots(ts);
    var c := Counts(v);
    SelectionDescending(ts);
    assert NonIncreasing(c);
    RankFirst(c);
    RankStep(c, i);
    RankMonotone(c, i, j);
  }

  // ---------------------------------------------------------------- layout

  /** What one rendered podium position shows. */
  datatype Place = Place(slot: TimeSlot, rank: nat, styleIndex: nat)

  /** `Math.min(index, podiumStyles.length - 1)`. */
  function StyleIndex(index: nat): (r: nat)
    ensures r < StyleCount
    ensures index < StyleCount ==> r == index
  {
    if index < StyleCount - 1 then index else StyleCount - 1
  }

  /** Visual position `index` of the podium: the slot at `podiumOrder[index]`
      of the selection with its rank, or nothing when the selection is shorter. */
  function PlaceAt(votedSlots: seq<TimeSlot>, index: nat): (r: Option<Place>)
    requires index < |PodiumOrder|
    ensures r.Some? <==> PodiumOrder[index] < |votedSlots|
    ensures r.Some? ==> r.value.slot == votedSlots[PodiumOrder[index]]
    ensures r.Some? ==> r.value.rank < |votedSlots|
    ensures r.Some? ==> |r.value.slot.votes| in RankMapOf(Counts(votedSlots)) &&
                        r.value.rank == RankMapOf(Counts(votedSlots))[|r.value.slot.votes|]
    ensures r.Some? ==> r.value.styleIndex == StyleIndex(index)
  {
    var podiumIndex := PodiumOrder[index];
    if podiumIndex < |votedSlots| then
      var slot := votedSlots[podiumIndex];
      var rankMap := RankMapOf(Counts(votedSlots));
      assert Counts(votedSlots)[podiumIndex] == |slot.votes|;
      RankMapBounds(Counts(votedSlots));
      Some(Place(slot, rankMap[|slot.votes|], StyleIndex(index)))
    else None
  }

  /** The podium row: `podiumOrder.map(...)` over the selection. */
  function PodiumRow(ts: seq<TimeSlot>): (r: seq<Option<Place>>)
    ensures |r| == |PodiumOrder|
  {
    RowOf(VotedSlots(ts))
  }

  function RowOf(votedSlots: seq<TimeSlot>): (r: seq<Option<Place>>)
    ensures |r| == |PodiumOrder|
    ensures forall i :: 0 <= i < |PodiumOrder| ==> r[i] == PlaceAt(votedSlots, i)
  {
    seq(|PodiumOrder|, i requires 0 <= i < |PodiumOrder| => PlaceAt(votedSlots, i))
  }

  function Rendered(r: seq<Option<Place>>): nat {
    if r == [] then 0 else (if r[0].Some? then 1 else 0) + Rendered(r[1..])
  }

  function Indicator(o: Option<Place>): nat {
    if o.Some? then 1 else 0
  }

  lemma RenderedFive(r: seq<Option<Place>>)
    requires |r| == 5
    ensures Rendered(r) == Indicator(r[0]) + Indicator(r[1]) + Indicator(r[2]) + Indicator(r[3]) + Indicator(r[4])
  {
    var r1 := r[1..];
    var r2 := r1[1..];
    var r3 := r2[1..];
    var r4 := r3[1..];
    assert r4[1..] == [];
    assert Rendered(r4) == Indicator(r[4]);
    assert Rendered(r3) == Indicator(r[3]) + Rendered(r4);
    assert Rendered(r2) == Indicator(r[2]) + Rendered(r3);
    assert Rendered(r1) == Indicator(r[1]) + Rendered(r2);
  }

  /** Exactly as many positions render as the selection has slots (at most five). */
  lemma RowRenders(v: seq<TimeSlot>)
    requires |v| <= TopCount
    ensures Rendered(RowOf(v)) == |v|
  {
    var r := RowOf(v);
    RenderedFive(r);
    assert Indicator(r[0]) == (if 3 < |v| then 1 else 0);
    assert Indicator(r[1]) == (if 1 < |v| then 1 else 0);
    assert Indicator(r[2]) == (if 0 < |v| then 1 else 0);
    assert Indicator(r[3]) == (if 2 < |v| then 1 else 0);
    assert Indicator(r[4]) == (if 4 < |v| then 1 else 0);
  }

  /** Which slot of the selection each position shows. */
  lemma RowSlots(v: seq<TimeSlot>)
    ensures var r := RowOf(v);
            (|v| > 0 ==> r[2].Some? && r[2].value.slot == v[0]) &&
            (|v| > 1 ==> r[1].Some? && r[1].value.slot == v[1]) &&
            (|v| > 2 ==> r[3].Some? && r[3].value.slot == v[2]) &&
            (|v| > 3 ==> r[0].Some? && r[0].value.slot == v[3]) &&
            (|v| > 4 ==> r[4].Some? && r[4].value.slot == v[4])
  {
  }

  /** The middle position shows the top slot, positions 1 and 3 the second and
      third, the outer positions the fourth and fifth; exactly as many
      positions render as the selection has slots. */
  lemma PodiumLayout(ts: seq<TimeSlot>)
    ensures var v := VotedSlots(ts);
            var r := PodiumRow(ts);
            Rendered(r) == |v| &&
            (|v| > 0 ==> r[2].Some? && r[2].value.slot == v[0]) &&
            (|v| > 1 ==> r[1].Some? && r[1].value.slot == v[1]) &&
            (|v| > 2 ==> r[3].Some? && r[3].value.slot == v[2]) &&
            (|v| > 3 ==> r[0].Some? && r[0].value.slot == v[3]) &&
            (|v| > 4 ==> r[4].Some? && r[4].value.slot == v[4])
  {
    RowRenders(VotedSlots(ts));
    RowSlots(VotedSlots(ts));
  }

  /** Every rendered position has a style index in 0..4 and a rank below the
      size of the selection; the top slot's rank is 0. */
  lemma PlaceBounds(ts: seq<TimeSlot>, index: nat)
    requires index < |PodiumOrder| && PodiumRow(ts)[index].Some?
    ensures PodiumRow(ts)[index].value.styleIndex < StyleCount
    ensures PodiumRow(ts)[index].value.rank < |VotedSlots(ts)|
    ensures index == 2 ==> PodiumRow(ts)[index].value.rank == 0
  {
    var v := VotedSlots(ts);
    if index == 2 {
      RankFirst(Counts(v));
    }
  }

  /** The empty-state message shows exactly when no slot has a vote, and then nothing renders. */
  predicate ShowsPodium(ts: seq<TimeSlot>) {
    |Voted(ts)| > 0
  }

  lemma {:induction false} EmptyStateIff(ts: seq<TimeSlot>)
    ensures ShowsPodium(ts) <==> exists i :: 0 <= i < |ts| && |ts[i].votes| > 0
    ensures !ShowsPodium(ts) ==> VotedSlots(ts) == []
  {
    VotedMembers(ts);
    if ShowsPodium(ts) {
      var x := Voted(ts)[0];
      SubsequenceElements(Voted(ts), ts);
      var i :| 0 <= i < |ts| && ts[i] == x;
    }
  }
}
