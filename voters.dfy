/** The voter search of the voters dialog (src/pages/VotersDialog.tsx):
    the selected slot's votes whose lower-cased name contains the
    lower-cased search text, in their order. */
module Voters {

  import opened Types
  import opened Text
  import opened Seqs

  predicate NameMatches(v: Vote, search: string) {
    Contains(ToLower(v.name), ToLower(search))
  }

  /** `votes.filter((vote) => vote.name.toLowerCase().includes(search.toLowerCase()))`. */
  function FilterVoters(votes: seq<Vote>, search: string): (r: seq<Vote>)
    ensures IsSubsequence(r, votes)
    ensures forall k :: 0 <= k < |r| ==> NameMatches(r[k], search)
    ensures forall j :: 0 <= j < |votes| && NameMatches(votes[j], search) ==> votes[j] in r
  {
    if votes == [] then []
    else if NameMatches(votes[0], search) then [votes[0]] + FilterVoters(votes[1..], search)
    else FilterVoters(votes[1..], search)
  }

  /** The filter keeps each matching vote as many times as it occurs, and
      no other vote. */
  lemma {:induction false} FilterVotersCounts(votes: seq<Vote>, search: string)
    ensures forall v :: multiset(FilterVoters(votes, search))[v] ==
                        if NameMatches(v, search) then multiset(votes)[v] else 0
  {
    if votes != [] {
      assert votes == [votes[0]] + votes[1..];
      FilterVotersCounts(votes[1..], search);
    }
  }

  /** `selectedSlotForVoters?.votes.filter(...)`: no list without a slot. */
  function FilteredVoters(slot: Option<TimeSlot>, search: string): (r: Option<seq<Vote>>)
    ensures r.None? <==> slot.None?
    ensures r.Some? ==> IsSubsequence(r.value, slot.value.votes)
  {
    match slot
    case None => None
    case Some(s) => Some(FilterVoters(s.votes, search))
  }

  /** A vote is kept exactly when its lower-cased name contains the lower-cased search. */
  lemma KeptIff(votes: seq<Vote>, search: string, v: Vote)
    requires v in votes
    ensures v in FilterVoters(votes, search) <==> NameMatches(v, search)
  {
    var r := FilterVoters(votes, search);
    if v in r {
      var k :| 0 <= k < |r| && r[k] == v;
    }
  }

  /** An empty search keeps every voter, in order. */
  lemma {:induction false} EmptySearchKeepsAll(votes: seq<Vote>)
    ensures FilterVoters(votes, "") == votes
  {
    if votes != [] {
      ContainsEmpty(ToLower(votes[0].name));
      assert ToLower("") == "";
      EmptySearchKeepsAll(votes[1..]);
    }
  }
}
