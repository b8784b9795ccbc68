# meetsync-frontend in Dafny

MeetSync is a meeting-scheduling web front end. An organiser creates a room
from a draft of calendar dates and a list of `{start, duration}` time ranges
for each date. The draft is flattened into time ranges with an absolute start
and end and sent to the backend. Participants open the room and see the
room's times as slots, grouped by day in an hour grid. They vote for one or
more slots under a name, which a room accepts only once, and an optional
email. A podium shows the five most-voted slots with dense ranks, and a
dialog lists who voted for a slot, filtered by a search string.

This project models that logic, one module per source file:

- `Podium`: the podium. It keeps the slots with votes, sorts them by votes (a
  stable sort), takes five, ranks them densely with a loop over a map, and
  places them through the table `[3, 1, 0, 2, 4]`.
- `VotingRoom`: the voting page.
  - Pure parts: the duplicate-voter guard, the new vote, applying it to the
    slots, the select/deselect toggle and the voters-dialog lookup.
  - Loops that fill and sort groups by weekday and by day; the sorted day
    columns; the hour-grid cells.
  - The class `VotingRoomPage`, whose methods update the page state as
    loading, submitting and clicking do.
- `CreateRoom`: the room draft.
  - The five handlers as functions on the list of dates, and the invariant
    they keep.
  - The option tables of the three pickers, and the proof that a draft filled
    from them always converts.
  - The class `RoomDraftEditor`, whose methods overwrite its `selectedDates`
    field.
- `Payload`: `convertPayloadForAPI`. Instants are integer minutes: day number
  × 1440 + `HH` × 60 + `MM`, read as UTC.
- `Adapt`: `adaptTimeSlots`. `SlotIds`: `convertTimeSlotsToUUIDs`.
  `Voters`: the voter search.
- `RoomSchema`, `VoteSchema`, `HomeSchema`: the three validation schemas as
  predicates. The email pattern `\S+@\S+\.\S+` is defined as a regular
  expression match at some position, and an executable scanner is proved
  equal to it.
- Shared helpers:
  - `Types`: the backend room snapshot, slots and votes, and the draft.
  - `Seqs`: selection by key and first-match find.
  - `Sorting`: a stable insertion sort by an integer key, which is how
    JavaScript's `Array.prototype.sort` behaves with a numeric comparator.
  - `Text`: ASCII lower-casing, `includes`, `substring`, `padStart(2, '0')`,
    `parseInt` and the default string sort.
  - `Clock`: `"HH:MM"` labels and their two parsers.

Calendar projections from the date library are function parameters of the
model. They are formatting an ISO string as a weekday, a `yyyy-MM-dd` key or
an `HH:mm` time, and the instant or zoned string of an ISO date.

Two behaviours of the code that the model keeps as written:

- **Failed vote.** In `VotingRoom.tsx` (lines 103-123) the slots are
  updated before the vote is posted, and nothing rolls the update back if
  the post fails; only the form reset (lines 125-127) is skipped.
  `VotingRoom.VotingRoomPage.Submit` has a `postOk` parameter and keeps the
  updated slots when it is false.
- **Room without times.** `convertTimeSlotsToUUIDs` returns `[]` early only
  for a missing room or a missing `Time` array. A room whose `Time` array is
  empty goes through the `map` and also gives `[]`.

## Model

| member | source | states |
|---|---|---|
| Podium.Voted | src/pages/VotingPodium.tsx:38 | the filtered list is never longer than the input |
| Podium.Ranked | src/pages/VotingPodium.tsx:37-39 | the sorted list is a permutation of the voted slots in ascending order of the negated vote count, that is most votes first |
| Podium.VotedSlots | src/pages/VotingPodium.tsx:37-40 | the selection is the first at most five slots of the sorted list, and all of it when it has fewer than five |
| Podium.VotedMembers | src/pages/VotingPodium.tsx:38 | the filter keeps, in order, exactly the slots with at least one vote, each as many times as it occurs in the input and no other slot |
| Podium.RankedMembers | src/pages/VotingPodium.tsx:37-39 | every slot of the sorted list has a vote and comes from the input |
| Podium.SelectionOnlyVoted | src/pages/VotingPodium.tsx:37-40 | the selection has min(number of voted slots, 5) slots, each with at least one vote and taken from the input |
| Podium.SelectionDescending | src/pages/VotingPodium.tsx:39-40 | the selection is in non-increasing order of vote count |
| Podium.SelectionStable | src/pages/VotingPodium.tsx:39 | the sort is stable: slots with equal vote counts keep their input order |
| Podium.NoneLeftOutBeatsSelected | src/pages/VotingPodium.tsx:37-40 | a voted slot left out of the top five has no more votes than any slot in it |
| Podium.Counts | src/pages/VotingPodium.tsx:57 | the vote count of each selected slot, position by position |
| Podium.RankMapOf | src/pages/VotingPodium.tsx:53-63 | the rank map has an entry exactly for the vote counts that occur |
| Podium.RankMapBounds | src/pages/VotingPodium.tsx:53-63 | every rank is below the number of distinct counts, which is at most the number of slots |
| Podium.RankMap | src/pages/VotingPodium.tsx:53-63 | the `forEach` loop with its running counter builds exactly the first-seen rank map |
| Podium.RankSnoc | src/pages/VotingPodium.tsx:59-62 | one more slot: a new count gets the next rank and a known count changes nothing |
| Podium.RankPrefixStable | src/pages/VotingPodium.tsx:59-62 | a rank once assigned is never changed by later slots |
| Podium.LastHasTopRank | src/pages/VotingPodium.tsx:53-63 | in a non-increasing list the last count has the highest rank |
| Podium.RankStepSnoc | src/pages/VotingPodium.tsx:59-62 | a count no larger than the last shares the last count's rank on a tie and gets the next rank otherwise |
| Podium.RankStep | src/pages/VotingPodium.tsx:53-65 | dense ranking: the next slot keeps the rank on a tie and goes up by exactly one otherwise |
| Podium.RankFirst | src/pages/VotingPodium.tsx:53-65 | the first slot has rank 0 |
| Podium.StepsMonotone | src/pages/VotingPodium.tsx:53-65 | ranks that stay on a tie and go up by one on a drop never decrease along a non-increasing run, and increase across a strict drop |
| Podium.RankMonotone | src/pages/VotingPodium.tsx:53-65 | on the vote counts of a non-increasing list, equal counts share a rank and a strictly higher count has a strictly smaller rank |
| Podium.PodiumRanksDense | src/pages/VotingPodium.tsx:37-65 | on the podium's own selection the top slot has rank 0, the next slot keeps the rank on a tie and goes up by one on fewer votes, and more votes mean a strictly smaller rank |
| Podium.RankExample | src/pages/VotingPodium.tsx:53-65 | counts [5,5,3,2,2] get ranks [0,0,1,2,2] |
| Podium.StyleIndex | src/pages/VotingPodium.tsx:66 | the style index is within 0..4 and equals the position for positions below 5 |
| Podium.PlaceAt | src/pages/VotingPodium.tsx:49-65 | position i renders exactly when `podiumOrder[i]` indexes a selected slot; it shows that slot, with the rank the rank map gives its vote count (below the selection size) and the style index `min(i, 4)` |
| Podium.PodiumRow | src/pages/VotingPodium.tsx:49 | the podium row has one entry per `podiumOrder` position |
| Podium.RowOf | src/pages/VotingPodium.tsx:49-51 | entry i of the row is position i's placement |
| Podium.RowRenders | src/pages/VotingPodium.tsx:49-51 | exactly as many positions render as the selection has slots |
| Podium.RowSlots | src/pages/VotingPodium.tsx:41-51 | positions 2, 1, 3, 0 and 4 show the first to fifth slot of the selection, whenever it has that many |
| Podium.PodiumLayout | src/pages/VotingPodium.tsx:41-51 | the middle position holds the top slot, positions 1 and 3 hold the second and third, and the outer positions hold the fourth and fifth |
| Podium.PlaceBounds | src/pages/VotingPodium.tsx:65-66 | a rendered position has a style index below 5 and a rank below the selection size, and the middle one has rank 0 |
| Podium.EmptyStateIff | src/pages/VotingPodium.tsx:33 | the podium shows exactly when some slot has a vote; otherwise the selection is empty |
| VotingRoom.SomeVoteByIff | src/pages/VotingRoom.tsx:90 | the inner `some` holds exactly when a vote record of the Time carries the name |
| VotingRoom.UserAlreadyVotedIff | src/pages/VotingRoom.tsx:90-95 | the duplicate-voter guard fires exactly when some vote record of some Time carries the submitted name |
| VotingRoom.NewVote | src/pages/VotingRoom.tsx:97-101 | the new vote has the submitted name, no email exactly when the email is absent or empty, and the submitted email otherwise; its ids are the conversion of the selected date-times against the room, at most one per selected date-time |
| VotingRoom.ApplyVote | src/pages/VotingRoom.tsx:103-111 | the slot count is kept; each selected slot gains the vote at the end of its votes; every other slot is unchanged |
| VotingRoom.ApplyVoteTotal | src/pages/VotingRoom.tsx:103-111 | the total vote count grows by the number of selected slots, and each slot's earlier votes are a prefix of its new votes |
| VotingRoom.ApplyNothing | src/pages/VotingRoom.tsx:103-111 | with nothing selected the slots are unchanged |
| VotingRoom.RemoveAll | src/pages/VotingRoom.tsx:149 | filtering removes every occurrence of the id and keeps all other ids |
| VotingRoom.RemoveAllCounts | src/pages/VotingRoom.tsx:149 | the filter keeps every other id as many times as it occurs, in order, and drops the clicked id |
| VotingRoom.Toggle | src/pages/VotingRoom.tsx:149 | the id ends up selected exactly when it was not; other ids are unaffected; an unselected id is appended |
| VotingRoom.RemoveAllAbsent | src/pages/VotingRoom.tsx:149 | removing an absent id changes nothing |
| VotingRoom.RemoveAllLast | src/pages/VotingRoom.tsx:149 | removing an id undoes appending it |
| VotingRoom.ToggleTwice | src/pages/VotingRoom.tsx:147-152 | two clicks on an unselected id restore the selection |
| VotingRoom.RemoveAllDistinct | src/pages/VotingRoom.tsx:149 | removing an id keeps a duplicate-free selection duplicate-free |
| VotingRoom.ToggleDistinct | src/pages/VotingRoom.tsx:147-152 | a click never puts an id into the selection twice |
| VotingRoom.SelectedSlotForVoters | src/pages/VotingRoom.tsx:302 | no slot for an empty selection; otherwise no slot exactly when no page slot has the first selected date-time, and else the first page slot that has it |
| VotingRoom.ShowVotersFinds | src/pages/VotingRoom.tsx:154-157 | after showing a slot's voters, the dialog gets a slot with that slot's `dateTime`, at or before it, with no earlier slot at that `dateTime` |
| VotingRoom.FirstSeenDistinct | src/pages/VotingRoom.tsx:71-78 | the keys of the grouped object are distinct |
| VotingRoom.FirstSeenMembers | src/pages/VotingRoom.tsx:71-78 | the keys of the grouped object are exactly the keys of the slots |
| VotingRoom.FirstSeenSnoc | src/pages/VotingRoom.tsx:74-76 | one more slot adds its key when the key is new |
| VotingRoom.WithKeySnoc | src/pages/VotingRoom.tsx:77 | one more slot joins the group of its own key only, at the end |
| VotingRoom.WeekdayGroup | src/pages/VotingRoom.tsx:71-82 | a weekday group has as many slots as that weekday has |
| VotingRoom.GroupBy | src/pages/VotingRoom.tsx:71-78 | the loop leaves one group per key in first-seen order, holding that key's slots in input order |
| VotingRoom.GroupByWeekday | src/pages/VotingRoom.tsx:71-82 | after the second loop each weekday group holds the slots of that weekday, sorted by instant |
| VotingRoom.WeekdayGroupsPartition | src/pages/VotingRoom.tsx:71-82 | a weekday group is a permutation of that weekday's slots, ascending by instant |
| VotingRoom.SortedDates | src/pages/VotingRoom.tsx:136-145 | the day columns are a permutation of the first-seen day keys, in ascending string order |
| VotingRoom.SortedDatesSpec | src/pages/VotingRoom.tsx:136-145 | the day columns are the distinct day keys of the slots, each once, in ascending string order |
| VotingRoom.GridCell | src/pages/VotingRoom.tsx:232-238 | a cell is empty exactly when no slot has that day and hour; otherwise it is the first such slot |
| VotingRoom.VotingRoomPage.constructor | src/pages/VotingRoom.tsx:31-48 | no room, no slots, an empty form and a closed dialog |
| VotingRoom.VotingRoomPage.Load | src/pages/VotingRoom.tsx:56-59 | the room is stored and the slots become its adapted slots; nothing else changes |
| VotingRoom.VotingRoomPage.TypeName | src/pages/VotingRoom.tsx:282 | typing sets the name the form submits; nothing else changes |
| VotingRoom.VotingRoomPage.TypeEmail | src/pages/VotingRoom.tsx:287 | typing sets the email the form submits; nothing else changes |
| VotingRoom.VotingRoomPage.Submit | src/pages/VotingRoom.tsx:84-128 | on the form's current name, email and selection: invalid form, then no room, then a duplicate name abort with nothing changed; otherwise the slots get the vote built from those values, the vote is posted, and the form is cleared only if the post succeeds |
| VotingRoom.VotingRoomPage.SlotClick | src/pages/VotingRoom.tsx:147-152 | the selection is toggled; nothing else changes |
| VotingRoom.VotingRoomPage.ShowVoters | src/pages/VotingRoom.tsx:154-157 | the selection becomes exactly that slot's `dateTime` and the dialog opens |
| CreateRoom.RemoveAt | src/pages/CreateRoom.tsx:60 | the element at an in-range index is removed and the rest keep their order; an out-of-range index changes nothing |
| CreateRoom.AddDate | src/pages/CreateRoom.tsx:47-54 | the draft grows by at most one date, at the end, exactly when the date is given and not yet in the draft, and the new date has the single time `{07:00, 00:30}` |
| CreateRoom.RemoveDate | src/pages/CreateRoom.tsx:56-65 | an in-range index removes that date and keeps the others in order; any other index changes nothing |
| CreateRoom.AddTime | src/pages/CreateRoom.tsx:67-76 | the date at the index gains `{09:00, 01:00}` at the end; every other date is unchanged |
| CreateRoom.DropEmpty | src/pages/CreateRoom.tsx:84 | what is left has a time in every date |
| CreateRoom.RemoveTimeIn | src/pages/CreateRoom.tsx:83 | only the indexed date's times change, by removing the indexed time |
| CreateRoom.RemoveTime | src/pages/CreateRoom.tsx:78-89 | the draft never grows, and every date left has a time |
| CreateRoom.UpdateTime | src/pages/CreateRoom.tsx:91-103 | only the named field of the indexed time changes; dates and list lengths are kept |
| CreateRoom.AddDateSpec | src/pages/CreateRoom.tsx:47-54 | no date, or a date already present, changes nothing; a new date is appended with the single time `{07:00, 00:30}`; dates stay distinct |
| CreateRoom.RemoveDateSpec | src/pages/CreateRoom.tsx:56-65 | removing a date at an in-range index shortens the draft by one and keeps the draft invariant |
| CreateRoom.AddTimeSpec | src/pages/CreateRoom.tsx:67-76 | adding a time keeps the draft invariant |
| CreateRoom.DropEmptyKeeps | src/pages/CreateRoom.tsx:84 | dropping empty dates from a draft without empty dates changes nothing |
| CreateRoom.DropEmptyMembers | src/pages/CreateRoom.tsx:84 | dropping empty dates keeps only dates of the input |
| CreateRoom.DropEmptyDistinct | src/pages/CreateRoom.tsx:84 | dropping empty dates keeps dates distinct |
| CreateRoom.RemoveTimeSpec | src/pages/CreateRoom.tsx:78-89 | after removing a time every date has at least one time, and the draft invariant is kept |
| CreateRoom.RemoveTimeKeepsDate | src/pages/CreateRoom.tsx:78-89 | when the date keeps a time, exactly that time is removed and every other date is unchanged |
| CreateRoom.RemoveLastTimeRemovesDate | src/pages/CreateRoom.tsx:78-89 | removing a date's only time removes that date, as `removeDateSlot` would |
| CreateRoom.DropOneEmpty | src/pages/CreateRoom.tsx:84 | with one empty date, dropping empties removes exactly that date |
| CreateRoom.UpdateTimeSpec | src/pages/CreateRoom.tsx:91-103 | updating a time keeps the draft invariant |
| CreateRoom.EndTimeOptions | src/pages/CreateRoom.tsx:200-209 | the end-time picker offers 48 values |
| CreateRoom.EndTimeOptionsAreHalfHours | src/pages/CreateRoom.tsx:200-209 | value i is `pad2(floor(i/2))` then `:00` or `:30`, the time of day 30·i minutes |
| CreateRoom.DurationOptionClock | src/pages/CreateRoom.tsx:279 | each duration option is a time of day of the listed minutes |
| CreateRoom.DurationOptionsParse | src/pages/CreateRoom.tsx:279 | each duration option reads back as 0, 15, 30, 60, …, 300 or 360 minutes |
| CreateRoom.PickedTimeConverts | src/pages/CreateRoom.tsx:266-279 | a time whose start and duration come from the pickers converts without error |
| CreateRoom.EntriesPicked | src/pages/CreateRoom.tsx:266-279 | flattening a draft filled from the pickers gives only picker values |
| CreateRoom.PickedDraftConverts | src/utils/convertPayloadForAPI.ts:4-20 | the payload converter never fails on a draft filled from the pickers |
| CreateRoom.DefaultsPicked | src/pages/CreateRoom.tsx:53 | the times the handlers insert are picker values |
| CreateRoom.AddDatePicked | src/pages/CreateRoom.tsx:47-54 | adding a date keeps every time a picker value |
| CreateRoom.RemoveDatePicked | src/pages/CreateRoom.tsx:56-65 | removing a date keeps every time a picker value |
| CreateRoom.AddTimePicked | src/pages/CreateRoom.tsx:67-76 | adding a time keeps every time a picker value |
| CreateRoom.RemoveTimeInPicked | src/pages/CreateRoom.tsx:80-83 | removing one time keeps every time a picker value |
| CreateRoom.RemoveTimePicked | src/pages/CreateRoom.tsx:78-89 | removing a time keeps every time a picker value |
| CreateRoom.UpdateTimePicked | src/pages/CreateRoom.tsx:91-103 | updating a time with a picker value keeps every time a picker value |
| CreateRoom.PickedDraftPassesDateRules | src/schemas/roomSchema.ts:13-27 | a non-empty draft of picker values without empty dates passes the form's date rules |
| CreateRoom.RoomDraftEditor.constructor | src/pages/CreateRoom.tsx:40 | the draft starts empty, which is a valid draft |
| CreateRoom.RoomDraftEditor.DateSelect | src/pages/CreateRoom.tsx:47-54 | warns exactly for no date or a date already in the draft; the draft becomes the add-date result and stays valid |
| CreateRoom.RoomDraftEditor.RemoveDateSlot | src/pages/CreateRoom.tsx:56-65 | the draft becomes the remove-date result and stays valid |
| CreateRoom.RoomDraftEditor.AddTimeSlot | src/pages/CreateRoom.tsx:67-76 | the draft becomes the add-time result and stays valid |
| CreateRoom.RoomDraftEditor.RemoveTimeSlot | src/pages/CreateRoom.tsx:78-89 | the draft becomes the remove-time result and stays valid |
| CreateRoom.RoomDraftEditor.UpdateTimeSlot | src/pages/CreateRoom.tsx:91-103 | with a value from the start or duration picker, the draft becomes the update-time result and stays valid |
| Payload.ConvertTime | src/utils/convertPayloadForAPI.ts:8-17 | converts exactly when the start is a valid time of day and the duration parses; `date` equals `start`, which is day·1440 plus the start's minutes; `end − start` is the duration's minutes |
| Payload.TryMap | src/utils/convertPayloadForAPI.ts:4-20 | a successful conversion of a list has one output per element |
| Payload.ConvertEntries | src/utils/convertPayloadForAPI.ts:4-20 | a successful conversion has one output per flattened entry |
| Payload.ConvertPayload | src/utils/convertPayloadForAPI.ts:3-21 | a successful conversion has one output per time range of the draft |
| Payload.TryMapOk | src/utils/convertPayloadForAPI.ts:4-20 | converting a list in order succeeds exactly when every element converts |
| Payload.TryMapValues | src/utils/convertPayloadForAPI.ts:4-20 | on success there is one output per element, and output k is element k converted |
| Payload.TryMapErr | src/utils/convertPayloadForAPI.ts:4-20 | on failure the error is that of the first element that does not convert |
| Payload.ConvertEntriesOk | src/utils/convertPayloadForAPI.ts:4-20 | the payload converts exactly when every time range does |
| Payload.ConvertEntriesValues | src/utils/convertPayloadForAPI.ts:4-20 | on success there is one output per time range, and output k is range k's conversion |
| Payload.ConvertEntriesErr | src/utils/convertPayloadForAPI.ts:4-20 | a failure is the error of the first range that does not convert |
| Payload.EntriesAt | src/utils/convertPayloadForAPI.ts:4-20 | flattening is date-major: time j of date i sits after all the times of the earlier dates |
| Payload.Entries | src/utils/convertPayloadForAPI.ts:4-20 | the flattened draft has one entry per time range |
| Payload.PayloadShape | src/utils/convertPayloadForAPI.ts:4-20 | one output per time range, and time j of date i becomes the output at its flattened position |
| Payload.NineForNinety | src/utils/convertPayloadForAPI.ts:9-11 | `09:00` for `01:30` starts at 09:00 of the day and ends 90 minutes later |
| Payload.ZeroDuration | src/utils/convertPayloadForAPI.ts:10-11 | a duration of `00:00` gives an end equal to the start |
| Adapt.DurationLabel | src/utils/adaptTimeSlots.ts:42-44 | for strings of length at least 16 the label is `start[11..16) - end[11..16)` |
| Adapt.AdaptVote | src/utils/adaptTimeSlots.ts:49-52 | an adapted vote has the user name, no email and just the Time's id |
| Adapt.AdaptVotes | src/utils/adaptTimeSlots.ts:49-52 | one adapted vote per vote record, in order |
| Adapt.AdaptTime | src/utils/adaptTimeSlots.ts:40-53 | a slot has the zoned start, the duration label and one vote per record, none when there are none |
| Adapt.AdaptTimeSlots | src/utils/adaptTimeSlots.ts:39-55 | one adapted slot per Time entry, in order |
| Adapt.AdaptedVoterNames | src/utils/adaptTimeSlots.ts:49-51 | the voter names of a slot are its Time's user names, in order |
| SlotIds.ResolveOne | src/utils/convertTimeSlotsToUUIDs.ts:8-9 | no id exactly when no Time starts at the string; otherwise the id of the first Time that does |
| SlotIds.DropMisses | src/utils/convertTimeSlotsToUUIDs.ts:11 | dropping misses never lengthens the list |
| SlotIds.Lookups | src/utils/convertTimeSlotsToUUIDs.ts:7-10 | one lookup per selected string, in order |
| SlotIds.ConvertTimeSlotsToUuids | src/utils/convertTimeSlotsToUUIDs.ts:3-12 | never more ids than selected strings |
| SlotIds.Matched | src/utils/convertTimeSlotsToUUIDs.ts:6-11 | the matched strings are an ordered sub-list of the selection that all match some start |
| SlotIds.ResolvesMatched | src/utils/convertTimeSlotsToUUIDs.ts:6-11 | the output is, in order and with repeats, the first-match id of each selected string that matches |
| SlotIds.AllMatchedKeepsLength | src/utils/convertTimeSlotsToUUIDs.ts:6-11 | when every selected string matches, there is one id per string |
| SlotIds.MissShortens | src/utils/convertTimeSlotsToUUIDs.ts:6-11 | a string that matches no start is silently dropped, so the output is shorter |
| SlotIds.NoTimesNoIds | src/utils/convertTimeSlotsToUUIDs.ts:4 | a room without Time entries resolves nothing |
| Voters.FilterVoters | src/pages/VotersDialog.tsx:28 | the filtered voters are an ordered sub-list of the votes, every one of them matching, and every matching vote is among them |
| Voters.FilterVotersCounts | src/pages/VotersDialog.tsx:28 | each matching vote is kept as many times as it occurs, and no other vote |
| Voters.FilteredVoters | src/pages/VotersDialog.tsx:28 | there is no list exactly when there is no slot; otherwise it is a sub-list of the slot's votes |
| Voters.KeptIff | src/pages/VotersDialog.tsx:28 | a vote is kept exactly when its lower-cased name contains the lower-cased search |
| Voters.EmptySearchKeepsAll | src/pages/VotersDialog.tsx:28 | an empty search keeps every voter, in order |
| RoomSchema.RoomNameIff | src/schemas/roomSchema.ts:4-8 | a name passes exactly when it has at least 3 characters, all ASCII letters or whitespace; the empty name fails |
| RoomSchema.ValidRoomName | src/schemas/roomSchema.ts:4-8 | a name passes exactly when it has at least 3 characters, all ASCII letters or whitespace |
| RoomSchema.ValidTitle | src/schemas/roomSchema.ts:9 | a title passes exactly when it has at least 5 characters |
| RoomSchema.ValidDates | src/schemas/roomSchema.ts:13-27 | the dates pass exactly when there is at least one, each has at least one time, and every start and duration is non-empty |
| RoomSchema.ValidNewRoom | src/schemas/roomSchema.ts:3-27 | a passing form has a name of at least 3 and a title of at least 5 characters, an end date, an end time and at least one date |
| RoomSchema.DigitRejectsName | src/schemas/roomSchema.ts:6 | a digit anywhere rejects the name |
| RoomSchema.EmptyEndTimeAccepted | src/schemas/roomSchema.ts:10-12 | an empty end time and an absent description pass; a missing end time, end date or date list fails |
| RoomSchema.DateWithoutTimesRejected | src/schemas/roomSchema.ts:24 | a date without times makes the form invalid |
| VoteSchema.DotAfterSound | src/schemas/voteShema.ts:8 | when the scanner finds the dot, a dot that ends a blank-free run and has a non-blank after it exists |
| VoteSchema.AtFromSound | src/schemas/voteShema.ts:8 | when the scanner accepts, the pattern matches |
| VoteSchema.DotAfterComplete | src/schemas/voteShema.ts:8 | a suitable dot is always found by the scanner |
| VoteSchema.AtFromComplete | src/schemas/voteShema.ts:8 | a suitable `@` and dot are always found by the scanner |
| VoteSchema.EmailTextIff | src/schemas/voteShema.ts:8 | the scanner from the first position accepts exactly the strings in which `\S+@\S+\.\S+` matches somewhere |
| VoteSchema.EmailText | src/schemas/voteShema.ts:8 | the email test accepts exactly the strings in which the pattern matches somewhere |
| VoteSchema.UnanchoredEmail | src/schemas/voteShema.ts:8 | text around a matching address keeps the string matching |
| VoteSchema.ValidEmailIff | src/schemas/voteShema.ts:5-10 | an email passes exactly when it is absent, empty or matches the pattern somewhere |
| VoteSchema.ValidEmail | src/schemas/voteShema.ts:5-10 | an email passes exactly when it is absent, empty or matches the pattern somewhere |
| VoteSchema.ValidVoteName | src/schemas/voteShema.ts:4 | a name passes exactly when it has at least 3 characters, of any kind |
| VoteSchema.ValidVote | src/schemas/voteShema.ts:3-12 | a vote passes exactly when the name has at least 3 characters, at least one slot is selected, and the email passes |
| VoteSchema.Examples | src/schemas/voteShema.ts:4-8 | `ab1` is a valid name and `ab` is not; `a@b.c` and ` x a@b.c y` match, `a@b.` and `@b.c` do not |
| HomeSchema.SameNameRule | src/schemas/homeSchema.ts:4-7 | the home form accepts exactly the names the room form accepts |
| HomeSchema.ValidCreateRoomName | src/schemas/homeSchema.ts:4-7 | the home form accepts exactly the names the room form accepts |
| HomeSchema.ValidJoinRoom | src/schemas/homeSchema.ts:10-12 | a room id passes exactly when the uuid test accepts it |
| HomeSchema.CreateRoomNameRejects | src/schemas/homeSchema.ts:6-7 | a character other than a letter or whitespace, or fewer than 3 characters, rejects the name |
| Sorting.InsertPerm | src/pages/VotingPodium.tsx:39 | insertion adds exactly the one element |
| Sorting.InsertSorted | src/pages/VotingPodium.tsx:39 | insertion into a sorted list keeps it sorted |
| Sorting.SortByKeySorted | src/pages/VotingPodium.tsx:39 | the sort is a permutation of its input, in ascending key order |
| Sorting.InsertWithKey | src/pages/VotingPodium.tsx:39 | an inserted element goes before the elements with an equal key |
| Sorting.SortByKeyStable | src/pages/VotingPodium.tsx:39 | for every key, the elements with that key keep their input order |
| Seqs.WithKeyMembers | src/pages/VotingRoom.tsx:71-78 | a key's group holds, in order, exactly the elements with that key, each as many times as it occurs |
| Seqs.WithKeyAppend | src/pages/VotingRoom.tsx:71-78 | grouping a concatenation concatenates the groups |
| Seqs.FindKey | src/pages/VotingRoom.tsx:234-238 | `find` gives nothing exactly when no element has the key, otherwise the first element that does |
| Text.ToLower | src/pages/VotersDialog.tsx:28 | lower-casing keeps the length and lower-cases each ASCII capital, leaving other characters |
| Text.ToLowerIdempotent | src/pages/VotersDialog.tsx:28 | lower-casing twice is lower-casing once |
| Text.Contains | src/pages/VotersDialog.tsx:28 | `includes` holds exactly when the needle occurs at some position |
| Text.ContainsEmpty | src/pages/VotersDialog.tsx:28 | every string includes the empty string |
| Text.JsSubstring | src/utils/adaptTimeSlots.ts:42-43 | `substring` is the slice for in-range bounds and empty past the end |
| Text.Pad2 | src/pages/CreateRoom.tsx:203 | two digits whose value is the number |
| Text.Pad2Injective | src/pages/CreateRoom.tsx:203 | different numbers pad to different labels |
| Text.LeadingInt | src/utils/convertPayloadForAPI.ts:10 | `parseInt` gives a number exactly when the string starts with a digit |
| Text.LeadingIntPad2 | src/utils/convertPayloadForAPI.ts:10 | `parseInt` of a padded number gives the number back |
| Text.StrLeTotal | src/pages/VotingRoom.tsx:145 | the default string order is total |
| Text.StrLeTransitive | src/pages/VotingRoom.tsx:145 | the default string order is transitive |
| Text.StrLeAntisymmetric | src/pages/VotingRoom.tsx:145 | the default string order is antisymmetric |
| Text.InsertString | src/pages/VotingRoom.tsx:145 | inserting into a sorted list adds exactly that string and keeps it sorted |
| Text.SortStrings | src/pages/VotingRoom.tsx:145 | `sort()` is a permutation of its input, in ascending string order |
| Clock.ClockLabel | src/pages/CreateRoom.tsx:203 | a label has five characters with the colon in the middle |
| Clock.HourLabel | src/pages/VotingRoom.tsx:233 | the label of an hour is that hour at minute 00 |
| Clock.HourLabels | src/pages/VotingRoom.tsx:224 | 24 labels, label h for hour h |
| Clock.ParseClock | src/utils/convertPayloadForAPI.ts:9 | a parsed time of day is at most 24:00 |
| Clock.ParseClockLabel | src/utils/convertPayloadForAPI.ts:9 | a label below 24:00 reads back as its hour and minute |
| Clock.HourLabelsParse | src/pages/CreateRoom.tsx:266-270 | the hour labels read back as hours 0 to 23, from `00:00` to `23:00` |
| Clock.ParseClockRoundTrip | src/utils/convertPayloadForAPI.ts:9 | a time of day below 24:00 that parses is the label of its own value |
| Clock.FirstColon | src/utils/convertPayloadForAPI.ts:10 | the position of the first colon, absent exactly when there is none |
| Clock.DurationMinutes | src/utils/convertPayloadForAPI.ts:10 | a parsed duration has a colon and starts with a digit |
| Clock.DurationOfLabel | src/utils/convertPayloadForAPI.ts:10 | a label reads back as its hours times 60 plus its minutes |
| Clock.DurationOfClock | src/utils/convertPayloadForAPI.ts:9-10 | on a time of day below 24:00 the duration parser and the time-of-day parser agree |

## Left out

- Rendering: JSX, CSS classes, tooltips, toasts and their messages, and dialog open and close are not modelled. The exception is the `showVotersDialog` flag.
- The network: fetching, posting a room and posting a vote are not modelled.
  - A loaded room is a parameter of `Load`.
  - A vote's post is an append to the `posted` outbox, with its outcome as the `postOk` parameter.
  - `postRoom`, which builds `endingAt` and posts the converted draft, is not modelled; its conversion is `Payload`.
- Scheduling: React's state updates are modelled as immediate assignments. The race between the duplicate-name check and the post is not modelled.
- Date library calls are function parameters: `format`, `parseISO`, `toZonedTime` and `toISOString`.
  - So the America/Sao_Paulo projection and UTC formatting are not modelled.
  - Draft dates are day numbers. `getTime()` equality of the calendar's midnights is equality of day numbers.
  - `compareAsc` on an unparseable date (NaN) is not modelled; instants are integers.
- Payload.ConvertTime: a start that is not a valid ISO time of day is an error, where JavaScript's `Date` may parse it by the engine's fallback rules. The day is a day number, so `format(slot.date, 'yyyy-MM-dd')` is not modelled.
- Text.ToLower: lower-cases the ASCII capitals only, not the rest of Unicode.
- Text.LeadingInt: reads leading decimal digits only. It does not skip whitespace, take a sign or read a hex prefix as `parseInt` does; the picker values never need them.
- Strings are sequences of characters: UTF-16 code units, surrogate pairs and the length of non-BMP text are not modelled.
- HomeSchema.ValidJoinRoom: the validation library's uuid pattern is a parameter, so the predicate only passes its verdict on.
- CreateRoom.RoomDraftEditor.UpdateTimeSlot: requires a value the start or duration picker offers, since the pickers are its only callers; free text is not modelled.
- VotingRoom.VotingRoomPage.Submit: the email field is always present as a string, as the form's default `''` makes it; an absent email is covered by `NewVote` alone.
- The schemas: validation messages and the order in which issues are reported are not modelled; only acceptance is.
- `src/types/room.ts`'s `postRoomProps` and `Room` and `src/types/vote.ts`'s `PostVoteProps` are not part of this model. They do not describe the data actually passed.
- The weekday grouping (`groupedSlots`) is computed but never rendered. It is modelled anyway as `GroupByWeekday`.
- The other pages: the home page's navigation, the share dialog, the closed-voting dialog, the not-found page and the bootstrap.
