# Metro Sathi commuter matching: a Dafny model

Metro Sathi helps metro commuters find companions for a trip. A user records the trips they
take (start and end station, date, time, optionally repeating on weekdays). They search for
trips by other users that start and end near their own stations at about the same time. They
can request a connection, accept one, chat with an accepted connection and report abusive users.

This project models the logic that decides what the app does. It covers:

- the station-distance and match-quality functions of `lib/matching.ts`;
- the search pipeline (filter, score, sort);
- the validation and record-building of each API route handler (trips, profile, connections,
  messages, people, reports);
- the client-side state updates of the chat window, trip form, onboarding page, report dialog and
  profile dialog;
- the station picker's grouping;
- the navigation highlighting;
- the session middleware's redirect rule.

Each source file is one module. Their shared pieces are:

- `Js`: JavaScript values from a JSON body, truthiness, `trim`, `length` in UTF-16 code units, `split`/`join`, decimal text;
- `Http`: the status-code outcome of a handler, where an uncaught `TypeError` becomes `Crash`, the
  framework's 500;
- `Sorting`: an insertion sort by an integer key, standing for `Array.prototype.sort` with a
  subtracting comparator;
- `Lists`: `filter` and the subsequence relation;
- `Display`: the avatar initials and the 12-hour time. Three components define these with
  identical bodies, and the model defines them once.

Loops in the source are `method`s with loop invariants, each proved equal to a recursive
specification function. The loops are: `buildStationIndex`, `getMinStationDistance`, the station
picker's grouping, the connection map of `/api/people`, the chat window's Map merge and
`groupByDate`, and the in-place `sort` of the repeat days. The properties are then proved about
those functions. The profile route's `updateData` builder is nine straight-line `if`s, which the
model writes as a sequence of step methods updating one record, proved equal to the record the
supplied fields prescribe.

Components whose handlers change state are classes: `ChatState`, `TripFormState`,
`OnboardingState`, `ReportDialog` and `ReportState`. Their fields are the React state, and every
method states the whole new state.

Database queries, the authenticated user and the current time are parameters of the handlers:

- `caller` is `None` when there is no user;
- `existing` / `alreadyReported` is the result of the duplicate lookup;
- `connections` is the table the accepted-connection guard queries;
- `trips` is the candidate list of the search query;
- `today`, `beforeNow` and `now` stand in for the clock.

Optimistic sending in the chat window has a race, and the model shows it: when the realtime INSERT
event arrives before the POST response, the list briefly holds the stored message twice
(`RealtimeBeforeResponseDuplicates`). The next poll's merge by id removes the duplicate, because
the merged list has unique ids (`MergeSpec`). This is why the source ends up consistent.

## Model

| member | source | states |
|---|---|---|
| Matching.BuildStationIndex | lib/matching.ts:7-14 | The index built in one pass equals the specification `IndexOf`: each name maps to the entries of the stations carrying it, in list order. Its keys are exactly the station names. |
| Matching.IndexKeys | lib/matching.ts:7-14 | A name is a key exactly when some station carries it, and no key maps to an empty list. |
| Matching.EntriesNamedMembers | lib/matching.ts:7-14 | Every entry under a name comes from a station of that name, and every such station's (line, position) is listed. |
| Matching.EntriesNamedAppend | lib/matching.ts:7-14 | Indexing a concatenated list concatenates the per-name entries. |
| Matching.IndexOfSnoc | lib/matching.ts:9-13 | One more station adds one entry under its own name and changes no other key. |
| Matching.GetMinStationDistance | lib/matching.ts:22-40 | The nested loops compute `MinStationDistance`. It is `Inf` when either name is missing from the index (lines 26-28), otherwise the running minimum over all same-line pairs. |
| Matching.PairMinSpec | lib/matching.ts:30-39 | The loops' result is `Inf` exactly when no entry pair shares a line. Otherwise it is a gap some same-line pair attains, and no same-line pair has a smaller gap. |
| Matching.DistanceSpec | lib/matching.ts:22-40 | Over the index of a station list, the distance is `Inf` exactly when no station named `a` shares a line with one named `b`. Otherwise it is the least position gap over such pairs, and some pair attains it. |
| Matching.DistanceSymmetric | lib/matching.ts:22-40 | The distance from `a` to `b` equals the distance from `b` to `a`, for any index. |
| Matching.DistanceToSelf | lib/matching.ts:22-40 | A known station is at distance 0 from itself. |
| Matching.DistanceOnOneLine | lib/matching.ts:22-40 | Two uniquely named stations on one line are exactly their position gap apart. |
| Matching.WithinStationsSpec | lib/matching.ts:45-51 | `IsWithinStations(index, a, b, k)` holds exactly when some same-line pair of `a` and `b` stations is at most `k` positions apart. Unknown stations are never within range. |
| Matching.TimeDiffMinutes | lib/matching.ts:56-60 | The difference is 0 exactly when the two times-of-day are equal, and it is the absolute difference of their minutes since midnight. |
| Matching.TimeDiffSymmetric | lib/matching.ts:56-60 | The time difference does not depend on argument order. |
| Matching.TimeDiffNoMidnightWrap | lib/matching.ts:56-60 | There is no wrap at midnight: 23:50 against 00:10 is 1420 minutes, not 20. |
| Matching.GetMatchQuality | lib/matching.ts:65-83 | The record carries the start-to-start and end-to-end distances and the label built from them. |
| Matching.LabelExactIff | lib/matching.ts:74-76 | The label is "Exact route match" if and only if both distances are 0. |
| Matching.LabelCountReadable | lib/matching.ts:78-82 | Any other label is "±", then the decimal digits of the larger distance (Infinity counted as 0), whose value reads back as that distance, then " station", singular only for 1. |
| Search.ParseQuery | app/api/search/route.ts:22-34 | A 400 "Missing required search parameters" exactly when one of the four parameters is absent or empty. Otherwise the query carries them, with the gender filter defaulting to "All". |
| Search.TimeDiff | lib/matching.ts:56-60 | The difference is NaN (`None`) exactly when the query or the trip time does not read as hours and minutes. Otherwise it is the minute difference of the two times. |
| Search.NaNTimeSkipsTimeFilter | app/api/search/route.ts:80-83 | When the query time does not parse, only the gender and the two proximity checks decide whether a trip is kept. |
| Search.Filtered | app/api/search/route.ts:60-85 | The kept trips are exactly `Filter` of the candidates by the route's test: the candidates passing the gender, start/end proximity (5 stations) and time filters, in their original order and each as often as it occurs. The time filter drops a trip only when its difference is a number above 30; a NaN difference passes. |
| Search.Score | app/api/search/route.ts:86-104 | A kept trip's result carries its match label, both distances (finite, at most 5) and its time difference, which is NaN or at most 30. The score is NaN exactly when the time difference is. Otherwise it is `start + end + timeDiff/10`, kept in tenths and at most 13. |
| Search.SearchTrips | app/api/search/route.ts:12-108 | 401 without a user and 400 on missing parameters. Otherwise 200 with the filtered, scored and sorted candidates. |
| Search.RankSorted | app/api/search/route.ts:106 | Any two results that both have a score are in ascending order of score. When the query time and every candidate's time parse, every result has a score. |
| Search.RankNaNTimeKeepsOrder | app/api/search/route.ts:86-106 | With a query time that does not parse, every result has a NaN time difference and score. The comparator then ties every pair, and the results keep the order of the filtered candidates. |
| Search.RankPermutation | app/api/search/route.ts:106 | Sorting neither adds nor drops a scored result: the ranked list is a permutation of it. |
| Search.RankMembers | app/api/search/route.ts:60-106 | A match is in the results of `Rank` (filter, score, sort) exactly when its trip is a candidate that passes every filter and the match is that trip's score. |
| Search.ScoreAllMembers | app/api/search/route.ts:86-104 | The scored list holds exactly the score of each kept trip. |
| Search.RankBounds | app/api/search/route.ts:9-10 | Every result is within 5 stations at both ends. Its time difference, when a number, is at most 30. Its score is NaN exactly when the time difference is, and otherwise lies in 0..13. |
| Search.RankGender | app/api/search/route.ts:63-65 | With a gender filter other than "All", every result's owner has exactly that gender. A trip whose owner profile is missing is dropped. |
| Search.ExactMatchScenario | app/api/search/route.ts:60-106 | A trip between the searched (known) stations at the searched, well-formed time, with no gender filter, is kept, labelled an exact route match and scored 0. |
| Search.SixStopsAwayDropped | app/api/search/route.ts:68-78 | A candidate whose start is 6 stops away is dropped. |
| Sorting.Insert | app/api/search/route.ts:106 | Inserting into a sorted list keeps it sorted and adds exactly that element. |
| Sorting.SortBy | app/api/search/route.ts:106 | The sorted list is ordered by the key and is a permutation of the input. |
| Sorting.SortByMembers | app/api/search/route.ts:106 | Sorting changes no membership. |
| Sorting.SortByPairwise | components/chat-window.tsx:86-88 | A relation holding between every two positions of the input still holds after sorting. Sorting therefore keeps ids distinct. |
| Sorting.InsertEqualKey | app/api/search/route.ts:106 | An element whose key equals every key of the list is inserted at the end. |
| Sorting.SortByEqualKeys | app/api/search/route.ts:106 | When all keys are equal, sorting returns the list unchanged: the sort is stable. |
| StationPicker.GroupStations | components/station-picker.tsx:48-68 | The loop computes `GroupsOf`. It skips the excluded name (line 53), opens a group for each new line (55-59) and takes a name on a line only the first time (61-64). |
| StationPicker.GroupsWellFormed | components/station-picker.tsx:48-68 | Every group is non-empty. It holds only non-excluded stations of its own line taken from the list, each name at most once. |
| StationPicker.GroupsComplete | components/station-picker.tsx:52-64 | Every non-excluded station's name appears in its line's group. |
| StationPicker.GroupKeys | components/station-picker.tsx:52-64 | A line has a group exactly when it has a non-excluded station. |
| StationPicker.GroupsKeepFirst | components/station-picker.tsx:61-64 | The station kept for a name on a line is the first one in the list with that name on that line. |
| StationPicker.GroupsOrdered | components/station-picker.tsx:52-64 | Each group lists its stations in list order. |
| StationPicker.RenderedLines | components/station-picker.tsx:117-119 | The rendered lines are exactly the lines in the display order with a non-empty group, in that order. |
| StationPicker.LineOrderComplete | components/station-picker.tsx:71-83 | The display order lists every metro line, each exactly once. |
| StationPicker.PickerShowsLine | components/station-picker.tsx:48-119 | The picker shows a line exactly when the line is in the display order and has a station other than the excluded one. |
| Display.Initials | components/trip-card.tsx:40-47 | "?" for an empty name, otherwise at most two characters. |
| Display.InitialsAreWordStarts | components/chat-window.tsx:188-195 | The initials are the upper-cased first characters of the first two space-separated words. Empty pieces between repeated spaces contribute nothing. |
| Display.FirstCharsOfSplit | components/profile-modal.tsx:71-78 | Taking each piece's first character after splitting on spaces yields exactly the characters that begin a word. |
| Display.JsRem | components/trip-card.tsx:11 | `a % b` differs from `a` by a multiple of `b`, is smaller than `b` in magnitude, and is never of the opposite sign to `a`: non-negative for `a >= 0`, non-positive for `a < 0`. |
| Display.DisplayHour | components/trip-card.tsx:11 | The displayed hour is 12 for NaN. For a non-negative hour it lies in 1..12 and is congruent to the hour mod 12, so 0 and 12 both show as 12. |
| Display.FormatTimeSpec | components/trip-card.tsx:7-13 | For "HH:MM" with an hour in 0..23, `FormatTime` gives the 12-hour hour, the minutes as written, and AM before noon or PM from noon on. Reading it back as a 24-hour clock gives the hour. |
| Display.TwelveHourRoundTrip | components/trip-card.tsx:7-13 | Every hour of the day survives the 12-hour form: midnight is 12 AM, noon 12 PM, 13-23 are 1-11 PM. |
| Display.MinutesVerbatim | components/trip-card.tsx:8 | The minutes shown are the text after the colon, unchanged. |
| Display.FormatMorningExample | components/trip-card.tsx:7-13 | "08:30" is shown as "8:30 AM". |
| Display.FormatMidnightExample | components/trip-card.tsx:7-13 | "00:05" is shown as "12:05 AM". |
| Display.StatusActions | components/trip-card.tsx:121-161 | Exactly one action per status: Connect (disabled while connecting) for "none", a disabled pending button for "pending", Message for "connected". |
| TripCard.TripCardView | components/trip-card.tsx:40-161 | A card shows the initials, the 12-hour time, and the single action for its connection status. For "pending" that is the "Pending" button. |
| ProfileModal.ProfileView | components/profile-modal.tsx:69-235 | Nothing is rendered exactly when there is no user. Otherwise the dialog shows the initials, the social links and the status action, whose pending text is "Request Pending". |
| ProfileModal.SocialLinks | components/profile-modal.tsx:179-206 | The links block is non-empty exactly when social links are enabled, the status is connected and some handle is non-empty. Then each non-empty handle gets its Instagram/Twitter link and nothing else appears. |
| ProfileModal.DayNames | components/profile-modal.tsx:171 | `WeekdayName` maps each day number to its weekday name, or to "" outside 0..6. |
| ProfileModal.SortDays | components/profile-modal.tsx:170 | The array is sorted in place, ascending, and is a permutation of what it held. |
| ProfileModal.RepeatsLine | components/profile-modal.tsx:164-173 | The line appears only for a repeating trip with a non-empty day array. It then lists the weekday names of the sorted days, and the passed array is left sorted with the same elements. Otherwise the array is untouched. |
| ProfileModal.AscendingUnique | components/profile-modal.tsx:169-172 | Two ascending lists with the same elements are equal. The shown line therefore depends only on which days were chosen. |
| ProfileModal.RepeatsExample | components/profile-modal.tsx:164-173 | Days stored as [5, 1, 3] are shown as "Repeats: Mon, Wed, Fri". |
| ProfileModal.ReportState.HandleReport | components/profile-modal.tsx:87-89 | Opens the report dialog and has no other effect. |
| ProfileModal.ReportState.HandleReportClose | components/profile-modal.tsx:91-94 | Closes the report dialog, then calls `onReport` if passed, in that order. |
| ChatWindow.GroupByDate | components/chat-window.tsx:404-419 | The loop computes `Grouped`: a message opens a new group when its date differs from the last group's, otherwise it joins that group. |
| ChatWindow.GroupedFlatten | components/chat-window.tsx:404-419 | Concatenating the groups gives back the messages in their order. |
| ChatWindow.GroupedWellDated | components/chat-window.tsx:404-419 | Every group is non-empty and its messages all carry its date. Neighbouring groups have different dates. |
| ChatWindow.MergeMessages | components/chat-window.tsx:81-89 | Writing the previous list, then the fetched one, into a Map keyed by id in insertion order and sorting its values equals the specification `SortBy(MergedById(...))`. |
| ChatWindow.MapSetExisting | components/chat-window.tsx:83-85 | `Map.set` for a present key keeps the key's place and takes the new value. |
| ChatWindow.MapSetNew | components/chat-window.tsx:83-85 | `Map.set` for a new key appends it. |
| ChatWindow.SetAllSpec | components/chat-window.tsx:83-85 | After writing a list by id, every id is present once. A written id holds the last message written with it, and an unwritten id keeps its earlier message. |
| ChatWindow.MergeSpec | components/chat-window.tsx:81-89 | The merged list has unique ids: those of both lists. An id the fetch returned holds the fetched message; any other holds the latest local one. The list is ordered by creation time. |
| ChatWindow.AppendIfNew | components/chat-window.tsx:129-133 | A realtime message whose id is already present leaves the list alone. Otherwise it is appended. |
| ChatWindow.AppendIfNewKeepsUnique | components/chat-window.tsx:129-133 | The realtime append keeps ids unique, and delivering the same event twice equals delivering it once. |
| ChatWindow.RemoveById | components/chat-window.tsx:168 | The failure update is exactly `prev.filter((m) => m.id !== id)`: it keeps every message with another id, in order and with every copy, and no other. |
| ChatWindow.ReplaceById | components/chat-window.tsx:173-175 | The success update replaces exactly the messages with that id, position by position. |
| ChatWindow.SendFailureRestores | components/chat-window.tsx:158-169 | A failed send gives back exactly the list from before the optimistic message. |
| ChatWindow.SendFailureAfterArrivals | components/chat-window.tsx:158-169 | A failure also restores the list when realtime messages arrived after the optimistic one: the messages before and after it stay, in order. |
| ChatWindow.SendSuccessReplaces | components/chat-window.tsx:158-175 | A successful send puts the stored message in the optimistic message's place and leaves the rest alone. |
| ChatWindow.RealtimeBeforeResponseDuplicates | components/chat-window.tsx:129-175 | If the realtime event for the stored message arrives before the POST response, the list ends with that message twice and ids are no longer unique. |
| ChatWindow.ChatState.BeginSend | components/chat-window.tsx:143-158 | Nothing happens for blank input, while sending, or without a user. Otherwise the input is cleared, sending is set and the optimistic message with the trimmed content is appended. |
| ChatWindow.ChatState.FinishSend | components/chat-window.tsx:160-177 | A failure response removes the optimistic message and a stored message replaces it; sending is cleared in both cases. When `fetch` rejects or the body is not JSON, the handler throws: the list keeps the optimistic message and sending stays set. |
| ChatWindow.ChatState.Receive | components/chat-window.tsx:127-133 | The list becomes the realtime de-duplicating append of the event's message. |
| ChatWindow.ChatState.Fetched | components/chat-window.tsx:78-89 | The list becomes the by-id merge of the old list and the fetched one, sorted by creation time. |
| ChatWindow.ChatState.constructor | components/chat-window.tsx:31-34 | The chat starts with no messages, empty input and not sending. |
| ChatWindow.AvatarHeadsRun | components/chat-window.tsx:301-305 | Every message from someone else lies in a run from the same sender that starts with a message for which `ShowAvatar` holds. |
| ChatWindow.AvatarOncePerRun | components/chat-window.tsx:301-305 | Within a run from one sender, `ShowAvatar` holds only for the first message. |
| TripForm.ToggleDay | components/trip-form.tsx:72-76 | A selected day is removed by the order-keeping filter, everywhere. An unselected one is appended. Other days keep their multiplicity. |
| TripForm.Without | components/trip-form.tsx:74 | The removal is exactly `prev.filter((d) => d !== day)`: every copy of the day goes, and the other days stay in their order with their multiplicity. A list without the day is unchanged. |
| TripForm.ToggleTwiceRestores | components/trip-form.tsx:72-76 | Toggling an unselected day twice gives back the original selection. |
| TripForm.ToggleFlips | components/trip-form.tsx:72-76 | After a toggle, the day is selected exactly when it was not before. Every other day's selection is unchanged. |
| TripForm.ToggleKeepsOrder | components/trip-form.tsx:72-76 | Toggling 2 off [1, 2, 3] gives [1, 3], in that order. |
| TripForm.Validate | components/trip-form.tsx:78-106 | The recorded errors are exactly `ErrorsOf` of the fields. `ok` holds exactly when they are empty, which is exactly when the fields pass every check. An accepted payload has two different stations, a date and a time, at least one day when repeating, and no past time today when one-off. |
| TripForm.ErrorsOf | components/trip-form.tsx:78-106 | Each error key is present exactly when `ErrorAt` gives a message for it, and holds that message. Equal stations are reported only when both are given. A past time today is reported for one-off trips only. |
| TripForm.ErrorsOfEmptyIff | components/trip-form.tsx:78-106 | No error is recorded exactly when the fields pass every check. |
| TripForm.MissingTimeRequired | components/trip-form.tsx:87-97 | An empty time is reported as "Time is required": it never reads as a past time. |
| TripForm.ValidateAgrees | components/trip-form.tsx:79-104 | The station checks, the date and time checks and the repeat-day check together build exactly `ErrorsOf`. |
| TripForm.CheckStations | components/trip-form.tsx:81-85 | The station checks record the start and end errors exactly under their conditions. |
| TripForm.CheckSchedule | components/trip-form.tsx:86-98 | The date and time checks add only those two keys and keep every earlier error. |
| TripForm.PayloadOf | components/trip-form.tsx:113-120 | A one-off trip is submitted with no repeat days, a repeating one with its selection. |
| TripForm.TripFormState.HandleSubmit | components/trip-form.tsx:108-124 | The recorded errors become `ErrorsOf` of the fields, empty exactly when they pass every check. Only then is the payload submitted. The fields never change. |
| TripForm.TripFormState.ToggleDayOf | components/trip-form.tsx:72-76 | Only the repeat-day selection changes, by `ToggleDay`. |
| TripForm.TripFormState.constructor | components/trip-form.tsx:51-70 | Each field starts from `initialData` when given there. Otherwise it gets its `??` default: no stations, today's date, "09:00", one-off, no repeat days. There are no errors and nothing is submitted. |
| TripForm.OrElse | components/trip-form.tsx:51-68 | `x ?? default` is the value when given and the default when null or undefined. |
| Onboarding.AgeMessage | app/onboarding/page.tsx:51-58 | "Age is required" for an empty or unparsable age, the 18+ message below 18, "Please enter a valid age" above 100, and none exactly in 18..100. |
| Onboarding.ValidateStep1 | app/onboarding/page.tsx:46-64 | The name, age and gender errors are present exactly under their conditions, with their messages, so the record is `Step1Errors`. The name needs at least 2 UTF-16 code units after trimming. The result is true exactly when the record is empty, which is exactly when all three fields are acceptable. |
| Onboarding.Step1Errors | app/onboarding/page.tsx:46-64 | A key is present exactly when its field is unacceptable, and holds that field's message. |
| Onboarding.Step1Agrees | app/onboarding/page.tsx:46-64 | A record with the three entries filled in under their conditions, and no other key, is `Step1Errors`. |
| Onboarding.PictureOf | app/onboarding/page.tsx:127 | The uploaded URL if non-empty, else the sign-in avatar if non-empty, else null. |
| Onboarding.OnboardingState.HandleNext | app/onboarding/page.tsx:107-111 | Validation runs only on step 1, and its record becomes the errors: exactly `Step1Errors` of the fields. Step 2 is reached exactly when that record is empty, which is exactly when the fields are acceptable. |
| Onboarding.OnboardingState.HandleBack | app/onboarding/page.tsx:113-115 | Step 2 goes back to step 1. Every other step is unchanged. |
| Onboarding.OnboardingState.HandleSave | app/onboarding/page.tsx:117-141 | Nothing without a user. Otherwise the profile update (trimmed name, parsed age, gender, picture, completed flag) is sent. Step 3 is reached only when it succeeds, and saving is cleared either way. |
| Onboarding.OnboardingState.Edit | app/onboarding/page.tsx:35-37 | Typing changes only the name, age and gender fields. |
| Onboarding.OnboardingState.constructor | app/onboarding/page.tsx:30-44 | The page starts on step 1 with the sign-in name, if any, and nothing else filled in. |
| ApiTrips.PostTrip | app/api/trips/route.ts:37-76 | 401 without a user. 400 when a required field is falsy, or when the stations are strictly equal. Otherwise a 201 with the caller's trip: the four fields unchanged, and `is_repeating`/`repeat_days` defaulting to false/[] exactly when null or absent. It never crashes. |
| ApiProfile.ValidationError | app/api/profile/route.ts:48-74 | The first failing check in the order name, age, gender, each with its message. The name check counts UTF-16 code units of the trimmed name. None exactly when all supplied fields are valid. |
| ApiProfile.EmojiNameAccepted | app/api/profile/route.ts:49-53 | A single emoji is two UTF-16 code units, so it passes the 2-character name check. |
| ApiProfile.BuildUpdateData | app/api/profile/route.ts:76-85 | The builder throws exactly when a supplied free-text field is neither a string nor null. Otherwise it produces `UpdateRecord`: exactly the supplied fields, each normalised. |
| ApiProfile.Step | app/api/profile/route.ts:77-85 | One field's step stores it when supplied, or throws for a free-text field that is not a string or null. |
| ApiProfile.StepsFreeText | app/api/profile/route.ts:80-83 | The first free-text field holding neither a string nor null aborts the builder. |
| ApiProfile.RecordComplete | app/api/profile/route.ts:76-85 | After all nine steps the record is exactly the supplied fields. |
| ApiProfile.PatchProfile | app/api/profile/route.ts:40-98 | 401 without a user, the first validation failure as a 400, a 500 from `.trim()` on a non-string free-text field, otherwise the update record. |
| ApiProfile.UpdateRecordValid | app/api/profile/route.ts:48-85 | A stored record holds only supplied fields: a trimmed name of at least 2 UTF-16 code units, an age in 18..100, one of the three genders, and free-text fields that are null or non-empty trimmed text. |
| ApiProfile.StoredFreeText | app/api/profile/route.ts:80-83 | Normalising a string or null free-text value (trim, empty becoming null) never throws and yields null or non-empty trimmed text. |
| ApiConnections.PartitionOf | app/api/connections/route.ts:37-51 | Pending holds exactly the caller's incoming pending rows, sent the outgoing pending ones, accepted the accepted ones, each in input order. The count is the pending length, and a null result gives empty lists. |
| ApiConnections.PartitionCounts | app/api/connections/route.ts:38-44 | Each list keeps every qualifying row as often as it occurs and no other row. |
| ApiConnections.OtherStatusesHidden | app/api/connections/route.ts:38-44 | A row of any other status appears in no list. An accepted row is never pending or sent. |
| ApiConnections.PendingSentDisjoint | app/api/connections/route.ts:38-43 | A row between two different people is never both pending and sent. |
| ApiConnections.PostConnection | app/api/connections/route.ts:60-110 | 401, then 400 for a falsy recipient, then 400 for oneself. A 409 carrying the existing status exactly when a connection exists either way. Otherwise a 201 with the caller as requester. It never crashes. |
| ApiMessages.GetMessages | app/api/messages/route.ts:10-50 | 401, then 400 for a missing or empty `connection_id`, then 404 unless it names an accepted connection of the caller. Otherwise exactly that connection's messages, in stored order. |
| ApiMessages.ContentCheck | app/api/messages/route.ts:63-78 | "required" for a falsy id or a blank/null/absent content. A `TypeError` for non-string content. "too long" for more than 500 UTF-16 code units, counted before trimming. Otherwise it passes. |
| ApiMessages.PostMessage | app/api/messages/route.ts:59-110 | The content checks, then the accepted-connection guard (404), then a 201 inserting the trimmed content with the caller as sender. A crash exactly when the content check throws. |
| ApiMessages.StoredMessageValid | app/api/messages/route.ts:63-101 | A stored message is non-empty trimmed text of at most 500 UTF-16 code units, sent by the caller into an accepted connection the caller belongs to. |
| ApiMessages.LimitIsOnUntrimmed | app/api/messages/route.ts:73-78 | The limit is applied before trimming: a 500-unit text followed by a space is rejected, although the trimmed text would fit. |
| ApiPeople.BuildConnectionMap | app/api/people/route.ts:46-51 | The loop computes `LinksOf` over `connections ?? []`. |
| ApiPeople.LinksOfLast | app/api/people/route.ts:48-51 | The map's keys are exactly the other parties. Each entry comes from the last connection with that person. |
| ApiPeople.Annotate | app/api/people/route.ts:53-57 | One result per profile, in order, each carrying that profile. |
| ApiPeople.AnnotateEntries | app/api/people/route.ts:55-56 | A result carries its map entry's status and id, or "none" and null when there is no entry. |
| ApiPeople.SearchPeople | app/api/people/route.ts:11-57 | 401, then 400 when the trimmed query is missing or shorter than 2 UTF-16 code units. An empty result for no profiles, and one result per profile otherwise. It never crashes. |
| ApiPeople.ResultStatus | app/api/people/route.ts:46-57 | A result's id is null exactly when no connection involves that person. Otherwise it carries the status and id of the last connection with them. |
| ApiReports.ReportError | app/api/reports/route.ts:27-50 | The first failing check in the handler's order: required fields, self-report, reason outside the six, a string description over 500 UTF-16 code units. Each holds exactly under its condition. |
| ApiReports.PostReport | app/api/reports/route.ts:20-83 | 401, the first check as a 400, 409 exactly when a pending report exists, a crash for a non-string description. Otherwise a 201 with the trimmed-or-null description. |
| ApiReports.StoredReportValid | app/api/reports/route.ts:41-74 | A stored report has a listed reason, a reported user other than the reporter, and a null or non-empty trimmed description of at most 500 UTF-16 code units. |
| ReportModal.FailureMessage | components/report-modal.tsx:113-119 | For a response that arrived: 409 shows the duplicate message. Otherwise it is the server's error, or "Failed to submit report" when the server sent none. |
| ReportModal.ReportDialog.HandleSubmit | components/report-modal.tsx:99-126 | Nothing without a reason. Otherwise the request, with the trimmed-or-null description, is sent. A failure with a JSON body adds the failure toast and stays; a success moves to the done step; submitting is cleared in both. A rejected `fetch`, or a failure whose body is not JSON, throws: the step and toasts stay and submitting remains set. |
| ReportModal.ReportDialog.HandleClose | components/report-modal.tsx:82-92 | Resets to the reason step with nothing chosen, then calls `onClose` once. |
| ReportModal.ReportDialog.HandleSelectReason | components/report-modal.tsx:94-97 | Records the reason and moves to the details step. |
| ReportModal.ReportDialog.Back | components/report-modal.tsx:197 | Back returns to the reason step and keeps the reason and description. |
| ReportModal.ReportDialog.SetDescription | components/report-modal.tsx:79 | Typing changes only the description. |
| ReportModal.ReportDialog.constructor | components/report-modal.tsx:75-80 | The dialog opens on the reason step with nothing chosen. |
| ReportModal.OfferedReasonsAccepted | components/report-modal.tsx:32-67 | Every reason the dialog offers is one the reports endpoint accepts. |
| ReportModal.SentDescriptionStable | components/report-modal.tsx:109 | The description the dialog sends is left unchanged by the endpoint's own normalisation and never makes it throw. |
| BottomNav.ActiveRule | components/layout/bottom-nav.tsx:34-37 | Home is highlighted on "/dashboard" only. Every other item is highlighted on any path starting with its `href`. |
| BottomNav.NoSegmentBoundary | components/layout/bottom-nav.tsx:37 | No path-segment boundary is checked: "/searching" highlights Search. |
| BottomNav.Badge | components/layout/bottom-nav.tsx:61-66 | The badge appears only on Connects with a positive count. It shows "9+" above 9, otherwise the single digit. |
| DesktopSidebar.ActiveRule | components/layout/desktop-sidebar.tsx:51-55 | "/dashboard" and "/trips/new" are highlighted on an exact match. Every other item is highlighted on a prefix match. |
| DesktopSidebar.ProfileRule | components/layout/desktop-sidebar.tsx:32 | The profile link is highlighted exactly on paths starting with "/profile". |
| DesktopSidebar.TwoItemsOnNewTrip | components/layout/desktop-sidebar.tsx:51-55 | On "/trips/new" both Add Trip and My Trips are highlighted. |
| DesktopSidebar.Badge | components/layout/desktop-sidebar.tsx:71-75 | The badge appears only on Connections with a positive count, showing the uncapped decimal count. |
| Middleware.UpdateSession | lib/supabase/middleware.ts:39-60 | Signed-out visitors on non-public paths are sent to "/". Signed-in visitors on "/" are sent to "/dashboard". Every other request passes through. |
| Middleware.PublicPathsExactly | lib/supabase/middleware.ts:39-42 | The public paths are exactly "/", "/auth/callback" and "/auth/login", by equality (no prefixes). |
| Middleware.RedirectSettles | lib/supabase/middleware.ts:44-57 | Following a redirect never leads to another redirect. |
| Middleware.SignedInSeesLogin | lib/supabase/middleware.ts:39-60 | A signed-in user may still open the login page. |
| Js.Trim | app/api/messages/route.ts:101 | `trim` removes exactly a whitespace prefix and suffix: the result is an infix starting and ending with non-whitespace. |
| Js.TrimEmptyIffBlank | app/api/messages/route.ts:63-71 | A string trims to "" exactly when it is all whitespace. |
| Js.TrimIdempotent | app/api/profile/route.ts:77 | Trimming twice is trimming once. |
| Js.TrimKeepsUnpadded | app/api/profile/route.ts:49 | A string with no whitespace at either end is its own trim. |
| Js.Utf16Length | app/api/messages/route.ts:73 | `length` counts UTF-16 code units: at least one per character and at most two. |
| Js.Utf16LengthAppend | app/api/messages/route.ts:73 | The length of a concatenation is the sum of the lengths. |
| Js.Utf16LengthBasic | app/api/messages/route.ts:73 | Text without code points above U+FFFF has one unit per character. |
| Js.Utf16LengthSplit | app/api/messages/route.ts:73 | Cutting a string in two splits its length into the lengths of the parts. |
| Js.Utf16LengthInfix | app/api/messages/route.ts:73 | An infix is never longer than the whole string. |
| Js.TrimShortens | app/api/messages/route.ts:73-101 | Trimming never makes a string longer in code units. |
| Js.EmojiLength | app/api/messages/route.ts:73 | One emoji is one character but two code units. |
| Js.OptionalTrim | app/api/profile/route.ts:80 | `v?.trim()` throws exactly for a value that is neither a string, null nor undefined. |
| Js.SplitJoin | components/trip-card.tsx:8 | Joining the pieces of a split with the separator gives back the string. |
| Js.DecimalRoundTrip | lib/matching.ts:81 | The decimal text of a count reads back as that count. |
| Lists.Filter | app/api/connections/route.ts:38-44 | `filter` keeps exactly the elements that pass, in order. |
| Lists.FilterCount | app/api/connections/route.ts:38-44 | `filter` keeps each passing element as often as it occurs. |
| Lists.FilterAppend | app/api/connections/route.ts:38-44 | Filtering a concatenation filters each part and concatenates the results. |
| Lists.FilterCons | app/api/search/route.ts:60-85 | Filtering a list with a head gives the head if it passes, then the filtered tail. |
| Lists.FilterAll | components/chat-window.tsx:168 | A list whose every element passes is kept whole. |

## Left out

- Database access is not modelled: queries, their orderings (`order("updated_at")`, `order("created_at")`), the `ilike` name search with `limit(20)` and the 500 answers to database errors. A query result is a parameter of the handler.
- The search's database preselection is not modelled: the candidates on the date, or repeating on its weekday, excluding the caller (app/api/search/route.ts:37-53). The candidate list is a parameter.
- Authentication is the `caller` parameter: `auth.getUser()`, the cookie plumbing in lib/supabase/middleware.ts:9-30, and the auth context in lib/auth-context.tsx.
- Time comes in as parameters: `Date.now()`, `new Date()`, `toISOString` and the locale date used as the chat's group key.
- Search.Score: the score is kept in exact tenths (`10*start + 10*end + timeDiff`), not as the source's floating-point `start + end + timeDiff*0.1`. The two order results the same way except for scores that agree to the tenth, where float rounding can split a tie: (0, 0, 12) gives 1.2000000000000002 and (1, 0, 2) gives 1.2, so the source puts the second first while the model keeps the database order.
- Search.SearchTrips: inherits the exact-tenths ranking of Search.Score, so its order can differ from the source's on ties within a tenth.
- Search.RankSorted: when the query time parses but a candidate's stored time does not, that result's score is NaN and the source's comparator is inconsistent (NaN against a number counts as a tie), so the source's order is engine-defined. The model sorts such a result with key 0. Membership and permutation still hold, and ordering is stated only among results with a score.
- `parseInt` and `Number` conversions are given as inputs: the parsed hour, the onboarding age and the profile age.
- Search.TimeDiff: the `split(":").map(Number)` reading of a time is given as whole hours and minutes (`ClockTime` holds two integers), or NaN. A fractional reading such as "8.5:00" is not modelled; times come from a time input or a `time` column, which never hold one.
- ApiMessages.PostMessage: matches the guard's `.eq("id", connection_id)` by equality with the string id, so a non-string `connection_id` finds no row. The database's coercion of non-string ids is not modelled.
- ChatWindow.GroupByDate: requires every date key to be non-empty, as `toLocaleDateString("en-CA")` always is. With an empty first key the source would index `groups[-1]` and throw.
- TripForm.Validate: `beforeNow` is given. It says whether today at the given time is in the past, and is false when the time does not parse (an invalid date never compares less); an empty time is such a time, so it keeps "Time is required".
- Js.UpperChar: `toUpperCase` is modelled for ASCII letters only.
- Avatar upload (app/onboarding/page.tsx:66-105), `handleSkip` (143-154) and router navigation after a step are left out. They are I/O.
- Rendering details are left out: CSS classes, icons, toasts beyond their text, scrolling, focus, and the polling and subscription lifecycle of the chat window.
- ReportModal.ReportDialog.SetDescription: the textarea's `maxLength={500}` (components/report-modal.tsx:184) is not modelled, so any text can be typed. The endpoint's own 500-unit check is modelled, and no property here depends on the textarea's limit.
- StationPicker.LineOrderComplete: the line enum comes from lib/metro-data, which is not part of this model. The model assumes it has exactly the eleven lines of the picker's `lineOrder`, so this lemma holds by construction. A line missing from `lineOrder` would never be shown by the picker.
- StationPicker.PickerShowsLine: the picker's own rule is stated for any line (in `lineOrder` and with a non-excluded station). That every line with a station is shown rests on the eleven-line assumption above.
- The station topology is not modelled: lib/metro-data is not part of this model, and every property is proved for any station list. lib/validations.ts is not part of this model.
- The sort stands for the platform's `Array.prototype.sort`. It is proved to order by the key, to permute its input and to keep equal keys in order (`SortByEqualKeys`) only for a list whose keys are all equal; stability on mixed keys is not stated.
- Matching.GetMinStationDistance: the station index is a plain object in the source, so a station name that is an `Object.prototype` property (`toString`, `constructor`, `__proto__`, ...) finds an inherited function, whose iteration throws a `TypeError` and a 500. The model's index holds only the listed names (its specification `MinStationDistance` likewise), so such a name is unknown and gives `Inf`.
- Matching.WithinStationsSpec: for the same reason it states `false` for a prototype-property name, where the source throws.
- Search.SearchTrips: for the same reason a search with `start_station=toString` (or another prototype name) is a 500 in the source and a 200 in the model, which drops every candidate as out of range.
- ApiTrips.PostTrip: the body is given already parsed. A malformed or `null` JSON body makes `request.json()` or the destructuring throw, which is a 500 in the source and is not modelled.
- ApiConnections.PostConnection: the same holds for its body; a malformed or `null` body is a 500 not modelled.
- ApiMessages.PostMessage: the same holds for its body; a malformed or `null` body is a 500 not modelled.
- ApiProfile.PatchProfile: the same holds for its body; a malformed or `null` body is a 500 not modelled.
- ApiReports.PostReport: the same holds for its body; a malformed or `null` body is a 500 not modelled.
- ApiReports.ReportError: a JSON object has no fields in the model (`Obj`). An object description with its own numeric `length` (`{"length": 600}`) is a 400 in the source, because its `length` exceeds 500, while the model's `.trim()` on it crashes.
- Display.Initials: works on code points. The source's `n[0]` and `slice(0, 2)` work on UTF-16 units and can cut an emoji into a lone surrogate, which a Dafny `char` cannot hold.
- ChatWindow.ChatState.FinishSend: the failure toast and the refocusing of the input are not modelled.
