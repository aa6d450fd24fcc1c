# Telemedicine app: signalling registry and list logic, modelled in Dafny

This project models the parts of the telemedicine web app that hold state or compute
over lists:

- **The call-room signalling registry** (`app/api/signaling/route.js`), in
  `signaling.dfy`. Two process-wide maps, `connections` (user → room, role, join time)
  and `rooms` (room → member Set), are changed in place by three handlers:
  - GET joins a room.
  - POST computes the fan-out list of a signal.
  - DELETE leaves the recorded room.

  The class `Registry` holds the two maps. Each handler is a method proved against a
  specification function on a snapshot of the maps: `JoinOutcome`, `SignalResponse`
  and `LeaveOutcome`. Lemmas prove that both handlers that change the maps keep the
  registry invariant `Inv`:
  - no room is stored empty;
  - no member is listed twice;
  - every connected user is a member of their recorded room.

  Further lemmas prove the participant count, the fan-out list, idempotent leave, and
  a concrete two-user session.
- **The patients debug report** (`app/api/debug/patients/route.js`), in
  `debug_patients.dfy`. It covers:
  - users without a patient profile;
  - the `indexOf`-based duplicate detection, with its length, its "occurs twice"
    property and its "empty iff no repeats" property;
  - the issues list.
- **The admin statistics route** (`app/api/admin/stats/route.js`), in
  `admin_stats.dfy`. It covers:
  - the 401/404/403 gate, including the development bypass;
  - `monthKey`, with a format lemma, a round trip through the key parser, and
    injectivity;
  - the `forEach` loop filling the month-count map, as a method with a loop invariant;
  - the sort by date, proved to be a sorted permutation of the map's entries.
- **The prescription form** (`app/components/PrescriptionForm.js`), in
  `prescription_form.dfy`. The class `Form` holds the component's state variables. It
  covers adding, removing and updating medication rows, the blank-name filter applied
  on submit, and the reset after a successful save.
- **The doctor dashboard** (`app/doctor-dashboard/page.js`), in `doctor_dashboard.dfy`.
  It covers the search-and-status filter, the status badge colours, the status counts
  and the number of distinct active patients.

Two shared modules:
- `wrappers.dfy` has `Option` and JavaScript truthiness of an optional string.
- `seqs.dfy` has order-preserving `Filter`, `Count`, subsequences, and duplicate-free
  sequences with their element sets.

A JavaScript `Set` is modelled as a duplicate-free sequence in insertion order. That is
the order `Array.from` lists it in.

**Re-joining a different room.** The route overwrites the user's connection but does
not remove the user from the old room's member Set (lines 25-30). A later DELETE
removes the user only from the newly recorded room. So a user can be listed in several
rooms, and can stay listed in a room they no longer have a connection for.
`Signaling.RejoinLeavesStaleMembership` proves that this happens. For this reason `Inv`
does not include "at most one room per user".

## Model

| member | source | states |
|---|---|---|
| Signaling.Status | app/api/signaling/route.js:8-103 | 401 exactly for Unauthorized, 400 exactly for a bad request, 200 exactly for the three success answers, 500 exactly for the internal error the `catch` blocks return |
| Signaling.AddMember | app/api/signaling/route.js:27-30 | `set.add`: the members plus `u`, still duplicate-free, one longer exactly when `u` was new, with the old members kept first in their order |
| Signaling.MembersOf | app/api/signaling/route.js:60 | `rooms.get(roomId)`, or a new empty Set: the room's members, or none for an unknown room; its use is stated by `JoinOutcome`, `SignalResponse` and `SignalRecipients` |
| Signaling.Without | app/api/signaling/route.js:60-61 | the members other than `u`, in room order (a subsequence), duplicate-free when the room was |
| Signaling.JoinOutcome | app/api/signaling/route.js:8-42 | 401 with no change when unauthenticated; 400 with no change when roomId or userRole is missing; otherwise the caller's connection is overwritten, the room is created if absent and gains the caller, other rooms are untouched, and `participants` is the new member count |
| Signaling.SignalResponse | app/api/signaling/route.js:44-75 | 401 when unauthenticated, 500 for a body that is `null` or not valid JSON (`None`), 400 when roomId or type is missing or falsy (including any body that is not an object); otherwise the recipients are exactly the room's members other than the caller, in room order (none for an unknown room) |
| Signaling.RoomsAfterLeave | app/api/signaling/route.js:88-94 | the room survives exactly when someone other than the caller is in it, and then holds its other members in their order (`Without`); every other room is untouched; no room is added |
| Signaling.LeaveOutcome | app/api/signaling/route.js:77-103 | 401 with no change when unauthenticated; otherwise always success; no connection means no change; else the connection is deleted, others kept, and the recorded room loses the caller and is dropped once empty |
| Signaling.EmptyRegistryInv | app/api/signaling/route.js:5-6 | the empty maps satisfy the registry invariant |
| Signaling.JoinKeepsInv | app/api/signaling/route.js:24-30 | join keeps: no empty room, no duplicate member, every connected user in their recorded room |
| Signaling.LeaveKeepsInv | app/api/signaling/route.js:85-96 | leave keeps the same three invariants |
| Signaling.JoinCountsDistinctMembers | app/api/signaling/route.js:32-37 | the `participants` figure is the number of distinct members of the room |
| Signaling.RepeatedJoinKeepsCount | app/api/signaling/route.js:25-36 | joining the same room again changes neither the rooms nor the count |
| Signaling.SignalRecipients | app/api/signaling/route.js:60-61 | the fan-out list never names the caller, names no one twice, and is one shorter than the room exactly when the caller is a member |
| Signaling.LeaveIsIdempotent | app/api/signaling/route.js:85-98 | a second leave answers the same and changes nothing |
| Signaling.RejoinLeavesStaleMembership | app/api/signaling/route.js:25-30 | join a, join b, leave: the user has no connection but is still listed in room a |
| Signaling.SessionFirstJoin | app/api/signaling/route.js:24-37 | first join into an empty registry: one member, count 1 |
| Signaling.SessionSecondJoin | app/api/signaling/route.js:24-37 | a second user joins: two members in join order, count 2 |
| Signaling.SessionSignal | app/api/signaling/route.js:59-70 | a signal from the first user reaches exactly the second |
| Signaling.SessionSecondLeaves | app/api/signaling/route.js:85-98 | the second user leaves: the first is alone in the room |
| Signaling.SessionFirstLeaves | app/api/signaling/route.js:85-98 | the last user leaves: the registry is empty again |
| Signaling.Registry.constructor | app/api/signaling/route.js:5-6 | both maps start empty and the invariant holds |
| Signaling.Registry.Join | app/api/signaling/route.js:8-42 | updating the maps in place gives exactly `JoinOutcome`'s new state and answer, and keeps the invariant |
| Signaling.Registry.Signal | app/api/signaling/route.js:44-75 | changes nothing, answers `SignalResponse`, and never lists the caller |
| Signaling.Registry.Leave | app/api/signaling/route.js:77-103 | updating the maps in place gives exactly `LeaveOutcome`'s new state and answer, and keeps the invariant |
| DebugPatients.UsersWithoutPatients | app/api/debug/patients/route.js:43 | exactly the users with an empty `patients` list, in their original order |
| DebugPatients.ClerkIds | app/api/debug/patients/route.js:49 | the clerk ids, position by position |
| DebugPatients.Emails | app/api/debug/patients/route.js:50 | the e-mails, position by position |
| DebugPatients.IndexOf | app/api/debug/patients/route.js:51 | -1 exactly when absent, else the first position holding the value |
| DebugPatients.IndexOfIsFirst | app/api/debug/patients/route.js:51 | `indexOf(s[k]) !== k` exactly when `s[k]` occurs before `k` |
| DebugPatients.RepeatTestKeepsRepeats | app/api/debug/patients/route.js:51 | the filter's test keeps exactly the positions whose value occurred earlier |
| DebugPatients.KeepRepeatsLength | app/api/debug/patients/route.js:51 | on every prefix, kept entries plus distinct values equal the prefix length |
| DebugPatients.Duplicates | app/api/debug/patients/route.js:51-52 | `s.filter((x, i) => s.indexOf(x) !== i)`; its properties are `DuplicatesLength`, `DuplicatesOccurTwice` and `NoDuplicatesIff` |
| DebugPatients.DuplicatesLength | app/api/debug/patients/route.js:51-52 | the duplicate list's length is the list's length minus its number of distinct values |
| DebugPatients.KeptRepeatOccursEarlier | app/api/debug/patients/route.js:51 | every kept value occurs at two positions of the prefix |
| DebugPatients.DuplicatesOccurTwice | app/api/debug/patients/route.js:51-52 | every reported duplicate occurs at least twice in the input |
| DebugPatients.NoDuplicatesIff | app/api/debug/patients/route.js:51-52 | the duplicate list is empty exactly when no value repeats |
| DebugPatients.IssuesOf | app/api/debug/patients/route.js:40-65 | the issues list; its properties are `IssuesListFindings`, `IssuesOrdered` and `NoIssuesIff`, and `CollectIssues` builds it by pushes |
| DebugPatients.IssuesListFindings | app/api/debug/patients/route.js:44-59 | each finding is listed exactly when its list is non-empty, and nothing else appears but the placeholder |
| DebugPatients.IssuesOrdered | app/api/debug/patients/route.js:44-59 | the findings appear in the order: users without profiles, clerk ids, e-mails |
| DebugPatients.NoIssuesIff | app/api/debug/patients/route.js:65 | the placeholder appears exactly when all three lists are empty, and then alone |
| DebugPatients.CollectIssues | app/api/debug/patients/route.js:40-65 | the successive pushes build exactly `IssuesOf` |
| DebugPatients.DebugReport | app/api/debug/patients/route.js:36-102 | the report holds the two counts, the filtered users, both duplicate lists and their issues; "No issues detected" exactly when every user has a profile and neither ids nor e-mails repeat |
| AdminStats.AccessStatus | app/api/admin/stats/route.js:9-29 | 401, 404, 403 and 200 each exactly for their outcome |
| AdminStats.FindFirstByClerkId | app/api/admin/stats/route.js:14-16 | None exactly when no row has the clerk id, else the first such row |
| AdminStats.Authorize | app/api/admin/stats/route.js:7-29 | Unauthorized iff no user id; UserNotFound iff no row; AdminRequired iff the row is not ADMIN outside development; Granted otherwise |
| AdminStats.OnlyAdminsOutsideDevelopment | app/api/admin/stats/route.js:22-29 | outside development only a user with an ADMIN row is granted |
| AdminStats.DevelopmentAdmitsEveryUser | app/api/admin/stats/route.js:22-29 | in development a signed-in user is granted exactly when they have a row |
| AdminStats.Digit | app/api/admin/stats/route.js:74 | a decimal digit character with the given value |
| AdminStats.DecimalString | app/api/admin/stats/route.js:74 | `String(n)`; its properties are `DecimalStringDigits` and `FourDigitYear` |
| AdminStats.DecimalStringDigits | app/api/admin/stats/route.js:74 | `String(n)` is non-empty, all digits, reads back as `n`, and has no leading zero |
| AdminStats.FourDigitYear | app/api/admin/stats/route.js:74 | a year from 1000 to 9999 prints as four digits |
| AdminStats.PadStart2 | app/api/admin/stats/route.js:74 | `padStart(2, '0')`; its properties are `PadStart2Pads` and `PaddedMonth` |
| AdminStats.PadStart2Pads | app/api/admin/stats/route.js:74 | the result is max(2, length) long, ends with the input, and everything before the input is '0' |
| AdminStats.TwoDigitsValue | app/api/admin/stats/route.js:74 | the value of a two-digit string |
| AdminStats.PaddedMonth | app/api/admin/stats/route.js:74 | the padded month is two digits reading back as month + 1 |
| AdminStats.MonthKey | app/api/admin/stats/route.js:74 | `monthKey`; its properties are `MonthKeyFormat`, `MonthKeyRoundTrip` and `MonthKeyInjective` |
| AdminStats.ParseMonthKey | app/api/admin/stats/route.js:82 | `new Date(key)` on a `YYYY-MM-01` key; `MonthKeyRoundTrip` proves it inverts `MonthKey` |
| AdminStats.DateValue | app/api/admin/stats/route.js:82 | the comparator's value of a key; `DateValueOrder` and `DateValueOfKeys` state it |
| AdminStats.MonthKeyFormat | app/api/admin/stats/route.js:74 | the key is `YYYY-MM-01`: four year digits, a dash, the month + 1 in two digits, "-01" |
| AdminStats.MonthKeyRoundTrip | app/api/admin/stats/route.js:74 | parsing a key gives back the year and month it was made from |
| AdminStats.MonthKeyInjective | app/api/admin/stats/route.js:74-78 | two dates share a key exactly when they have the same year and month |
| AdminStats.DateValueOrder | app/api/admin/stats/route.js:82 | the comparator orders keys by (year, month) and ties exactly equal months |
| AdminStats.MonthKeys | app/api/admin/stats/route.js:76-77 | the key of every fetched date, in order |
| AdminStats.Occurrences | app/api/admin/stats/route.js:78 | the count is at most the length and zero exactly when the key is absent |
| AdminStats.Buckets | app/api/admin/stats/route.js:80-81 | one `{date, count}` entry per map key, in insertion order |
| AdminStats.CountByMonth | app/api/admin/stats/route.js:75-79 | the map's keys are distinct and are exactly the fetched months; each count is that month's number of dates, at least 1; the counts sum to the number of dates; no more keys than dates |
| AdminStats.SortBy | app/api/admin/stats/route.js:82 | `.sort(...)` by a key; `SortByPermutes`, `SortBySorted`, `SortByNoDup` and `SortByTotal` state it |
| AdminStats.SortByPermutes | app/api/admin/stats/route.js:82 | the sort is a permutation of its input |
| AdminStats.SortBySorted | app/api/admin/stats/route.js:82 | the sort's output is ordered by the comparator's key |
| AdminStats.SortByNoDup | app/api/admin/stats/route.js:82 | the sort keeps exactly the input's entries and keeps them duplicate-free |
| AdminStats.SortByTotal | app/api/admin/stats/route.js:82 | the sort keeps the sum of the counts |
| AdminStats.BucketsDistinct | app/api/admin/stats/route.js:80-81 | the entries of a map are distinct, one per date |
| AdminStats.SortedTallyIncreasing | app/api/admin/stats/route.js:80-82 | sorted by a key that tells dates apart, the dates strictly increase |
| AdminStats.SortedTallyContents | app/api/admin/stats/route.js:75-82 | the sorted entries are exactly the months seen, each with its number of occurrences, at least 1 |
| AdminStats.SortedTallySize | app/api/admin/stats/route.js:75-82 | the sorted entries sum to the number of dates and are no more than the dates |
| AdminStats.DateValueOfKeys | app/api/admin/stats/route.js:82 | the comparator's value of every key is its month count year * 12 + month |
| AdminStats.KeysSeparated | app/api/admin/stats/route.js:82 | such a comparator gives different keys of the fetched dates different values |
| AdminStats.AppointmentsByMonth | app/api/admin/stats/route.js:73-82 | one entry per month with appointments, exactly those months, each with its count (at least 1), counts summing to the number of dates, strictly ascending by date |
| AdminStats.StrictlyIncreasingNoDup | app/api/admin/stats/route.js:80-82 | strictly ascending dates are distinct |
| AdminStats.GetStats | app/api/admin/stats/route.js:5-99 | denied exactly when the gate does not grant, with the gate's status; when granted the bucket dates are exactly the fetched months, each with that month's number of dates (at least 1), strictly ascending by date, no date repeated, counts summing to the number of dates, and no more buckets than dates |
| PrescriptionForm.WithField | app/components/PrescriptionForm.js:31 | the named field takes the value and the other four are unchanged |
| PrescriptionForm.WithBlankAdded | app/components/PrescriptionForm.js:16-21 | one longer, earlier rows unchanged, the new last row blank |
| PrescriptionForm.WithoutRow | app/components/PrescriptionForm.js:23-27 | with one row or an out-of-range index, unchanged; otherwise exactly position `index` is removed, order kept; never empties a non-empty list |
| PrescriptionForm.WithFieldAt | app/components/PrescriptionForm.js:29-33 | same length; one field of row `index` set and its other fields kept; every other row unchanged; an index without a row changes nothing |
| PrescriptionForm.TrimStart | app/components/PrescriptionForm.js:45 | removes exactly a leading run of white space, ending at a non-space or the end |
| PrescriptionForm.TrimEnd | app/components/PrescriptionForm.js:45 | removes exactly a trailing run of white space, ending at a non-space or the start |
| PrescriptionForm.Trim | app/components/PrescriptionForm.js:45 | `s.trim()`; its properties are `TrimStart`, `TrimEnd` and `TrimEmptyIff` |
| PrescriptionForm.TrimAllSpace | app/components/PrescriptionForm.js:45 | a string of white space only trims to "" |
| PrescriptionForm.TrimmedAwayAllSpace | app/components/PrescriptionForm.js:45 | a string that trims to "" is white space only |
| PrescriptionForm.TrimBothEmptyIff | app/components/PrescriptionForm.js:45 | trims to "" exactly when every character is white space |
| PrescriptionForm.TrimEmptyIff | app/components/PrescriptionForm.js:45 | `s.trim() === ''` exactly when every character is one that `trim` removes |
| PrescriptionForm.SubmittedMedications | app/components/PrescriptionForm.js:45 | exactly the rows whose name has a character other than white space, in order |
| PrescriptionForm.Form.constructor | app/components/PrescriptionForm.js:8-13 | one blank row, empty diagnosis and notes |
| PrescriptionForm.Form.AddMedication | app/components/PrescriptionForm.js:16-21 | the list becomes `WithBlankAdded` of the old list; diagnosis and notes kept; never empty |
| PrescriptionForm.Form.RemoveMedication | app/components/PrescriptionForm.js:23-27 | the list becomes `WithoutRow` of the old list; never empty |
| PrescriptionForm.Form.UpdateMedication | app/components/PrescriptionForm.js:29-33 | the list becomes `WithFieldAt` of the old list; never empty |
| PrescriptionForm.Form.SetDiagnosis | app/components/PrescriptionForm.js:147 | only the diagnosis changes |
| PrescriptionForm.Form.SetNotes | app/components/PrescriptionForm.js:265 | only the notes change |
| PrescriptionForm.Form.Payload | app/components/PrescriptionForm.js:83-90 | the PDF request body: the form's ids, diagnosis and notes, and the named rows |
| PrescriptionForm.Form.Submit | app/components/PrescriptionForm.js:35-78 | with an empty diagnosis (the `required` textarea, line 151) nothing is sent and the form is kept; otherwise sends exactly the form's `Payload` (ids, diagnosis, notes and named rows); after a successful save the form is one blank row with empty texts; after a failure it is unchanged |
| DoctorDashboard.ToLower | app/doctor-dashboard/page.js:92-94 | same length; ASCII capitals lowered and every other character kept |
| DoctorDashboard.Includes | app/doctor-dashboard/page.js:92-94 | true exactly when the needle occurs at some position of the haystack |
| DoctorDashboard.MatchesSearch | app/doctor-dashboard/page.js:92-94 | `matchesSearch`; `FilteredAppointments` and `EmptySearchKeepsSearchable` state its use |
| DoctorDashboard.MatchesStatus | app/doctor-dashboard/page.js:95 | `matchesStatus`; `FilteredAppointments` and `AllStatusesIgnoresStatus` state its use |
| DoctorDashboard.FilteredAppointments | app/doctor-dashboard/page.js:91-97 | an order-preserving subsequence holding exactly the appointments matching both the search and the status; with a status other than "ALL" every kept status equals it |
| DoctorDashboard.AllStatusesIgnoresStatus | app/doctor-dashboard/page.js:95-96 | with "ALL", the list is exactly the search-only filter |
| DoctorDashboard.EmptyTermMatchesSearchable | app/doctor-dashboard/page.js:92-94 | under any status filter, the empty term matches an appointment exactly when its patient has an e-mail, first name or last name |
| DoctorDashboard.EmptySearchKeepsSearchable | app/doctor-dashboard/page.js:92-94 | with the status filter "ALL", an empty term keeps exactly the appointments whose patient has an e-mail, first name or last name |
| DoctorDashboard.StatusColor | app/doctor-dashboard/page.js:99-112 | the default colour exactly for a status other than the four known ones |
| DoctorDashboard.StatusColorsDistinct | app/doctor-dashboard/page.js:99-112 | different statuses, one of them known, get different colours |
| DoctorDashboard.DisjointCountsBound | app/doctor-dashboard/page.js:129-134 | the three status counts together are at most the number of appointments |
| DoctorDashboard.ComputeStats | app/doctor-dashboard/page.js:129-134 | total is the length; each count is the number with that exact status; pending + confirmed + completed ≤ total |
| DoctorDashboard.PatientIds | app/doctor-dashboard/page.js:277 | the patient ids, position by position |
| DoctorDashboard.ActivePatients | app/doctor-dashboard/page.js:277 | the number of distinct patient ids: at most the number of appointments, at least 1 when there are any, equal to it exactly when no id repeats; the value is the size of the set of the appointments' patient ids |

## Left out

- Concurrency: the handlers run as sequential calls on one registry object. The route has no locking.
- The clock: `Date.now()` in the signalling route and `new Date().toISOString()` in the form are parameters (`now`, `createdAt`).
- Authentication: `auth()` is an `Option` input. The database reads (`findFirst`, `findMany`, `count`) are input sequences and numbers.
- The `catch` blocks that answer 500: only a POST body that is `null` or not valid JSON is modelled as a 500 answer. Other thrown errors come from the database or the runtime and are not part of this model.
- Console logging, and the `data` payload of a signal, which is only logged.
- Response message strings such as "Signal offer sent to 1 participants": the answers carry their data, not the text.
- The issue messages of the debug report: they are modelled as `Issue` values carrying the count or the list, not as formatted strings.
- The `patients`, `users` and `debug.usersWithoutPatients` projections of the debug report: they only copy fields.
- AdminStats: the other statistics of the route (the seven counts, recent appointments, the group-by of statuses) are single database queries with no logic of their own. So is the six-month window of the date query.
- AdminStats.YearMonth: each appointment date is its local-time `getFullYear()` and `getMonth()`. The time-zone conversion is not modelled.
- AdminStats.Year: years are limited to 1000–9999. For these years `String(year)` has four digits and the key parses back as an ISO date.
- AdminStats.DateValue: the comparator is modelled as a month count, year * 12 + month, rather than milliseconds. The two order keys the same way. A key that does not parse gets 0 rather than `NaN`, and such a key never occurs.
- AdminStats.SortBy: `Array.prototype.sort` is modelled by an insertion sort. The order of two entries with the same key is not modelled, and no two entries have the same key here.
- AdminStats.FindFirstByClerkId: the database's row order is taken as the input order.
- Signaling.SignalBody: `roomId` and `type` are strings or absent. A truthy value of another JSON type, such as `{"roomId": 5, "type": true}`, is not expressible; the route answers it with 200 and an empty recipient list, because `rooms.get(5)` misses every string key.
- PrescriptionForm: `isLoading`, the toasts, the `onSave` callback, the `fetch` calls and the PDF download are not modelled. Submit's server answer is the boolean `saved`.
- PrescriptionForm.IsTrimmed: the characters that `trim` removes are the ECMAScript white space and line terminators. The model's strings are sequences of Unicode scalar values, while JavaScript strings are UTF-16 code units, so a lone surrogate cannot be expressed and an astral character counts as one character.
- DoctorDashboard.ToLower: lowercases ASCII letters only. `toLowerCase` on other Unicode characters is locale-independent but not modelled.
- The dashboard's fetching, loading state, `getStatusIcon` (it returns JSX icons) and rendering are not part of this model.
