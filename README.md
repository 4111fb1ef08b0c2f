# Fitness app screen logic in Dafny

This project models the logic inside the screens of a React Native fitness app. It covers:

- **Form handlers.** Registration, password reset and forgot-password are validation ladders. Each one shows the alert of the first failing check, or else goes on to the sign-up call or to a navigation.
- **The registration email pattern.** This is the regular expression `^[^\s@]+@[^\s@]+\.[^\s@]+$`.
- **The nearby-gyms search.** This covers:
  - the search keyword;
  - the two guards of `handleSearch`;
  - the equipment filter against the static gym table;
  - the marker-press lookup with its fallback record.
- **The workout tracker.** `addExercise` and `saveWorkout` act on a list of exercises and four text inputs.
- **The workout log.** The log screen loads it from the device store. A separate row component, `SwipeableRowComponent`, has a delete handler that removes every entry with the row's date, first from the store and then, if the write succeeded, from the log it was given.

Structure:

- Pure rules are functions.
- The form handlers (`HandleRegistration`, `HandleResetPassword`, `HandleSendCode`) are functions from the typed inputs to an outcome: an alert, a sign-up call or a navigation.
- The gym-search and workout handlers are transition functions on a state datatype. Each is the reference for the class method that updates the screen's state in place.
- The device store is one class, `WorkoutStore.LogStore`, shared by the tracker and the log screen. The caller decides whether a read or write succeeds.
- The places web service is not called. Its answer is a parameter: the results, or None when the request failed.

Modules:

| module | file |
|---|---|
| `Text` | text.dfy: `trim`, `toLowerCase`, `includes` and the `\s` class |
| `JsArray` | arrays.dfy: `filter`, `find`, `some` and order-preserving sub-lists |
| `Validation` | validation.dfy: a handler's outcome and the ladder of checks |
| `EmailPattern` | email.dfy: the regular expression as an automaton |
| `Registration`, `Reset`, `Forgot` | registration.dfy, reset.dfy, forgot.dfy |
| `GymDatabase`, `NearbyGyms` | gyms.dfy |
| `WorkoutStore` | store.dfy |
| `WorkoutTracker` | tracker.dfy |
| `WorkoutLog` | workoutlog.dfy |

## Model

| member | source | states |
|---|---|---|
| Text.Trim | src/screens/NearbyGymsScreen.js:75 | the result is a slice of the input with no whitespace at either end, and everything dropped before and after it is whitespace; it is empty exactly when the input is all whitespace |
| Text.TrimIdempotent | src/screens/NearbyGymsScreen.js:45 | trimming a trimmed string changes nothing |
| Text.TrimStartFacts | src/screens/NearbyGymsScreen.js:75 | the leading-whitespace removal keeps the suffix from the first non-whitespace character; everything dropped is whitespace |
| Text.TrimEndFacts | src/screens/NearbyGymsScreen.js:75 | the trailing-whitespace removal keeps the prefix up to the last non-whitespace character; everything dropped is whitespace |
| Text.Lower | src/screens/NearbyGymsScreen.js:93 | lower-casing keeps the length and maps each character independently |
| Text.LowerIdempotent | src/screens/NearbyGymsScreen.js:93 | lower-casing twice is lower-casing once |
| Text.Includes | src/screens/NearbyGymsScreen.js:93 | true exactly when the needle occurs at some position of the haystack |
| JsArray.Filter | src/screens/SwipeableRow.js:8 | filter never makes a list longer |
| JsArray.FilterKeepsExactly | src/screens/NearbyGymsScreen.js:90-95 | filter keeps only accepted elements and keeps every accepted element; it never grows the list |
| JsArray.FilterMultiset | src/screens/SwipeableRow.js:8 | every occurrence of an accepted element is kept and every occurrence of a rejected one is dropped: counts match the input for accepted elements and are zero otherwise |
| JsArray.FilterIsSublist | src/screens/SwipeableRow.js:8 | the result of filter is an order-preserving sub-list of its input |
| JsArray.FilterIdempotent | src/screens/SwipeableRow.js:8 | filtering twice with the same predicate equals filtering once |
| JsArray.FilterKeepsAll | src/screens/SwipeableRow.js:8 | when every element is accepted, filter returns its input |
| JsArray.FilterCongruent | src/screens/NearbyGymsScreen.js:92-94 | filter depends only on the predicate's values on the list's elements |
| JsArray.SublistMember | src/screens/SwipeableRow.js:8 | every member of a sub-list is a member of the list |
| JsArray.Find | src/screens/NearbyGymsScreen.js:91 | None exactly when no element passes; otherwise the element at the first passing index |
| JsArray.Any | src/screens/NearbyGymsScreen.js:92-94 | true exactly when some element passes |
| Validation.Decide | src/screens/RegistrationScreen.js:47-75 | success exactly when no check fails; otherwise the message of the first failing check |
| Validation.FirstFailureWins | src/screens/RegistrationScreen.js:47-75 | a failing check preceded only by passing checks decides the alert, whatever follows |
| EmailPattern.Test | src/screens/RegistrationScreen.js:67-68 | `test` accepts a string exactly when it has an '@' at some index of at least 1, with only plain characters before it and a good domain (plain characters with a '.' neither first nor last) after it |
| EmailPattern.RunAccepts | src/screens/RegistrationScreen.js:67 | from each automaton state, the accepting state is reached exactly on the strings that the state's language describes |
| EmailPattern.TestMatchesRegex | src/screens/RegistrationScreen.js:67-68 | `test` accepts a string exactly when it splits as plain+ '@' plain+ '.' plain+, where plain is neither whitespace nor '@' |
| EmailPattern.TestIsWellFormed | src/screens/RegistrationScreen.js:67-68 | `test` accepts exactly the strings that have no whitespace, one '@' after a non-empty local part, and a '.' in the domain that is neither its first nor its last character |
| Registration.HandleRegistration | src/screens/RegistrationScreen.js:47-75 | the four checks run in source order; sign-up with the untrimmed email and password happens exactly when the passwords match, have at least 8 characters and the email is well formed |
| Registration.EmptyFieldReported | src/screens/RegistrationScreen.js:49-52 | any empty field gives 'Please fill in all fields' before any other check |
| Registration.MismatchReported | src/screens/RegistrationScreen.js:55-58 | with all fields filled, different passwords give 'Passwords do not match' |
| Registration.ShortPasswordReported | src/screens/RegistrationScreen.js:61-64 | a filled, confirmed password shorter than 8 gives the length alert |
| Registration.EightCharactersPassLengthCheck | src/screens/RegistrationScreen.js:61-71 | a confirmed 8-character password passes the length check; only the email format then decides |
| Registration.WhitespaceEmailRejected | src/screens/RegistrationScreen.js:49-71 | a whitespace-only email is not empty, so it passes the first check and fails the format check |
| Reset.HandleResetPassword | src/screens/ResetScreen.js:9-25 | navigation to 'Login' exactly when the new password is non-empty and equals the confirmation |
| Reset.EmptyFieldReported | src/screens/ResetScreen.js:11-14 | an empty field gives 'Please enter both fields', also when both fields are empty |
| Reset.MismatchReported | src/screens/ResetScreen.js:17-20 | two filled, different fields give 'Passwords do not match' |
| Reset.OneCharacterPasswordAccepted | src/screens/ResetScreen.js:9-25 | no length rule applies: a matching one-character pair navigates to 'Login' |
| Forgot.HandleSendCode | src/screens/ForgotScreen.js:8-18 | an alert exactly when the username or email is empty; otherwise navigation to 'VerificationCode' with exactly those two values as parameters |
| Forgot.WhitespaceInputsAccepted | src/screens/ForgotScreen.js:10 | whitespace-only values are not trimmed and pass the check |
| NearbyGyms.SearchKeyword | src/screens/NearbyGymsScreen.js:45 | the keyword is the trimmed gym query, or 'gym' when that is empty; it is never empty and is its own trim |
| NearbyGyms.DetailsByName | src/screens/NearbyGymsScreen.js:91 | None exactly when no table entry has the name; otherwise the entry at the first index with the name |
| NearbyGyms.DetailsAtFirstNamed | src/screens/NearbyGymsScreen.js:91 | the lookup returns the entry at the first index with the name |
| NearbyGyms.ListsEquipment | src/screens/NearbyGymsScreen.js:92-94 | true exactly when some equipment item, lower-cased, contains the lower-cased query |
| NearbyGyms.HasEquipmentMeans | src/screens/NearbyGymsScreen.js:90-95 | a place passes exactly when the first table entry with its name lists matching equipment; a place without an entry fails |
| NearbyGyms.FilterByEquipment | src/screens/NearbyGymsScreen.js:90-95 | the equipment filter never makes the list of places longer |
| NearbyGyms.FilterByEquipmentKeepsExactly | src/screens/NearbyGymsScreen.js:90-95 | the filtered list holds only passing places and every passing place, each passing place as many times as it occurs in the input |
| NearbyGyms.FilterByEquipmentIsSublist | src/screens/NearbyGymsScreen.js:90-95 | the filtered list is an order-preserving sub-list of its input |
| NearbyGyms.FilterIgnoresCase | src/screens/NearbyGymsScreen.js:93 | queries that lower-case alike give the same filtered list |
| NearbyGyms.FilterByEquipmentIdempotent | src/screens/NearbyGymsScreen.js:90-95 | filtering the filtered list again changes nothing |
| GymDatabase.GymData | src/screens/Database.js:2-44 | the static gym table, record by record: id, name, address, equipment, hours and description as listed |
| GymDatabase.GymDataShape | src/screens/Database.js:2-44 | the table has five gyms with ids '1' to '5' in order, all different; entries 3 and 4 are both named '24 Hour Fitness' |
| NearbyGyms.DuplicateNameResolvesToFirst | src/screens/Database.js:2-44 | entries 3 and 4 share the name '24 Hour Fitness'; a lookup by that name gives id '3' |
| NearbyGyms.GymDetailsFor | src/screens/NearbyGymsScreen.js:61-71 | a marker shows the first table entry with the place's name; with no such entry, the place's id, name and address with 'Information not available' equipment and hours and 'No additional information available.' |
| NearbyGyms.FetchStep | src/screens/NearbyGymsScreen.js:41-58 | the request uses the search keyword; a successful fetch sets both lists to the results and changes nothing else; a failed one alerts 'Failed to fetch nearby gyms. Please try again.' and changes nothing |
| NearbyGyms.HandleSearchAsWritten | src/screens/NearbyGymsScreen.js:74-99 | the handler as written keeps both queries; past the two guards with an equipment query of 3 or more characters, the filtered list is the filter of the list held before the fetch |
| NearbyGyms.HandleSearch | src/screens/NearbyGymsScreen.js:74-99 | a search never changes the two queries |
| NearbyGyms.SearchClearsBlankQueries | src/screens/NearbyGymsScreen.js:75-79 | both queries blank after trimming: both lists become empty and nothing is fetched |
| NearbyGyms.SearchRejectsShortEquipmentQuery | src/screens/NearbyGymsScreen.js:82-85 | an untrimmed equipment query of 1 or 2 characters gives the alert and changes nothing |
| NearbyGyms.SearchAfterGuards | src/screens/NearbyGymsScreen.js:88-98 | past the guards, a search is the fetch followed by the equipment filter |
| NearbyGyms.SearchWithResults | src/screens/NearbyGymsScreen.js:88-98 | a successful fetch sets both lists to the results; a query of 3 or more characters then narrows the filtered list; a query of length 0 leaves it as the results |
| NearbyGyms.SearchWithFailedFetch | src/screens/NearbyGymsScreen.js:52-54 | a failed fetch alerts and keeps the lists; the filter still runs over the kept list |
| NearbyGyms.SearchKeepsFilteredWithinFetched | src/screens/NearbyGymsScreen.js:74-99 | every search keeps the filtered list an order-preserving sub-list of the fetched list |
| NearbyGyms.StaleFilterShowsUnfetchedGym | src/screens/NearbyGymsScreen.js:88-96 | as written, a passing gym on screen survives a fetch that finds nothing: the fetched list is empty and the filtered list is not |
| NearbyGyms.StaleFilterExample | src/screens/NearbyGymsScreen.js:88-96 | a concrete state before the search with the filtered list inside the fetched list, and the as-written state after it without |
| NearbyGyms.GymSearch.constructor | src/screens/NearbyGymsScreen.js:12-15 | both queries and both lists start empty, and the gym table is the static one |
| NearbyGyms.GymSearch.EnterQueries | src/screens/NearbyGymsScreen.js:12-13 | the text inputs set the two queries and nothing else |
| NearbyGyms.GymSearch.Search | src/screens/NearbyGymsScreen.js:74-99 | the in-place search gives the outcome and the new state of HandleSearch, and keeps the filtered list within the fetched list |
| WorkoutStore.LogStore.constructor | src/screens/WorkoutLogScreen.js:11-12 | a new store holds nothing under '@workout_log', so a read gives None |
| WorkoutStore.LogStore.Write | src/screens/WorkoutTrackerScreen.js:25 | a successful write replaces the stored log with the value; a failed one leaves it |
| WorkoutStore.LogStore.Read | src/screens/WorkoutLogScreen.js:11 | a read returns the stored log, or None when it fails; nothing changes |
| WorkoutTracker.AddExerciseStep | src/screens/WorkoutTrackerScreen.js:12-20 | a blank name changes nothing; otherwise exactly one entry with the untrimmed typed values is appended after the unchanged earlier entries, and all four inputs become empty |
| WorkoutTracker.AddKeepsEntriesNamed | src/screens/WorkoutTrackerScreen.js:13-14 | adding never puts an entry with a blank name in the list |
| WorkoutTracker.AddAcceptsAnyCounts | src/screens/WorkoutTrackerScreen.js:13-14 | sets, reps and weight are not validated; any strings, empty ones too, are appended |
| WorkoutTracker.SaveWorkoutStep | src/screens/WorkoutTrackerScreen.js:22-32 | an empty list does nothing; a non-empty list is stored whole when the write succeeds, and after a failed write both the list and the stored log are kept; navigation to 'WorkoutLog' happens exactly when a non-empty list was written; the list is emptied only when it is in the store |
| WorkoutTracker.Tracker.constructor | src/screens/WorkoutTrackerScreen.js:6-10 | the list and the four inputs start empty |
| WorkoutTracker.Tracker.EnterFields | src/screens/WorkoutTrackerScreen.js:7-10 | the text inputs set the four fields and nothing else |
| WorkoutTracker.Tracker.AddExercise | src/screens/WorkoutTrackerScreen.js:12-20 | the in-place add gives the state of AddExerciseStep and keeps every entry named |
| WorkoutTracker.Tracker.SaveWorkout | src/screens/WorkoutTrackerScreen.js:22-32 | the in-place save gives the navigation, list and stored log of SaveWorkoutStep; the inputs are untouched |
| WorkoutLog.WithoutDate | src/screens/SwipeableRow.js:8 | no survivor has the deleted date; every entry with another date survives; the log never grows |
| WorkoutLog.WithoutDateMembership | src/screens/SwipeableRow.js:8 | an entry survives exactly when it was in the log with another date |
| WorkoutLog.WithoutDateIsSublist | src/screens/SwipeableRow.js:8 | survivors keep their relative order |
| WorkoutLog.WithoutDateIdempotent | src/screens/SwipeableRow.js:8 | deleting the same date twice equals deleting it once |
| WorkoutLog.WithoutAbsentDate | src/screens/SwipeableRow.js:8 | deleting a date no entry has leaves the log equal to the original |
| WorkoutLog.WithoutDateRemovesAllDated | src/screens/SwipeableRow.js:8 | exactly as many entries are removed as have the date: every one of them, not only the swiped row |
| WorkoutLog.UndatedDeleteEmptiesTrackerLog | src/screens/SwipeableRow.js:8 | in a log of undated entries, as the tracker writes them, deleting one empties the log |
| WorkoutLog.LogScreen.constructor | src/screens/WorkoutLogScreen.js:7 | the log starts empty |
| WorkoutLog.LogScreen.Load | src/screens/WorkoutLogScreen.js:9-18 | a successful read of a stored log replaces the screen's log, which then equals the store; otherwise nothing changes |
| WorkoutLog.LogScreen.DeleteWorkout | src/screens/SwipeableRow.js:6-14 | the log without the row's date is written; it replaces the screen's log only if the write succeeds; a screen in step with the store stays in step |

## Findings

| source | as written | input that shows it | evidently intended | confidence | as-written member | corrected member |
|---|---|---|---|---|---|---|
| src/screens/NearbyGymsScreen.js:88-96 | the callback run after the fetch filters `gyms` as captured when the handler was created, which is the list before the fetch, and stores the result as the filtered list | the list on screen holds one gym whose table entry lists 'Rack'; the equipment query is 'Rack'; the fetch returns no results. Afterwards the fetched list is empty but the filtered list still shows the gym | filter the results the fetch just stored, so the filtered list is always a sub-list of the fetched list | high; not executed | NearbyGyms.StaleFilterExample | NearbyGyms.SearchKeepsFilteredWithinFetched |

`NearbyGyms.HandleSearchAsWritten` models the handler as written. `NearbyGyms.HandleSearch` filters the list the fetch left. `NearbyGyms.GymSearch.Search` implements `HandleSearch`. After a failed fetch both versions filter the same list.

## Left out

- Rendering, styles, navigation containers, the loading flag, and the screens with no logic of their own are not modelled. This includes the home, settings and gym-details screens, the login navigator and the app entry point.
- The authentication calls are not modelled: `signUp` and `handleSignUp` in RegistrationScreen.js, and `confirmSignUp` in VerificationScreen.js. Registration ends in the outcome "signUp with this email and password". The stale-state branch inside `handleSignUp` is out with it.
- The places web request, its URL, the map coordinates and JSON decoding are not modelled. The request's answer is a parameter.
- A response without a `results` field is not modelled. It would set both lists to `undefined`.
- The device store's asynchronous API and JSON encoding are not modelled. The store is one slot for '@workout_log', and success or failure of each call is a parameter. JSON encoding is taken to return the same records.
- None of the modelled files renders `SwipeableRowComponent`: WorkoutLogScreen.js renders a plain list with no swipe action, and the owner that would pass `workoutLog` and `setWorkoutLog` to the row is not part of this model. `WorkoutLog.LogScreen` puts `Load` and `DeleteWorkout` on one log, so its `InSync` invariant rests on that pairing, which the source does not make.
- SwipeableRow.js never imports the store module, so in the source every delete takes the failure path. The model covers the intended write together with its failure path.
- Whitespace and case are restricted. `trim` and `\s` use a fixed set: tab, line feed, vertical tab, form feed, carriage return, space, U+00A0 and U+FEFF. The other Unicode space separators and line separators are left out.
- `toLowerCase` maps ASCII 'A'-'Z' only.
- String length counts Dafny characters, not UTF-16 code units.
- React's asynchronous state updates are modelled as immediate assignments, in handler order.
- `console.error` logging on failures is left out.
- The GraphQL queries, the data-store models and the app configuration are not part of this model.
