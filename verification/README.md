# Venue matcher core, modelled in Dafny

The application lets a group pick who is coming out and then lists the venues
where every selected person can both drink and eat ("Places to go"), and the
rest ("Places to avoid"), each with one line per person who fails there.
This project models its pure core:

- `interfaces.dfy` (module `Interfaces`): the `User` and `Venue` records and
  `Maybe<T>` (a value or `null`) as `Option<T>`.
- `venue_results.dfy` (module `VenueResults`): `partitionVenues`, the
  `canDrink`/`canEat` tests, the per-person reason chosen by
  `userVenueFitnessView`, and the shape of what `venueResultsView` shows.
- `user_select.dfy` (module `UserSelect`): the fold over checkbox changes
  (check appends and re-sorts, uncheck filters) and the resolution of
  selected indices to users.
- `js_sort.dfy` (module `JsSort`): JavaScript's default `sort()` on
  non-negative integers, which compares decimal strings, so 10 sorts before 2.
  The sort is modelled as an insertion sort, and `SortedUnique` shows that
  every correct sort of the same array gives the same result.
- `app.dfy` (module `App`): the two feed requests, the normalisation of
  fetched user and venue records, the latest-value state of the two child
  views, and the loading gate of `view`.
- `seqs.dfy` (module `Seqs`): `filter`, `map` and `indexOf` as used by the
  source, plus the subsequence and interleaving relations used to state
  what the filters keep.

`stringToLower` is defined in a module that is not part of this model.
Normalisation takes it as a parameter `lower: string -> string`, and every
property is proved for any such function.

The code behaves as follows where a reader might expect otherwise:
- The selection is not kept duplicate-free. Checking an index that is
  already selected adds a second copy (`CheckTwiceDuplicates`).
- The selection is sorted by the default string order, not numerically
  (`CheckOrdersAsStrings`).
- A venue's `food` list is built from its `drinks` field, not its `food`
  field (`NormaliseVenues`, `RawFoodIgnored`).
- The request categories are `users` and `venues`.

## Model

| member | source | states |
|---|---|---|
| VenueResults.CanDrink | src/App/VenueResults.tsx:40-42 | a user can drink at a venue iff some drink the venue pours occurs, by exact string equality, among the user's drinks |
| VenueResults.CanEat | src/App/VenueResults.tsx:43-45 | a user can eat at a venue iff some food the venue serves is absent from the user's won't-eat list |
| VenueResults.NoFoodNoEating | src/App/VenueResults.tsx:43-45 | a venue serving no food fails every user's food test |
| VenueResults.VenueFitnesses | src/App/VenueResults.tsx:38-57 | one fitness per venue in venue order; each holds one fit per user in user order, and fit k carries users[k] and that user's two test results |
| VenueResults.PartitionVenues | src/App/VenueResults.tsx:32-72 | no result exactly when no users are selected; otherwise valid and invalid merge back into the venue fitness list in order, are each order-preserving subsequences of it, every valid venue passes the every-test and every invalid venue passes the some-test and fails the every-test |
| VenueResults.PartitionCoversVenues | src/App/VenueResults.tsx:60-67 | every venue is in exactly one of the two lists: their lengths add up to the number of venues and their multisets add up to the fitness list |
| VenueResults.PartitionFollowsTests | src/App/VenueResults.tsx:60-67 | a fitness is in valid iff it passes the every-test and in invalid iff it passes the some-test |
| VenueResults.EveryTestReadsUsers | src/App/VenueResults.tsx:39-63 | the every-test of venue k holds iff every selected user can drink and eat at venue k |
| VenueResults.SomeTestReadsUsers | src/App/VenueResults.tsx:39-66 | the some-test of venue k holds iff some selected user cannot drink or cannot eat at venue k |
| VenueResults.VenueClassification | src/App/VenueResults.tsx:36-67 | with users selected, venue k is a place to go iff every user can drink and eat there, and a place to avoid iff some user cannot |
| VenueResults.ChooseReason | src/App/VenueResults.tsx:137-157 | "cannot eat or drink" iff both tests fail, "cannot drink" iff only the drink test fails, "cannot eat" iff only the food test fails, and the fallback iff both pass |
| VenueResults.ReasonText | src/App/VenueResults.tsx:144-156 | the line is the user's name followed by " cannot eat or drink." iff both tests fail, " cannot drink." iff only the drink test fails, " cannot eat." iff only the food test fails, and " can eat and drink here." iff both pass |
| VenueResults.FailingFits | src/App/VenueResults.tsx:112-115 | the listed fits are an order-preserving subsequence of the venue's fits, non-empty iff the venue fails the some-test, and none of them gets the fallback reason; every fit of a user who cannot drink or cannot eat is listed, as often as it occurs, and no other fit is |
| VenueResults.VenueResultsView | src/App/VenueResults.tsx:88-135 | the prompt is shown iff there is no partition; otherwise place to go k is the name of valid venue k, place to avoid k carries the name of invalid venue k, and its reason j is the reason line of the j-th failing user there |
| VenueResults.ResultsViewOfSelection | src/App/VenueResults.tsx:83-135 | for a selection, the prompt is shown iff nobody is selected; otherwise the names of the places to go and of the places to avoid merge back, in order, into the venue names, so every venue is listed exactly once, and every place to avoid has at least one reason |
| VenueResults.ScenarioPlaceToGo | src/App/VenueResults.tsx:32-72 | Alice (beer, won't eat fish) can go to Bar1 (beer; fish and chips) |
| VenueResults.ScenarioPlaceToAvoid | src/App/VenueResults.tsx:32-72 | Alice must avoid Bar2 (wine; fish), with the reason that she can neither eat nor drink |
| JsSort.DefaultSort | src/App/UserSelect.tsx:38 | the sort result is a permutation of its input and is ordered by decimal-string comparison |
| JsSort.SortedUnique | src/App/UserSelect.tsx:38 | two string-ordered sequences with the same multiset of numbers are equal, so the sort result does not depend on the algorithm |
| JsSort.TenSortsBeforeTwo | src/App/UserSelect.tsx:38 | sorting [2, 10] gives [10, 2] |
| JsSort.ParseDecimalString | src/App/UserSelect.tsx:38 | reading the digits of a number's decimal string back gives the number: the digit reading is a left inverse of `String`, which is what makes the sort's string keys identify numbers |
| JsSort.DecimalStringInjective | src/App/UserSelect.tsx:38 | distinct indices have distinct decimal strings, which makes the string order antisymmetric |
| UserSelect.Check | src/App/UserSelect.tsx:37-38 | checking i gives a permutation of the accumulator plus one copy of i: one longer, containing i, string-ordered |
| UserSelect.Uncheck | src/App/UserSelect.tsx:40-41 | unchecking i removes every copy of i, keeps the count of every other index, keeps the rest in order, and keeps a sorted accumulator sorted |
| UserSelect.Accumulate | src/App/UserSelect.tsx:36-43 | starting from the empty sequence, the accumulator after any sequence of changes is string-ordered |
| UserSelect.AccumulateMembers | src/App/UserSelect.tsx:36-43 | an index is in the accumulator iff the last change to its box checked it |
| UserSelect.UncheckAbsent | src/App/UserSelect.tsx:41 | unchecking an index that is absent leaves the accumulator unchanged |
| UserSelect.UncheckIdempotent | src/App/UserSelect.tsx:41 | unchecking the same index twice equals unchecking it once |
| UserSelect.CheckTwiceDuplicates | src/App/UserSelect.tsx:37-38 | checking the same index twice adds two copies of it |
| UserSelect.CheckOrdersAsStrings | src/App/UserSelect.tsx:38 | checking 10 when [2] is selected gives [10, 2] |
| UserSelect.CheckThenUncheck | src/App/UserSelect.tsx:36-43 | from a string-ordered accumulator without i, checking then unchecking i gives back exactly that accumulator |
| UserSelect.ToggleOnOffRestores | src/App/UserSelect.tsx:36-43 | after any history in which i is unselected, checking then unchecking i leaves the accumulator as it was |
| UserSelect.AlternatingHasNoDuplicates | src/App/UserSelect.tsx:36-43 | if a box is never checked while it is already on, the accumulator never holds an index twice |
| UserSelect.SameNetSelection | src/App/UserSelect.tsx:36-43 | two alternating histories that leave the same boxes on give the same accumulator, whatever order the changes came in |
| UserSelect.Resolve | src/App/UserSelect.tsx:45-46 | resolution succeeds iff every index is within the user list; it then has one user per index, and entry k is users[acc[k]] |
| App.Requests | src/App.tsx:21-35 | exactly two requests with distinct categories, users and venues, each fetching the JSON file named after its category |
| App.NormaliseUsers | src/App.tsx:44-49 | one user per record in order; the name is kept, and every drink and every won't-eat item is lower-cased in place |
| App.NormaliseVenues | src/App.tsx:57-61 | one venue per record in order; the name is kept, every drink is lower-cased in place, and the food list equals the drink list |
| App.RawFoodIgnored | src/App.tsx:60 | the raw food field has no effect on the normalised venue |
| App.NormalisedCanDrink | src/App.tsx:44-61 | after normalisation a user can drink at a venue iff some raw drink of the venue and some raw drink of the user are equal once lower-cased |
| App.NormalisedCanEat | src/App.tsx:44-61 | after normalisation a user can eat at a venue iff some lower-cased raw drink of the venue is not among the user's lower-cased won't-eat items |
| App.LatestState | src/App.tsx:99-104 | each slot holds a value iff its component has produced an output, and the final output fills its component's slot |
| App.LatestStateHoldsLast | src/App.tsx:99-104 | each slot holds the vnode of its component's last output, whatever outputs of the other component followed it |
| App.View | src/App.tsx:107-126 | the page is Loading iff the user-select output is absent; otherwise it shows that output and the venue-results output |
| App.LoadingUntilUserSelect | src/App.tsx:99-126 | the page is Loading iff the user select component has not yet produced output, and once loaded it never returns to Loading |

## Left out

- Stream plumbing: `sampleCombine`, `startWith`, `merge` and `flatten` are
  not modelled. Only the pure functions they apply are modelled.
  `LatestState` models what `xs.combine` of two `startWith(null)` streams
  holds after a given interleaving of outputs. It does not model when
  outputs happen.
- Stale indices: because `sampleCombine` is not modelled, re-resolving an
  existing selection when the user list changes is out of scope too.
  `Resolve` takes whatever user list it is given.
- Request timing: the `delay(Math.random() * 1500)` on each request and the
  HTTP driver are left out, because they are randomness and network I/O.
  `Requests` lists the requests without an order, since the two delays
  decide which one is sent first.
- DOM event extraction is left out: reading `elem.value` and
  `elem.checked`, and the NaN that `parseInt` gives for a non-numeric
  value. Toggle indices are natural numbers.
- Rendering: markup, `key`s, the "None" placeholder for an empty list and
  the literal prompt text are left out. `VenueResultsView` keeps only the
  venue names and reason lines it lays out.
- Resolve: it returns no result when some index is past the end of the user
  list. JavaScript would instead put `undefined` in that entry. Whether that
  entry then throws depends on the venues: `partitionVenues` reads its
  `drinks` or `wont_eat` only for a venue with some drink or some food;
  for a venue with neither, the entry is classed as unable to drink and eat
  and `userVenueFitnessView` throws on `user.name`; with no venues it is
  never read. The model does not carry the `undefined` entries.
- `stringToLower`: its body is not part of this model, so it is a
  parameter. `.map(stringToLower)` also passes the index and the array;
  the model assumes `stringToLower` ignores those extra arguments.
- Error handling for failed fetches or malformed bodies is left out. The
  source has none.
- `src/app.tsx`, `src/index.ts` and `webpack.config.js` are left out. They
  are an unused scaffold whose feeds never emit, driver bootstrap, and
  build configuration.
