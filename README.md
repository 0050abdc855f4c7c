# Parking front end: stores, spot filter and spot status in Dafny

This project models the deterministic core of a React/Redux front end for a
parking facility and proves properties of it:

- the **spot store** (`parkingSlice`): the list of spots and the list of
  floors derived from it, with the reducers `setParkingSpots` and
  `changeSpotState` (module `ParkingSlice`, class `ParkingStore`);
- the **identity store** (`userSlice`): the anonymous user id and the user's
  reservation, with the reducers `setUserId` and `setReservation` (module
  `UserSlice`, class `UserStore`);
- the **spot filter** of the spot table: a stable `Array.filter` driven by a
  number query, a floor choice and a state choice (module `SpotTable`);
- the **status badge and "book" button** of a table row (module `SpotStatus`).

The two reducers' stores are classes whose methods assign the fields, as the
reducers assign the fields of their draft state. The filter and the status
are functions. Module `JsText` gives the JavaScript behaviour they rely on:
`String(n)` for an integer, the order `<` on strings, and
`String.prototype.includes`. Module `Types` holds `Option` (a `null` or
`undefined` payload is `None`) and the `Spot` record.

Points where the code behaves differently from what one might expect:

- `setParkingSpots` ignores any falsy payload (null, undefined, an empty
  response body `""`, `0`, `false`, `NaN`); `None` stands for all of them.
  An empty array is truthy in JavaScript, so it empties the store; it is not
  a no-op.
- The floor list is sorted by `.sort()` without a comparator, so floors are
  ordered by their decimal strings: floors 2 and 10 are listed as `[10, 2]`
  (`ParkingSlice.TenSortsBeforeTwo`). For floors 0 to 9 this is the numeric
  order (`ParkingSlice.SingleDigitFloorsAscending`).
- The state filter compares `occupied == stateFilter` loosely, so `0`
  matches free spots and `1` occupied ones, and any value other than `-1`,
  `0` and `1` matches nothing (`SpotTable.FilterByState`).
- The floor choice `-1` is the "Tous" option of the select. A spot on floor
  `-1` cannot be filtered on: its option has the same value as "Tous".

## Model

| member | source | states |
|---|---|---|
| `ParkingSlice.ParkingStore.constructor` | src/features/parkingSlice.ts:14-17 | The initial spot store has no spots and no floors, and its floor list is the one derived from its spots. |
| `ParkingSlice.ParkingStore.SetParkingSpots` | src/features/parkingSlice.ts:28-32 | A null/undefined payload leaves spots and floors unchanged; any list, the empty one included, becomes the spot list and the floors become the list derived from it; afterwards the store is consistent. |
| `ParkingSlice.Floors` | src/features/parkingSlice.ts:31 | The derived floor list is strictly string-ordered, has no duplicates, and holds a value exactly when some spot is on that floor. |
| `ParkingSlice.FloorsCharacterized` | src/features/parkingSlice.ts:31 | Any string-ordered list of exactly the spots' floors is the derived floor list: the floor list is the sorted set of distinct floors. |
| `ParkingSlice.SortedByStringUnique` | src/features/parkingSlice.ts:31 | Two string-sorted lists with the same members are equal. |
| `ParkingSlice.SortByString` | src/features/parkingSlice.ts:31 | The sort returns a permutation of its input (same multiset). |
| `ParkingSlice.SortByStringSorted` | src/features/parkingSlice.ts:31 | Sorting a duplicate-free list yields a list in strict string order. |
| `ParkingSlice.Insert` | src/features/parkingSlice.ts:31 | One insertion step adds exactly the inserted value to the multiset. |
| `ParkingSlice.InsertSorted` | src/features/parkingSlice.ts:31 | Inserting a new value into a string-sorted list keeps it string-sorted. |
| `ParkingSlice.Dedup` | src/features/parkingSlice.ts:31 | `[...new Set(xs)]` has no duplicates and the same members as `xs`. |
| `ParkingSlice.FloorList` | src/features/parkingSlice.ts:31 | `spots.map(s => s.floor)` has one entry per spot, its floor, in the same position. |
| `ParkingSlice.FloorListMembers` | src/features/parkingSlice.ts:31 | A value is in the mapped list iff some spot is on that floor. |
| `ParkingSlice.SingleDigitOrder` | src/features/parkingSlice.ts:31 | For floors 0 to 9, string order and numeric order agree. |
| `ParkingSlice.SingleDigitFloorsAscending` | src/features/parkingSlice.ts:31 | When all floors are 0 to 9, the floor list is numerically ascending. |
| `ParkingSlice.TenSortsBeforeTwo` | src/features/parkingSlice.ts:31 | Spots on floors 2 and 10 give the floor list `[10, 2]`. |
| `JsText.IntToString` | src/features/parkingSlice.ts:31 | Definition of `String(n)` for an integer, which the default `.sort()` compares: a minus sign for negative numbers, then the decimal digits without a leading zero. |
| `JsText.StrLess` | src/features/parkingSlice.ts:31 | Definition of JavaScript's `<` on strings, the comparison the default `.sort()` uses: the first differing character decides, and a proper prefix comes first. |
| `ParkingSlice.FloorBefore` | src/features/parkingSlice.ts:31 | Definition of the order of the default `.sort()` on floors: x comes before y iff `String(x) < String(y)`. |
| `ParkingSlice.FloorBeforeTotal` | src/features/parkingSlice.ts:31 | Two distinct floors are always ordered one way or the other by their strings. |
| `JsText.IntToStringInjective` | src/features/parkingSlice.ts:31 | Distinct integers have distinct decimal strings, so the string sort never ties two floors. |
| `JsText.ParseNatRoundTrip` | src/features/parkingSlice.ts:31 | Reading back the decimal string of a natural number gives the number. |
| `JsText.StrLessTransitive` | src/features/parkingSlice.ts:31 | String `<` is transitive. |
| `JsText.StrLessTotal` | src/features/parkingSlice.ts:31 | Any two different strings are ordered by `<` one way or the other. |
| `JsText.StrLessAsymmetric` | src/features/parkingSlice.ts:31 | No two strings are each `<` the other. |
| `ParkingSlice.Flip` | src/features/parkingSlice.ts:42 | Definition of `spot.occupied = !spot.occupied`: the same spot with its occupancy flag negated. |
| `ParkingSlice.FindSpot` | src/features/parkingSlice.ts:39-41 | `find` returns the first position whose spot has the number, or none when no spot has it. |
| `ParkingSlice.Toggled` | src/features/parkingSlice.ts:38-43 | The spot list after the toggle has the same length; the first spot with the number has its flag negated and every other spot is unchanged. |
| `ParkingSlice.FirstMatchInTail` | src/features/parkingSlice.ts:39-41 | Past a spot of another number, the first match in the list is the first match in its tail, one place on. |
| `ParkingSlice.ToggledAt` | src/features/parkingSlice.ts:39-42 | When position k is the first match, the toggle is the update of position k to the flipped spot. |
| `ParkingSlice.ToggledNoMatch` | src/features/parkingSlice.ts:42 | With no spot of that number, the toggle changes nothing. |
| `ParkingSlice.ToggledTwice` | src/features/parkingSlice.ts:39-42 | Toggling the same number twice restores the spot list. |
| `ParkingSlice.ToggledKeepsFloors` | src/features/parkingSlice.ts:38-43 | The toggle leaves the derived floor list unchanged. |
| `ParkingSlice.ParkingStore.ChangeSpotState` | src/features/parkingSlice.ts:38-43 | The new spot list is the toggle of the old one for the payload spot's number; floors are unchanged; a consistent store stays consistent. |
| `UserSlice.UserStore.constructor` | src/features/userSlice.ts:32-35 | The initial identity store has id `""` and no reservation. |
| `UserSlice.UserStore.SetUserId` | src/features/userSlice.ts:46-48 | The id becomes the argument and the reservation is unchanged. |
| `UserSlice.UserStore.SetReservation` | src/features/userSlice.ts:54-67 | The id never changes; a falsy payload clears the reservation whatever it held; a truthy one installs a reservation with the payload's `_id`, spot and email, the time given, and the store's current id as user (never a `user` field of the payload); afterwards any reservation belongs to the stored id. |
| `SpotTable.DefaultCriteria` | src/components/SpotTable.tsx:23-25 | Definition of the initial filter inputs: query `""`, floor `-1` and state `-1`. |
| `SpotTable.LooselyEqual` | src/components/SpotTable.tsx:35 | Definition of `occupied == stateFilter` under loose equality: `true` equals 1 and `false` equals 0. |
| `JsText.Includes` | src/components/SpotTable.tsx:33 | Definition of `s.includes(q)`: q occurs in s at some position. |
| `SpotTable.Keeps` | src/components/SpotTable.tsx:32-36 | Definition of the filter callback: the number includes the query, the floor equals the floor choice or the choice is `-1`, and the occupancy loosely equals the state choice or the choice is `-1`. |
| `SpotTable.FilterSpots` | src/components/SpotTable.tsx:31-37 | A spot is in the filtered list iff it is in the input and passes the number, floor and state tests; the list is no longer than the input. |
| `SpotTable.FilterIsStableSelection` | src/components/SpotTable.tsx:31-37 | The filtered list is the input taken at exactly the passing positions, in increasing order: a subsequence that keeps the original order. |
| `SpotTable.SelectsKeptCons` | src/components/SpotTable.tsx:31-37 | The selection of the tail, shifted one place, plus the head when it passes, is a selection of the whole list. |
| `SpotTable.FilterDefaultsIsIdentity` | src/components/SpotTable.tsx:23-37 | With the initial inputs (query `""`, floor `-1`, state `-1`) the filtered list is the input. |
| `SpotTable.FilterByFloor` | src/components/SpotTable.tsx:34 | A floor choice other than `-1` shows exactly the spots on that floor that pass the other two tests. |
| `SpotTable.FilterByState` | src/components/SpotTable.tsx:35 | State 0 shows exactly the free spots and state 1 exactly the occupied ones that pass the other tests; any other value but `-1` shows none. |
| `SpotTable.FilterKeepsNone` | src/components/SpotTable.tsx:31-37 | When no spot passes, the filtered list is empty. |
| `SpotTable.FilterIdempotent` | src/components/SpotTable.tsx:31-37 | Filtering the filtered list again with the same inputs returns it unchanged. |
| `JsText.IncludesEmpty` | src/components/SpotTable.tsx:33 | Every number contains the empty query. |
| `SpotStatus.GetStatus` | src/components/Spot.tsx:27-35 | The badge is one of Libre/emerald, Réservé/sky, Occupé/red; it is Libre iff the spot is free; it is Réservé iff the spot is occupied and has the number of the user's reserved spot, so never without a reservation. |
| `SpotStatus.CanBook` | src/components/Spot.tsx:61 | The book button is shown iff the row's badge is Libre and the user holds no reservation. |

## Left out

- HTTP calls (src/app/services/parkingService.ts, src/app/services/reservationService.ts): remote requests with log-and-swallow or rethrow error handling, no local logic.
- The booking and cancellation sequence of `handleChangeState` (src/components/Parking.tsx:98-133): it chains remote calls and dispatches. Note that the PATCH error is swallowed, so the local toggle runs even after a failed PATCH.
- App start-up (src/App.tsx): local storage, id generation, the reservation lookup and routing.
- `selectFormattedDate`: locale-dependent date formatting. The timestamp `new Date().toISOString()` is the parameter `now` of `UserSlice.UserStore.SetReservation`.
- Presentational components, React hooks and effect scheduling, Redux wiring and styling. The filter is a function of its four inputs.
- JsText.IntToString: gives the decimal form of integers only. JavaScript switches to exponent notation from 10^21 on, and floors are not fractional, so neither case is modelled.
- JsText.StrLess: compares Unicode scalar values, JavaScript compares UTF-16 code units. The two orders agree on the digits and the minus sign of floor strings.
- UserSlice.UserStore.SetReservation: a payload is either absent (falsy) or a record. A truthy payload that is not an object would give a reservation of `undefined` fields in JavaScript; that case is not modelled.
- ParkingSlice.ParkingStore.ChangeSpotState: takes the payload's spot. A payload without a `spot` field makes the JavaScript reducer throw when the store holds at least one spot (on an empty list `find` never calls its callback, so nothing happens); the throwing case is not modelled.
- Spot fields other than number, floor and occupied (such as the server `_id`) are not read by the modelled code and are left out of `Spot`.
- Spots are values in a sequence. Immer turns the in-place flip into a new state with the spot replaced, which is what the model states; object identity of spots is not modelled.
