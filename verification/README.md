# Table-availability engine of the pizzeria Booking widget

This project models the availability engine of the restaurant booking widget
(`Booking` in `src/js/components/Booking.js`) and proves what it promises.

The engine keeps `booked`, a map from a date key to a map from a half-hour
tick to the list of table ids booked at that tick. It has four parts.

- **makeBooked** is the only operation that adds entries to `booked` (parseData
  first resets it to an empty map). It creates the missing keys and appends
  the table id at every tick of the booking's interval.
- **parseData** rebuilds `booked` from three fetched lists. It ingests the
  one-off events, then the confirmed bookings. Then it expands every `daily`
  repeating event over each date of the date picker's window.
- **The lookup of updateDOM** answers "all available" when the date key or
  the tick key is missing. Otherwise it marks a table as booked exactly when
  the stored list holds its id.
- **sendBooking** builds the payload, including a copy of the chosen starters.
  Once the POST request resolves, it folds the new booking into `booked`
  through makeBooked.

The starter-checkbox toggle and the query-parameter lists of getData are
modelled too.

Modules:

- `Occupancy` (occupancy.dfy) holds the specification functions of the map.
  These are `Ingest` (makeBooked), `IngestAll`, `ExpandDays` and
  `ExpandRepeats` (the parseData loops), `Parse`, and the lookup predicates
  `AllAvailable` and `IsMarkedBooked`. The lemmas about them are here too.
- `Starters` (starters.dfy) holds `indexOf`, `splice(start, 1)` and the toggle.
- `Requests` (requests.dfy) holds the getData parameter lists, the URLs built
  with `join('&')`, and a reference `Split` that inverts the join.
- `BookingWidget` (booking.dfy) holds the class `Booking`. Its fields are
  `booked`, `starters`, `date` and `hour`. Its methods follow the source's
  loops, and each is proved to leave the state given by the functions above.

Units:

- A date is an integer day number, and its date key is that number.
  `utils.dateToStr` is therefore injective, and `utils.addDays(d, 1)` is
  `d + 1`.
- An hour is an integer tick counting half hours from midnight, so 18:00 is
  tick 36. `utils.hourToNumber` is taken as already applied, so every start is
  a whole number of half hours.
- A duration is a count of half hours, so the source's `hourBlock += 0.5`
  becomes a step of one tick.
- Table ids are integers.

Gaps of the source, kept as they are:

- The code does not check that a table is selected before posting
  (Booking.js:254-257).
- The code patches `booked` on any resolved POST, whatever the response
  status (Booking.js:278-281).
- Duplicate table ids are kept in the lists (Booking.js:107).
- The status of the GET responses is not checked either (Booking.js:52-60).
  An error response whose JSON body is not a list makes parseData throw
  after line 70 has reset `booked`, so the rebuild is not all-or-nothing and
  the lookup at line 89 is skipped. ParseData takes lists, so this partial
  state is not modelled.

## Model

| member | source | states |
|---|---|---|
| Occupancy.AllAvailable | src/js/components/Booking.js:117-125 | a slot is all-available when its date key or its tick key is missing, and then its list is empty |
| Occupancy.IsMarkedBooked | src/js/components/Booking.js:132-136 | a table gets the booked mark at a slot exactly when its id is on the list stored there, missing keys counting as an empty list |
| Occupancy.Ingest | src/js/components/Booking.js:92-109 | makeBooked creates the date key, keeps every existing date key, and puts the table on the list of every tick start..start+duration-1 |
| Occupancy.IngestAll | src/js/components/Booking.js:72-78 | the loops over one-off events and bookings keep every existing date key and create the date key of every record |
| Occupancy.ExpandDays | src/js/components/Booking.js:84-86 | the daily loop keeps every existing date key and creates a key for every date of the window |
| Occupancy.ExpandRepeats | src/js/components/Booking.js:82-88 | the repeating-events loop keeps every existing date key, and creates a key for every date minDate..maxDate as soon as some record is `daily` |
| Occupancy.Parse | src/js/components/Booking.js:70-88 | the rebuilt map has a date key for every one-off event and booking, and for every date of the window when some repeating event is `daily` |
| Occupancy.IngestEffect | src/js/components/Booking.js:92-109 | after makeBooked the date key exists, other dates keep their ticks, a tick of the date is present iff it was present or lies in [start, start+duration), and its list is the old list with the table appended once exactly when it lies in that range |
| Occupancy.IngestMarked | src/js/components/Booking.js:95-108 | after makeBooked the lookup marks (d, t, x) iff it did before or x is the ingested table at a tick of the interval on that date; the slot is all-available iff it was and it is outside the interval |
| Occupancy.IngestCovers | src/js/components/Booking.js:95-108 | after makeBooked `booked[date]` exists, the table is marked at every tick start <= t < start+duration, and the tick start+duration keeps its presence and its list |
| Occupancy.IngestFrame | src/js/components/Booking.js:103-107 | makeBooked leaves other dates and ticks outside [start, start+duration) with exactly their previous contents and presence |
| Occupancy.IngestTwice | src/js/components/Booking.js:103-107 | ingesting the same booking twice leaves the old list plus the table twice at each affected tick, while the lookup (marks and all-available) answers as after one ingestion |
| Occupancy.IngestNoEmptyTicks | src/js/components/Booking.js:103-107 | makeBooked never leaves a tick key holding an empty list |
| Occupancy.IngestExample | src/js/components/Booking.js:101-108 | booking 10:00 for 1.5 hours at table 7 on an empty map marks ticks 20 and 22 and leaves ticks 19 and 23 all-available |
| Occupancy.IngestAllMarked | src/js/components/Booking.js:72-78 | after ingesting a list of records, a table is marked at a slot iff it was before or some record of the list books it there; the slot is all-available iff it was and no record covers it |
| Occupancy.IngestAllNoEmptyTicks | src/js/components/Booking.js:72-78 | ingesting a list of records keeps every stored list non-empty |
| Occupancy.ExpandDaysMarked | src/js/components/Booking.js:84-86 | the daily loop over [lo, hi) marks the record's table at its ticks on exactly the dates of that range and changes nothing else in the lookup |
| Occupancy.ExpandDaysNoEmptyTicks | src/js/components/Booking.js:84-86 | the daily loop keeps every stored list non-empty |
| Occupancy.ExpandRepeatsMarked | src/js/components/Booking.js:82-88 | expanding repeating events marks a table at (d, t) iff it was marked or some `daily` record books it at t with minDate <= d <= maxDate; records with another rule contribute nothing |
| Occupancy.ExpandRepeatsNoEmptyTicks | src/js/components/Booking.js:82-88 | expanding repeating events keeps every stored list non-empty |
| Occupancy.NonDailyIgnored | src/js/components/Booking.js:82-83 | repeating records none of whose rules is `daily` leave the map exactly as it was |
| Occupancy.ParseMarked | src/js/components/Booking.js:67-88 | the map parseData builds marks table x at (d, t) iff a one-off event, a booking, or a daily event on a date within [minDate, maxDate] books x at t on d; a slot is all-available iff no record of any of the three sources covers it |
| Occupancy.ParseNoEmptyTicks | src/js/components/Booking.js:70-88 | the map parseData builds has no empty lists |
| Occupancy.NotAvailableHasMarkedTable | src/js/components/Booking.js:117-136 | in a map without empty lists, a slot that is not all-available marks at least one table as booked |
| Starters.IndexOf | src/js/components/Booking.js:197 | indexOf gives -1 iff the value is absent, otherwise the first index holding it |
| Starters.SpliceOne | src/js/components/Booking.js:198 | splice(start, 1) removes the element at start, counts a negative start from the end (clamped to 0) and removes nothing past the end |
| Starters.Toggle | src/js/components/Booking.js:193-199 | checking appends the value at the end; unchecking a present value removes its first occurrence; unchecking an absent value drops the last element |
| Starters.UncheckRemovesOne | src/js/components/Booking.js:197-198 | unchecking a chosen starter removes exactly one copy of it (multiset difference) and shortens the list by one |
| Starters.CheckThenUncheck | src/js/components/Booking.js:193-199 | checking a value that was not chosen and unchecking it again gives back the original list |
| Starters.UncheckAbsentDropsLast | src/js/components/Booking.js:197-198 | unchecking a value that is not in a non-empty list removes the last chosen starter, a different value |
| Requests.DataParams | src/js/components/Booking.js:18-35 | the bookings list has the start and end date parameters, the one-off events list adds the not-repeat marker in front of them, and the repeating events list has the repeat marker and only the end date parameter |
| Requests.Join | src/js/components/Booking.js:38-45 | join gives "" for no parts, starts with the first part, and, when no part contains the separator, contains it exactly when there are at least two parts |
| Requests.DataUrls | src/js/components/Booking.js:38-45 | the bookings URL starts with the booking resource's base, both event URLs with the event resource's base |
| Requests.SplitJoin | src/js/components/Booking.js:38-45 | joining a non-empty parameter list with '&' and splitting at '&' gives back the list when no parameter contains '&' |
| Requests.DataUrlsCarryParams | src/js/components/Booking.js:38-45 | each of the three URLs is its resource base followed by a query string that splits back into exactly its parameter list |
| BookingWidget.Booking.constructor | src/js/components/Booking.js:149-153 | a new widget has an empty booked map and no chosen starters |
| BookingWidget.Booking.MakeBooked | src/js/components/Booking.js:92-109 | the loop leaves `booked` equal to Ingest of the old map, and keeps every stored list non-empty |
| BookingWidget.Booking.ParseData | src/js/components/Booking.js:67-90 | the three loops leave `booked` equal to Parse of the fetched lists and the window; the lookup then runs for the picked slot |
| BookingWidget.Booking.UpdateDOM | src/js/components/Booking.js:111-142 | records the picked date and hour; the mark of every table equals IsMarkedBooked at that slot, without failing on missing keys |
| BookingWidget.Booking.ToggleStarter | src/js/components/Booking.js:190-201 | a checkbox click leaves `starters` equal to Toggle of the old list |
| BookingWidget.Booking.SendBooking | src/js/components/Booking.js:254-267 | the payload carries the last lookup's date, the picked hour, the table, the amounts and contacts, and a copy of `starters` with the same elements in the same order; no state changes |
| BookingWidget.Booking.PostResolved | src/js/components/Booking.js:278-281 | once the POST resolves, `booked` becomes Ingest of the old map with the payload's date, hour, duration and table |
| BookingWidget.SubmitExample | src/js/components/Booking.js:278-281 | after a booking for 18:00 lasting two hours at table 3 is patched in, the table is marked at 18:00 and 19:30, and 20:00 answers as before |

## Left out

- Rendering, widget wiring and DOM reads are not modelled. This covers `render`, the event listeners of `initWidgets`, `initTables`, `bookTable`, `alert` and `console.log`. The values the engine reads from widgets are method parameters.
- The three `fetch` calls, `Promise.all` and `.json()` (Booking.js:47-64) are not modelled: ParseData receives the fetched lists. A rejected fetch (a network failure) never reaches parseData, so `booked` keeps its old value.
- The POST request (Booking.js:270-278) is not modelled. The source does not check the response status and patches on any resolved request; PostResolved stands for that continuation.
- BookingWidget.Booking.SendBooking: the selected table is an integer parameter. The source's null `selectedTable` becomes `NaN` through `parseInt`, and the model has no NaN.
- `utils.js` and `settings.js` are not part of this model. `hourToNumber`, `dateToStr` and `addDays` are replaced by the integer units above, and the settings keys and the two formatted dates are parameters of Requests.DataParams.
- The `isNaN`/`parseInt` coercion of table ids read from markup (Booking.js:128-131, 257, 280) is not modelled, because table ids are integers throughout.
- Fractional durations that are not whole half hours are not modelled. With floats the source's loop covers ceil(2 * duration) ticks.
- BookingWidget.Booking.constructor: before the first parseData the source's `booked` is undefined, so a lookup would throw. The model starts from an empty map instead. The `date` and `hour` fields start at 0 until the first lookup.
