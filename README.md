# World Time Converter — a Dafny model

This project models the deterministic core of the `WorldTimeConverter` React
component. The user picks a source city and a source time from a list of
half-hour slots, then one or more destination cities. The component asks a
remote time-zone conversion service for the time at each destination. Each
destination row then shows the converted time, followed by " (Next Day)" or
" (Previous Day)" when the calendar day differs.

The model has eight modules:

- `Text`: the JavaScript string operations the component calls: `split` on one
  character, `padStart` and decimal rendering. Two reference definitions sit
  beside them and are used only to state properties. `Join` is the inverse of
  `split` and states its round trip. `LexLess` is the order in which the
  option strings are listed. `LexLess` compares Unicode code points, while
  JavaScript's `<` compares UTF-16 code units. The two agree on strings
  without surrogate pairs, such as every "HH:MM" option.
- `CityRegistry`: the table of 43 cities and their IANA zones, and the
  first-match lookup `cities.find(c => c.name === name)`.
- `TimeOptions`: the 48 entries "00:00" … "23:30" offered as source times.
- `Calendar` and `DayLabels`: the day-indicator decision table. `Calendar` is a
  Gregorian reference used to show where the ±30 month-wrap rule is right and
  where it is not.
- `Rows`: the pure transitions of the destination list. Each one returns a new
  list, as the component's `map`, `filter` and spread do.
- `Conversion`: the three copy-pasted `convertTime*` functions, written as one
  function of three explicit inputs. It covers the empty-input guard, the city
  lookups, the request body with its naive timestamp, and the display derived
  from the service's answer.
- `Dispatch`: which rows a handler converts, and what starting and answering
  conversions does. A conversion is split at its first suspension point,
  the `await fetch`: everything before it acts at once. The two later awaits
  only read the reply's body, so the reply is applied as one later step, to the
  row index the call captured.
- `Converter`: the class `WorldTimeConverter`. It holds `sourceCity`,
  `sourceTime`, the destination rows, and the requests still awaiting a reply.
  Its methods are the event handlers and the row-count effect. `Deliver`
  applies one reply, in whatever order replies arrive.

The remote service is an oracle. A reply is `RequestFailed` (a non-success
status or a network error), `MissingResult` (a body without
`conversionResult`), or `Converted(time, dayDiff, order)`. Here `dayDiff` is
the destination day-of-month minus the source day-of-month, and `order` says
whether the destination timestamp is earlier than, equal to or later than the
source one. The current date `today` is a parameter of every handler that can
start a conversion.

## Model

| member | source | states |
|---|---|---|
| CityRegistry.Find | components/WorldTimeConverter.js:92-93 | `find` by name gives None exactly when no entry has that name; otherwise it gives an entry with that name that no earlier entry has |
| CityRegistry.Lookup | components/WorldTimeConverter.js:15-58 | looking a name up in the component's own table fails exactly when the name is not in the table; a hit is a table entry carrying that name |
| Text.Split | components/WorldTimeConverter.js:89 | `split` on one character always gives at least one piece, and no piece contains the separator |
| Text.JoinSplit | components/WorldTimeConverter.js:89 | joining the pieces of a split with the separator gives back the original string |
| Text.SplitJoin | components/WorldTimeConverter.js:89 | splitting separator-free pieces joined by the separator gives back those pieces |
| Text.DecimalString | components/WorldTimeConverter.js:63 | `toString` of a natural number is a non-empty string of decimal digits: the single digit below 10, the tens and the units digit from 10 to 99 |
| Text.PadStart | components/WorldTimeConverter.js:63 | `padStart` leaves a string at least `width` long unchanged; otherwise it prefixes fill characters up to exactly `width` and keeps the string as the suffix |
| TimeOptions.Pad2 | components/WorldTimeConverter.js:63 | the padded hour is exactly two decimal digits |
| TimeOptions.TimeOption | components/WorldTimeConverter.js:62-66 | an option is five characters: two digits, a colon, '0' or '3', then '0' |
| TimeOptions.Options | components/WorldTimeConverter.js:62-66 | the generator yields exactly 48 time options |
| TimeOptions.Pad2Digits | components/WorldTimeConverter.js:63 | an hour below 100 is rendered as exactly its tens digit and its units digit |
| TimeOptions.OptionShape | components/WorldTimeConverter.js:62-66 | option i is the five characters "HH:MM", with HH the two digits of i / 2 and MM "00" for even i and "30" for odd i |
| TimeOptions.OptionMinute | components/WorldTimeConverter.js:62-66 | option i denotes minute 30·i of the day, so the options cover the day at half-hour steps |
| TimeOptions.OptionBounds | components/WorldTimeConverter.js:61-66 | the first option is "00:00" and the last one "23:30" |
| TimeOptions.OptionsIncreasing | components/WorldTimeConverter.js:62-66 | for i < j option i is strictly below option j in JavaScript's string order |
| TimeOptions.OptionsDistinct | components/WorldTimeConverter.js:62-66 | no option occurs twice |
| TimeOptions.OptionSplits | components/WorldTimeConverter.js:62-66 | splitting option i at ':' gives exactly the padded hour and the minutes it was built from |
| DayLabels.Annotation | components/WorldTimeConverter.js:128-134 | the label is " (Next Day)", " (Previous Day)" or ""; a difference of 1 or -1 is never left unlabelled |
| DayLabels.AnnotationTable | components/WorldTimeConverter.js:128-134 | " (Next Day)" exactly when the difference is 1, or -30 with the destination later; " (Previous Day)" exactly when it is -1, or 30 with the destination earlier; "" exactly when neither holds; the two conditions never hold together |
| DayLabels.AnnotationSwap | components/WorldTimeConverter.js:128-134 | swapping source and destination (negating the difference, reversing the order) swaps the two labels and keeps "" as "" |
| DayLabels.SameDayUnlabelled | components/WorldTimeConverter.js:128-134 | a difference of 0 gets no label, whatever the order |
| DayLabels.NextDayCrossing | components/WorldTimeConverter.js:128-134 | a destination on the next calendar day gets " (Next Day)" exactly when no month ends between them or the month that ends has 31 days; it never gets " (Previous Day)" |
| DayLabels.PreviousDayCrossing | components/WorldTimeConverter.js:128-134 | a destination on the previous calendar day gets " (Previous Day)" exactly when no month boundary lies between them or the earlier month has 31 days; it never gets " (Next Day)" |
| Rows.CitiesOf | components/WorldTimeConverter.js:12 | a projection used only in specifications: the list of cities has one entry per row, the city of that row |
| Rows.SetResult | components/WorldTimeConverter.js:145-149 | `updateDestinationTime`: the length is kept; row `index` keeps its city and gets the new time and date; every other row is unchanged; an index outside the list changes nothing |
| Rows.SetResultKeepsCities | components/WorldTimeConverter.js:145-149 | writing a result never changes any row's city |
| Rows.ClearResults | components/WorldTimeConverter.js:154 | every row keeps its city and gets an empty time and date; the length is kept |
| Rows.ClearProperties | components/WorldTimeConverter.js:154 | clearing keeps the cities, clearing twice is clearing once, and a list with no results is left as it is |
| Rows.ChooseCity | components/WorldTimeConverter.js:316-320 | row `index` becomes `{city: value, time: "", date: ""}`; every other row is unchanged; the length is kept; an index outside the list changes nothing |
| Rows.ChooseCityCities | components/WorldTimeConverter.js:316-320 | choosing a city changes the list of cities at that index only |
| Rows.AddRow | components/WorldTimeConverter.js:329 | the new list is one longer, keeps the old rows as its prefix, and ends with an empty row |
| Rows.RemoveRow | components/WorldTimeConverter.js:334 | with the index in range, exactly that row is dropped and the others keep their order; otherwise the list is unchanged |
| Rows.RemoveAddedRow | components/WorldTimeConverter.js:328-336 | removing the row just added gives back the original list |
| Rows.RemoveLength | components/WorldTimeConverter.js:333-335 | removal shortens the list by one exactly when the index names a row; with more than one row, the only case in which line 397 shows the remove button, the list never becomes empty |
| Conversion.NaiveTimestamp | components/WorldTimeConverter.js:88-90 | the request timestamp starts with today's date and a space and ends with zero seconds ":00" |
| Conversion.TimestampOfClockTime | components/WorldTimeConverter.js:88-90 | for a time with exactly one colon the request timestamp is `today + " " + time + ":00"` |
| Conversion.TimestampOfOption | components/WorldTimeConverter.js:88-90 | for every offered time option the request timestamp is `today + " " + option + ":00"` |
| Conversion.PlanFor | components/WorldTimeConverter.js:80-110 | the row is cleared exactly when an input is empty; the call fails as an invalid city exactly when all inputs are set and either name is not in the table; otherwise it sends a request whose zones are those of entries carrying the two names and whose timestamp is the naive one |
| Conversion.Finish | components/WorldTimeConverter.js:112-139 | a failed request or a body without result shows "Error converting time" with no label; a result shows its time and the day label of its difference and order; the label is always one of the three |
| Conversion.Outcome | components/WorldTimeConverter.js:80-143 | a conversion that runs to completion shows ("", "") when an input is empty, the error text for an unknown city, and otherwise what the reply gives; a non-empty label only ever comes with a converted time |
| Dispatch.Start | components/WorldTimeConverter.js:80-110 | starting one conversion changes no row but its own, keeps the row count, and queues at most one request |
| Dispatch.StartCases | components/WorldTimeConverter.js:80-110 | case by case: an empty input clears the row's time and label and queues nothing; an unknown city writes "Error converting time" and queues nothing; a request keeps every row and queues one entry, behind those already pending, for the row index of the call |
| Dispatch.StartAll | components/WorldTimeConverter.js:72-76 | a run of conversions keeps the row count, keeps the pending requests in front, and queues at most one request per conversion |
| Dispatch.Answer | components/WorldTimeConverter.js:136-149 | a reply leaves the pending list; the row at the index captured when the call was made keeps its city and gets the time and label that `Finish` derives from the reply; no other row changes and the row count is kept |
| Dispatch.StartThenAnswer | components/WorldTimeConverter.js:80-149 | a conversion started and then answered with nothing in between writes exactly its outcome into its row and leaves the pending list as it was |
| Dispatch.Selected | components/WorldTimeConverter.js:69-78 | a picked row has a city, and no time when only unconverted rows are picked; a row with a city and no time is always picked |
| Dispatch.Jobs | components/WorldTimeConverter.js:69-78 | each conversion a `forEach` issues is for a row that has a city (and no time, for the row-count effect), carries the source inputs and that row's city, and the conversions follow the row order |
| Dispatch.JobsCover | components/WorldTimeConverter.js:69-78 | every row that has a city (and no time, for the row-count effect) gets a conversion |
| Dispatch.JobsStep | components/WorldTimeConverter.js:72-76 | the conversions issued for one more row are those for the rows before it, followed by that row's own when it is picked |
| Dispatch.StartAllSnoc | components/WorldTimeConverter.js:72-76 | starting a run of conversions and then one more is starting the longer run |
| Dispatch.StartAllStep | components/WorldTimeConverter.js:72-76 | visiting one more row of the `forEach` adds that row's conversion, when the row is picked, to those of the rows before it |
| Dispatch.StartSends | components/WorldTimeConverter.js:92-110 | a conversion that passes the guard and the lookups changes no row and queues its request |
| Dispatch.SentAllAt | components/WorldTimeConverter.js:72-76 | the requests of a run of conversions come one per conversion, in order, each for the row of its conversion |
| Dispatch.StartAllSends | components/WorldTimeConverter.js:99-110 | when every conversion passes the guard and the lookups, the rows are left as they were and exactly their requests are queued, in order |
| Dispatch.KnownCitiesSend | components/WorldTimeConverter.js:157-163 | with both source inputs set and every chosen city in the table, a handler changes no row before the replies and queues one request per picked row, in row order |
| Dispatch.StartKeepsCities | components/WorldTimeConverter.js:80-84 | starting one conversion keeps the rows' cities and count |
| Dispatch.StartAllKeepsCities | components/WorldTimeConverter.js:72-76 | starting any run of conversions keeps the rows' cities and count |
| Dispatch.AddedRowNotConverted | components/WorldTimeConverter.js:69-78 | after an empty row is appended the row-count effect picks the same rows as before: the new row has no city |
| Dispatch.BackfillAfterClear | components/WorldTimeConverter.js:69-78 | on rows whose results were just cleared, the row-count effect picks exactly the rows the source handlers pick |
| Converter.WorldTimeConverter.constructor | components/WorldTimeConverter.js:10-12 | the component mounts with no source selection and one empty destination row |
| Converter.WorldTimeConverter.Convert | components/WorldTimeConverter.js:80-110 | one conversion call, up to its request, changes the rows and the pending requests exactly as `Start` says and leaves the source fields alone |
| Converter.WorldTimeConverter.ConvertRow | components/WorldTimeConverter.js:72-76 | one step of the `forEach`: a picked row is converted and any other row is skipped |
| Converter.WorldTimeConverter.ConvertRows | components/WorldTimeConverter.js:72-76 | the `forEach` over the rows leaves the state that starting the picked rows' conversions in row order gives |
| Converter.WorldTimeConverter.Deliver | components/WorldTimeConverter.js:136-149 | a reply is applied as `Answer` says; at least one row still exists |
| Converter.WorldTimeConverter.HandleSourceCityChange | components/WorldTimeConverter.js:151-164 | the source city is set and every result cleared; only when the new city and the source time are both set, every row of the old list that has a city is converted with the new city, in row order |
| Converter.WorldTimeConverter.HandleSourceTimeChange | components/WorldTimeConverter.js:166-179 | the source time is set and every result cleared; only when the source city and the new time are both set, every row of the old list that has a city is converted at the new time, in row order |
| Converter.WorldTimeConverter.HandleDestCityChange | components/WorldTimeConverter.js:314-326 | row `index` is replaced by a fresh row with the new city; that row alone is converted, and only when the source city, the source time and the new city are all set |
| Converter.WorldTimeConverter.RowCountChanged | components/WorldTimeConverter.js:69-78 | with both source fields set, exactly the rows that have a city and no time are converted, in row order; otherwise nothing happens |
| Converter.WorldTimeConverter.AddDestination | components/WorldTimeConverter.js:328-331 | an empty row is appended; the row-count effect that follows converts the rows of the old list that have a city and no time |
| Converter.WorldTimeConverter.RemoveDestination | components/WorldTimeConverter.js:333-336 | the row is removed and at least one row remains; only when the row count changed does the row-count effect run on the new list |

## Left out

- The HTTP request and its JSON body and response: the service is an oracle, and a reply is one of the three `Reply` cases. The `dstAmbiguity` field is always the empty string and is left implicit in `ApiRequest`.
- `new Date().toISOString()` and the `Date` parsing and comparison: `today`, the day-of-month difference and the order of the two timestamps are inputs. A timestamp that `Date` cannot parse is not modelled.
- The `loading` flag. It is set to true before every request and to false when any request ends, so it says nothing reliable while several requests are in flight.
- The `localeCompare` sort of the city table. `CityRegistry.Cities` keeps the declaration order. The sort is stable, and entries with the same name compare equal, so `find` on the sorted table returns the first entry with that name in declaration order, as `CityRegistry.Find` does on the unsorted table. Lookup therefore does not depend on the sort; only the order of the drop-down entries does.
- The rendering (JSX, styling, icons, the " HRS" suffix in the time list) and the `console.error` logging.
- React's scheduling is reduced to one rule. A handler's state updates apply in the order they are made, all before any reply. The row-count effect runs right after a handler that changed the number of rows.
- Converter.WorldTimeConverter.AddDestination: the source comment says no conversion follows an append. In the code, however, the append changes the row count, so the row-count effect runs. That effect re-requests every row that has a city and no time yet, for example a row whose request is still in flight. The model follows the code.
- DayLabels.Annotation: the day-of-month rule reads exactly -30 and +30 as a month wrap. So after a 28-, 29- or 30-day month a real next or previous day gets no label, as `NextDayCrossing` and `PreviousDayCrossing` state. This is modelled as written, not corrected.
