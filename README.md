# Studio booking core, modelled in Dafny

This project models the booking rules of a web studio scheduler. Staff pick a
studio and a day. The booking form then offers the free half-hour start times
and the end times that stop at the next booking. The form fills and checks its
fields, and hands a new or updated booking on. The app can also export a date
range of bookings as CSV. The dashboard groups a day's bookings per studio and
colours them by recording purpose.

Modules, one per file:

- `Wrappers`: `Option`. `None` stands for JavaScript's `NaN` and for `undefined`.
- `Text`: digit strings and their values, `padStart(2, '0')`, `split` and
  `join`, and code-point lexicographic order. `LexLe` models JavaScript `<=` on
  strings without characters above U+FFFF, and `localeCompare` on date and
  time texts of the same shape.
- `Sequences`: `filter` and a stable insertion sort. The sort stands in for
  `Array.prototype.sort`. It is proved sorted and a permutation.
- `Types`: the `Booking`, `NewBooking`, `Studio` and `ModalData` records, the
  recording purposes and the `STUDIOS` catalog.
- `Time`: the start-slot grid, `HH:MM` to minutes, the 12-hour display and the
  slot-count duration.
- `BookingModal`: the offered start and end times, the form's change handler,
  its initial state, its submit and the studio name.
- `NoOverlap`: what the offered lists guarantee about overlaps, the midnight
  defect, and the corrected reading of a midnight end under which no double
  booking is possible.
- `Csv`: `convertToCSV` and a reader for its output. Together they give the
  round trip "export, then read back".
- `Dashboard`: the per-studio lists and the purpose colours.
- `App`: the export range filter, the empty check and the file name. The
  class `App.AppState` holds the selected date and the export dialog flag.

Times are integer minutes inside the model. `HH:MM` strings appear only where
the source stores or compares text. The source has loops in `generateTimeSlots`,
`availableStartTimes`, `availableEndTimes`, `convertToCSV` and
`bookingsByStudio`. Each of these is a `method` with a loop, proved equal to a
specification function. The properties are then proved about that function.

## Model

| member | source | states |
|---|---|---|
| Time.GenerateTimeSlots | utils/time.ts:2-12 | The hour-by-hour pushes build exactly the grid: 31 slots, the first "08:00", the last "23:00", and "23:30" never appears. |
| Time.GridEnds | utils/time.ts:5-10 | The grid has 31 slots from "08:00" to "23:00" and does not contain "23:30". |
| Time.GridAscending | utils/time.ts:5-9 | Slot j reads as exactly 30·(j−i) minutes after slot i, so the grid is strictly ascending. |
| Time.GridShape | utils/time.ts:6-8 | Every slot is a two-digit hour from 08 to 23, a colon, then "00" or "30". |
| Time.GridMinutes | utils/time.ts:5-9 | Slot i reads back as minute 480 + 30·i. |
| Time.GridSlotMinutes | utils/time.ts:5-9 | Every grid slot reads as a half-hour minute from 480 up to (not including) 1440. |
| Time.TimeToMinutes | utils/time.ts:24-27 | Defines `timeToMinutes`: the first two `:`-separated parts read by `Number`, as hours·60 + minutes, or `NaN` (`None`) when a part is missing or not digits. TimeToMinutesOfDigits and NoColonIsNaN prove what it gives. |
| Time.NoColonIsNaN | utils/time.ts:24-27 | A text without a colon has no minute part and reads as `NaN`. |
| Time.MinutesToTime | components/BookingModal.tsx:123-125 | Defines the end-list text of a minute count: the hour modulo 24 and the minutes, each as two digits, joined by a colon. TimeToMinutesOfMinutesToTime proves it reads back as the count modulo 1440. |
| Time.TimeToMinutesOfDigits | utils/time.ts:24-27 | A digit hour, a colon and digit minutes read as hours·60 + minutes. |
| Time.TimeToMinutesOfMinutesToTime | utils/time.ts:24-27 | The two-digit text of a minute count reads back as that count modulo one day. |
| Time.ParseIntPrefix | utils/time.ts:17 | `parseInt` gives a number exactly when the text starts with a digit. |
| Time.ParseIntOfDigits | utils/time.ts:17 | A run of digits followed by a non-digit or the end reads as the value of that run. |
| Time.FormatTimeTo12Hour | utils/time.ts:14-22 | The display is empty exactly for the empty time, and any other display ends in " AM" or " PM". FormatOfDigits and FormatOfMinutesToTime give the whole text. |
| Time.Hour12 | utils/time.ts:19-20 | The displayed hour is between 1 and 12 and agrees with the hour modulo 12, so 0 and 12 show as 12. |
| Time.FormatEmpty | utils/time.ts:15 | The empty time displays as the empty text. |
| Time.FormatOfDigits | utils/time.ts:14-22 | A digit hour and minute text display as the unpadded 12-hour hour, the minute text unchanged, and "PM" exactly from hour 12 on. |
| Time.FormatOfMinutesToTime | utils/time.ts:14-22 | How every grid or end-list time displays on the 12-hour clock. |
| Time.CalculateDurationInSlots | utils/time.ts:29-34 | There is a result exactly when both times read as minutes; the result r is the ceiling of the difference over 30, that is 30·(r−1) < d ≤ 30·r. |
| Time.DurationOfAlignedTimes | utils/time.ts:29-34 | For an end 30·k minutes after the start the duration is exactly k slots. |
| BookingModal.AvailableStartTimes | components/BookingModal.tsx:99-110 | Editing offers no start. Otherwise the result is the grid, in order, without the slots whose minute some booking occupies. |
| BookingModal.OccupiedMinutes | components/BookingModal.tsx:101-108 | A minute is in the collected set exactly when one booking's ticks start, start+30, … below its end include it. |
| BookingModal.MarkTicks | components/BookingModal.tsx:105-107 | The inner loop adds exactly the ticks start, start+30, … strictly below the end. |
| BookingModal.KeepUnbooked | components/BookingModal.tsx:109 | The slot filter keeps exactly the slots whose minute is not in the occupied set. |
| BookingModal.FreeSlotsMembership | components/BookingModal.tsx:109 | A slot is offered exactly when it is in the grid and no booking occupies its minute. |
| BookingModal.FreeSlotsAscending | components/BookingModal.tsx:109 | The offered starts keep the grid's strictly ascending order. |
| BookingModal.EndSlotStaysFree | components/BookingModal.tsx:101-109 | On a day where each booking whose times read as minutes ends at or before a slot or starts after it, that slot is offered. So a booking may start where another ends, and a booking whose times do not read blocks nothing. |
| BookingModal.LaterStarts | components/BookingModal.tsx:115-118 | Only start minutes strictly after the chosen start are kept. |
| BookingModal.LaterStartsComplete | components/BookingModal.tsx:115-118 | Every other booking that starts after the chosen start contributes its start minute. |
| BookingModal.LaterStartsSound | components/BookingModal.tsx:115-118 | Every kept minute is the start of some other booking. |
| BookingModal.Least | components/BookingModal.tsx:119 | `sort(...)[0]` of an empty list is undefined; otherwise it is a member no larger than any other. |
| BookingModal.NextBookingStart | components/BookingModal.tsx:115-119 | Defines the next booking start as the least later start of another booking. Any start it gives is after the chosen start. LimitIsNextStart proves it is the earliest. |
| BookingModal.EndLimit | components/BookingModal.tsx:120 | Defines the limit: the next start, or 1440 when there is none or it is 0, which JavaScript treats as false. LimitIsNextStart states the limit this gives. |
| BookingModal.LimitIsNextStart | components/BookingModal.tsx:115-120 | When another booking starts after the chosen start, the limit is the start of one of them and no later than any of them. When none does, the limit is 1440. |
| BookingModal.EndMinutes | components/BookingModal.tsx:122 | The list is empty exactly when the limit is under start + 30. Otherwise its last entry is the largest tick at or below the limit, within 30 minutes of it. |
| BookingModal.AvailableEndTimes | components/BookingModal.tsx:112-128 | No start gives no ends. Otherwise the result is the rendered ticks start+30, … up to the limit. |
| BookingModal.EmitEndTimes | components/BookingModal.tsx:121-126 | The loop emits the `HH:MM` text of every tick start+30, start+60, … up to and including the limit. |
| BookingModal.EndMinutesExactly | components/BookingModal.tsx:122 | A minute is offered exactly when it is a half-hour tick after the start and at most the limit; the list starts at start+30 and rises by 30. |
| BookingModal.OfferedEndMinutes | components/BookingModal.tsx:121-126 | Every offered text is the rendering of a half-hour tick in (start, limit]. |
| BookingModal.EndTimeOptions | components/BookingModal.tsx:112-128 | Defines `availableEndTimes`: nothing for an empty or unreadable start, otherwise the rendered ticks up to the limit. AvailableEndTimes computes it; NoOverlap.OfferedEnd and NoOverlap.LateEndOptions prove what it offers. |
| BookingModal.HandleChange | components/BookingModal.tsx:130-139 | The changed field takes the new value. A change of start or date clears the end. Every other field keeps its value. |
| BookingModal.HandleChangeIdempotent | components/BookingModal.tsx:130-139 | Making the same change twice gives the same form as making it once. |
| BookingModal.NewBookingDate | components/BookingModal.tsx:85-92 | The selected date is kept when it lies in [minDate, maxDate] by string order. Otherwise minDate is used, even for an empty window. For a non-empty window the result always lies in it. |
| BookingModal.InitialForm | components/BookingModal.tsx:74-95 | An edit opens with the booking's fields. A new booking opens blank, with the first purpose and the defaulted date. |
| BookingModal.HandleSubmit | components/BookingModal.tsx:141-170 | Submit is refused exactly when the name, subject, start time, end time or date is empty. The recording purpose is not checked. An edit keeps the original id. A new booking gets every form field. The modal's studio is used in both. |
| BookingModal.FreshFormRejected | components/BookingModal.tsx:143-146 | A new-booking form is refused until it is filled in. |
| BookingModal.StartChangeNeedsNewEnd | components/BookingModal.tsx:134-136 | After a start or date change the form cannot be sent until an end is chosen again. |
| BookingModal.UnchangedEditRoundTrip | components/BookingModal.tsx:148-158 | Saving an edit form unchanged hands back the edited booking. |
| BookingModal.StudioName | components/BookingModal.tsx:33-35 | The first catalog entry with the id shows its name, or the id when that name is empty; an id outside the catalog shows as itself. |
| NoOverlap.OfferedEnd | components/BookingModal.tsx:115-126 | Every offered end is a tick after the start, no later than the limit, and no later than the start of any other booking after the chosen start. |
| NoOverlap.EndTimeOptionsAt | components/BookingModal.tsx:112-128 | For a start that reads as a minute, the end list is the rendered ticks from that minute up to the limit its next booking start sets. |
| NoOverlap.EndTimeOptionsStart | components/BookingModal.tsx:112-114 | An end list with an entry means the start is non-empty and reads as a minute. |
| NoOverlap.LateEndOptions | components/BookingModal.tsx:120-126 | For a new booking starting at 23:00 on a day where no booking starts after 23:00, the ends offered are "23:30" and "00:00". |
| NoOverlap.MidnightEndLeavesStartOpen | components/BookingModal.tsx:105-123 | A booking from 23:00 to the offered "00:00" marks no tick, so 23:00 stays offered and "00:00" is offered as its end again. |
| NoOverlap.EndMinutesFixed | components/BookingModal.tsx:120-123 | The corrected reading of an end agrees with the text's minute modulo one day and is never 0. |
| NoOverlap.EndReadsBackFixed | components/BookingModal.tsx:123-125 | Under the corrected reading every offered end reads back as the minute that was offered, 1440 included. |
| NoOverlap.NoDoubleBookingFixed | components/BookingModal.tsx:99-128 | Under the corrected reading, adding a booking made from an offered start and an offered end keeps the day well formed with no two bookings overlapping. |
| Csv.BuildCatalogMaps | utils/csv.ts:15-20 | The loop builds the order map and the name map. |
| Csv.CatalogLookup | utils/csv.ts:15-20 | An id is in the maps exactly when some entry has it. It maps to the last such entry's index and name. |
| Csv.CatalogOrderOfDistinct | utils/csv.ts:17-20 | With distinct ids each entry maps to its own position and name. |
| Csv.ExportLeTotalPreorder | utils/csv.ts:23-33 | The comparator is a total preorder, so the sort is well defined. |
| Csv.ExportBefore | utils/csv.ts:23-33 | Defines the sort comparison: catalog index first, with `Infinity` for a studio outside the catalog, then date, then start time, by string order. ExportLeTotalPreorder and SortForExportOrdered prove its meaning. |
| Csv.SortForExport | utils/csv.ts:23 | The sorted rows are a permutation of the input. The input is a value and is not reordered. |
| Csv.SortForExportOrdered | utils/csv.ts:23-33 | The rows are ordered by catalog index, then by date, then by start time. |
| Csv.UnknownStudiosLast | utils/csv.ts:24-28 | A studio outside the catalog is never followed by a catalog studio. |
| Csv.HeaderLineText | utils/csv.ts:35-36 | The header line is the eight names unquoted: split at its commas it gives them back. |
| Csv.StudioLabel | utils/csv.ts:43-44 | Defines the studio column: the name the map holds for the id, or the id when that name is missing or empty. StudioColumnUnknown and StudioColumnKnown state it against the catalog. |
| Csv.StudioColumnUnknown | utils/csv.ts:43-44 | An id that no catalog entry has shows in the studio column as the id itself. |
| Csv.StudioColumnKnown | utils/csv.ts:15-20 | A catalog id shows the name of its last catalog entry, or the id when that name is empty. |
| Csv.RowColumns | utils/csv.ts:38-47 | A row's columns are id, studio name, date, start, end, name, purpose and subject, in that order. |
| Csv.Escape | utils/csv.ts:49-50 | Defines the quote doubling of a value; it never shortens the value. ReadQuotedEscape proves that an independent reader undoes it. |
| Csv.ReadQuotedEscape | utils/csv.ts:49-50 | Undoubling the escaped text up to the closing quote gives the value back. |
| Csv.ReadFieldQuote | utils/csv.ts:49-50 | A quoted field reads back as its value. |
| Csv.ReadFieldsJoin | utils/csv.ts:41-52 | A comma-joined line of quoted fields reads back as its values. |
| Csv.ConvertToCsv | utils/csv.ts:9-56 | The method produces exactly the export text: empty for no bookings, else the header and one line per sorted booking, joined by line feeds. |
| Csv.EmitRows | utils/csv.ts:40-53 | One quoted, comma-joined line per booking is appended, in the sorted order. |
| Csv.ReadRecordsJoin | utils/csv.ts:40-55 | The line-feed-joined rows read back as one record per booking. |
| Csv.CsvRoundTrip | utils/csv.ts:9-56 | A non-empty export is the header, a line feed, and a body that reads back as the values of every sorted booking. |
| Csv.CsvEmpty | utils/csv.ts:10-12 | No bookings give the empty text. |
| Csv.CsvText | utils/csv.ts:9-56 | Defines the export text: empty for no bookings, else the header and one line per sorted booking, joined by line feeds. ConvertToCsv computes it; CsvRoundTrip and CsvEmpty prove its meaning. |
| Dashboard.PurposeColorsDistinct | components/Dashboard.tsx:12-19 | The four purposes get four distinct colours, none the default. Every other text gets the grey default. |
| Dashboard.PurposeColorClasses | components/Dashboard.tsx:12-19 | Defines the border and background classes per purpose, grey for anything else. PurposeColorsDistinct proves what it gives. |
| Dashboard.BookingsByStudio | components/Dashboard.tsx:45-55 | The three loops build, for each catalog id, that studio's bookings sorted by start time. |
| Dashboard.Grouped | components/Dashboard.tsx:45-55 | Defines the dashboard lists: for each catalog id, its bookings sorted by start time. BookingsByStudio computes it; GroupedKeys, GroupedSorted, GroupedCounts and GroupedPresorted prove its meaning. |
| Dashboard.EmptyLists | components/Dashboard.tsx:47 | Each catalog id gets an empty list. |
| Dashboard.PushAll | components/Dashboard.tsx:48-50 | Each list collects, in input order, exactly the bookings of its studio. |
| Dashboard.SortEach | components/Dashboard.tsx:51-53 | Every list is replaced by its sorted copy. |
| Dashboard.GroupedKeys | components/Dashboard.tsx:47 | Every catalog studio has a list, and no other id has one. |
| Dashboard.GroupedSorted | components/Dashboard.tsx:52 | Each list is ascending by start-time text. |
| Dashboard.GroupedPresorted | components/Dashboard.tsx:52 | The sort is stable: a studio whose bookings are stored in start-time order shows them in that order. |
| Dashboard.GroupedCounts | components/Dashboard.tsx:48-52 | Each list holds every booking of its studio as often as the input does, and nothing else. |
| Dashboard.UnknownStudioHidden | components/Dashboard.tsx:49 | A booking whose studio is not in the catalog appears in no list. |
| Dashboard.EmptyStudioList | components/Dashboard.tsx:47 | A catalog studio without bookings gets an empty list. |
| App.FilterForExportMembership | App.tsx:119-121 | A booking is exported exactly when it is stored and its date is in [startDate, endDate] by string order. |
| App.FilterForExportOrder | App.tsx:119-121 | The filter keeps the stored order. |
| App.FilterForExport | App.tsx:119-121 | Defines the export filter as the bookings whose date lies in the range, in stored order. FilterForExportMembership, FilterForExportOrder and FilterForExportAll prove its meaning. |
| App.FilterForExportAll | App.tsx:119-121 | When every stored booking lies in the range, the whole store is exported in stored order. |
| App.EmptyRangeExportsNothing | App.tsx:119-126 | A range whose end is before its start exports nothing. |
| App.ExportFileName | App.tsx:129 | The name is the two dates plus the 17 fixed characters of "bookings_", "_to_" and ".csv". |
| App.ExportFileNameInjective | App.tsx:129 | For start dates of equal length, different ranges get different file names. |
| App.ExportOutcome | App.tsx:119-129 | An empty filtered set gives no download. Otherwise the download is named after the range. |
| App.ExportRoundTrip | App.tsx:119-129 | A download's file reads back as one record per booking in the range, built over the `STUDIOS` catalog. |
| App.AppState.HandleDateChange | App.tsx:67-69 | An empty value leaves the selected date unchanged. Any other value becomes the selected date. |
| App.AppState.HandleExportBookings | App.tsx:116-135 | The download is the export outcome. The dialog closes exactly when there is one. The selected date is unchanged. |

## Left out

- Rendering, hooks, loading flags and `alert`/`confirm` are not modelled. `components/Header.tsx` and `components/ExportModal.tsx` are not part of this model.
- The booking store in `services/googleSheetService.ts` is not part of this model. The bookings a component reads are a parameter. This includes the day's bookings for one studio in the form and all bookings for the export.
- `utils/realtime.ts`, the polling and storage-event listener (App.tsx:45-65) and the async add, update and delete handlers are left out. They are timers, I/O and cross-tab signalling.
- `downloadCSV` (utils/csv.ts:58-77) is browser I/O. The model returns the file contents and name instead.
- `getTodayDateString` and the date window computation (components/BookingModal.tsx:37-53) read the clock and use calendar arithmetic. `today`, `minDate` and `maxDate` are parameters.
- `handleDelete` (components/BookingModal.tsx:172-176) only forwards an id to a callback and is not modelled.
- `localeCompare` and string `<=` are modelled as code-point lexicographic order. Locale collation is not modelled.
- JavaScript string `<=` compares UTF-16 code units. That order differs from code-point order for characters above U+FFFF, so the model agrees with it only on text without such characters.
- JavaScript numbers are doubles. The model's integers are exact, so minute and hour values agree with the source only below 2^53.
- Time.TimeToMinutes: JavaScript `Number` also accepts whitespace, signs, decimals, exponents, `0x` prefixes and `Infinity`. The model reads only digit strings, with "" as 0, and treats anything else as `NaN`. Times outside `HH:MM` with digits are not characterised further.
- Time.ParseIntPrefix: `parseInt` also skips leading whitespace and reads a sign. The model reads only a leading run of digits.
- Time.CalculateDurationInSlots: it returns `None` where the source returns `NaN`. For NaN inputs the source's arithmetic propagates `NaN`, which is the same outcome.
- Time.DurationOfAlignedTimes: it is stated for times whose minute values are given, not for arbitrary text.
- App.AppState.HandleDateChange and App.AppState.HandleExportBookings: the React state setters are modelled as field updates. The re-render they cause is not modelled.
- The comment at components/BookingModal.tsx:120 calls the end of day "24:00", but line 123 renders that minute as "00:00". The model follows the code.

## Findings

| source | as written | input that shows it | evidently intended | confidence | as-written member | corrected member |
|---|---|---|---|---|---|---|
| components/BookingModal.tsx:105-123 | The end minute 1440 is rendered as "00:00" (`% 24`). When stored, it reads back as minute 0, so the occupancy loop marks no tick for the booking. | One booking of a studio from "23:00" to "00:00". The start list still offers "23:00" and the end list still offers "00:00", so the same half hour can be booked twice. | A stored end of "00:00" closes the day at minute 1440, so the booking occupies 23:00 and an offered start plus an offered end never overlaps an existing booking. | not executed | NoOverlap.MidnightEndLeavesStartOpen | NoOverlap.NoDoubleBookingFixed |

The corrected reading is `NoOverlap.EndMinutesFixed`. It is used by `NoOverlap.FreeSlotsFixed` and by the schedule invariant `NoOverlap.ScheduleFixed`. `BookingModal.AvailableStartTimes` keeps the code's own reading, so it stays a model of the code as written.
