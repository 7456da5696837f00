# LuxStay reservation ledger in Dafny

LuxStay is a hotel-booking web application: customers request stays, hotel
owners approve or deny them, and each hotel keeps a per-night ledger of its
approved stays (`bookedDates`, one list of night dates per stay, with the
check-out day excluded). This project models that ledger and the code around
it:

- **Date-range encoding** (`BookingController.Nights`, `BuildDateRange`): a
  check-in/check-out pair becomes one entry per booked night, and a stored
  range decodes back to the half-open interval `[first night, last night + 1)`
  (`Intervals.Span`).
- **Booking lifecycle** (module `BookingController`): creating a Pending
  booking, approving it against the hotel's current ledger (overlap test,
  append, `availability = false`, status Confirmed), denying it, and the
  filters behind the four booking lists. `Hotel` and `Booking` are classes
  whose fields the operations update (module `Models`).
- **Retention sweep** (module `CleanupBookedDates`): one run of the scheduled
  job drops every range whose last night is before today and writes a hotel
  only when something was dropped; the first failed save ends the pass.
- **Client-side copies of the interval logic**: the booking page's overlap
  pre-check, date picker and confirm rule (module `BookingPage`, where the
  picker state is the class `BookingForm`); the availability calendar's
  ranges, booked-day test and month grid (module `Calendar`); the hotel
  list's price/city filter (module `HotelsPage`); the "Booked"/"Booked Today"
  badge (`Intervals.BookedToday`) and the review permission (module
  `HotelDetailsPage`).
- Module `Consistency` shows that the client copies agree with the server's
  approval test. Module `Scenarios` runs the worked examples of an approval,
  a refused overlapping approval and a sweep.

Dates are integer day numbers. A parsed date is an `Option<int>` on the
server and a `DateText` (empty, unparseable or a day) on the booking page.
The booking page's own month view (`BookingMonth`'s `days`, `ranges` and
`isBooked`, client/src/pages/BookingPage.jsx:161-188) uses different date
calls from the calendar component but computes, at day granularity, the same
grid, the same intervals and the same booked-day test, so it is modelled once by
`Calendar.MonthDays`, `Calendar.Ranges` and `Calendar.IsBookedDay`.

## Model

| member | source | states |
|---|---|---|
| Intervals.SomeCovers | client/src/pages/HotelsPage.jsx:56-61 | The `.some` over the ranges is true iff some non-empty range's interval `[first, last+1)` holds the day; empty ranges never count |
| Intervals.BookedToday | client/src/pages/HotelDetailsPage.jsx:98-108 | The badge shows "Booked" iff the booked dates are an array and today lies in `[start, last+1)` of some non-empty range (the hotel list's badge at client/src/pages/HotelsPage.jsx:55-61 is the same test) |
| Intervals.OverlapSymmetric | server/controllers/booking.controller.js:138-139 | Half-open overlap `s1 < e2 && s2 < e1` is symmetric |
| Intervals.AdjacentNotOverlap | server/controllers/booking.controller.js:138-139 | A stay starting on another's exclusive end does not overlap it, in either order |
| Intervals.SelfOverlap | server/controllers/booking.controller.js:138-139 | A non-empty interval overlaps itself |
| Intervals.OverlapsIffSharedDay | server/controllers/booking.controller.js:138-139 | Two intervals overlap iff some day lies in both |
| Intervals.ConsecutiveOffset | server/controllers/booking.controller.js:12-15 | In a range of consecutive nights the k-th entry is the first night plus k |
| Intervals.ConsecutiveCovers | client/src/components/Calendar.jsx:11-21 | For a consecutive non-empty range, its decoded interval holds a day iff the day is one of its nights |
| Models.Hotel.constructor | server/models/hotel.model.js:16-20 | A new hotel has no booked ranges and is available |
| Models.Booking.constructor | server/controllers/booking.controller.js:44-51 | A created booking holds the given customer, hotel, dates, price and status |
| BookingController.Nights | server/controllers/booking.controller.js:4-17 | The nights of a stay: `checkOut - checkIn` entries (none when `checkOut <= checkIn`), entry i being `checkIn + i` |
| BookingController.BuildDateRange | server/controllers/booking.controller.js:4-17 | The push loop over `cur` returns exactly the nights of the stay |
| BookingController.NightsRoundTrip | server/controllers/booking.controller.js:124-136 | For `checkIn < checkOut` the encoded nights decode back to `[checkIn, checkOut)` and are consecutive |
| BookingController.CreateBooking | server/controllers/booking.controller.js:19-58 | A missing hotel is reported first, then an unparseable date, then `checkOut <= checkIn`; valid input yields a new Pending booking priced nights × price per night; the hotel is never changed |
| BookingController.Conflicts | server/controllers/booking.controller.js:126-140 | Approval reports a conflict iff the new range is non-empty and its interval overlaps the interval of some non-empty stored range |
| BookingController.ConflictIsHalfOpenOverlap | server/controllers/booking.controller.js:126-140 | For a real stay the conflict test is exactly half-open overlap of `[checkIn, checkOut)` with a stored interval |
| BookingController.AdjacentStayDoesNotConflict | server/controllers/booking.controller.js:126-140 | A stay beginning on a stored stay's check-out day is not refused |
| BookingController.ApprovalKeepsDisjoint | server/controllers/booking.controller.js:141-144 | Appending a range that does not conflict keeps the ledger pairwise non-overlapping |
| BookingController.ApprovalKeepsWellFormed | server/controllers/booking.controller.js:141-144 | Appending the nights of a real stay keeps every range non-empty and consecutive |
| BookingController.SecondOverlappingApprovalConflicts | server/controllers/booking.controller.js:126-144 | Once one stay is appended, approving any stay overlapping it is refused |
| BookingController.ApproveBooking | server/controllers/booking.controller.js:116-154 | Outcomes in source order: missing booking, not Pending, hotel gone (server error), not the owner, overlap with the current ledger; on failure nothing changes; on success exactly the stay's nights are appended, availability becomes false (so it again matches "no ranges") and the status Confirmed |
| BookingController.DenyBooking | server/controllers/booking.controller.js:157-172 | Outcomes in source order: missing booking, not Pending, hotel missing, not the owner; success only sets the status to Cancelled and never touches the hotel |
| BookingController.Select | server/controllers/booking.controller.js:67-181 | Each list holds exactly the bookings meeting its filter (customer and check-out against today; Pending or Confirmed with an existing hotel created by the owner), no more than there are |
| BookingController.HistoryActivePartition | server/controllers/booking.controller.js:67-90 | Each of a customer's bookings is on exactly one of history and active, and together the two lists are as long as the customer's bookings |
| CleanupBookedDates.KeepIffNotElapsed | server/cron/cleanupBookedDates.js:21-26 | A range is kept iff it is non-empty and its exclusive end `last+1` is after today |
| CleanupBookedDates.Kept | server/cron/cleanupBookedDates.js:21-26 | The kept ranges are an order-preserving subsequence, unmodified, holding exactly the ranges that pass the keep test |
| CleanupBookedDates.KeptCounts | server/cron/cleanupBookedDates.js:21-26 | Each kept range survives as many times as it is stored, each dropped range not at all |
| CleanupBookedDates.SweepLedger | server/cron/cleanupBookedDates.js:19-33 | A hotel with no ranges, or whose filter dropped nothing, is left as it is; otherwise its ranges become the kept ones and availability becomes "no ranges left" |
| CleanupBookedDates.SweepIdempotent | server/cron/cleanupBookedDates.js:21-33 | A second pass with the same day changes nothing |
| CleanupBookedDates.SweepKeepsAvailabilityMatching | server/cron/cleanupBookedDates.js:29-32 | If availability matched "no ranges" before the pass, it still does after |
| CleanupBookedDates.SweepKeepsDisjoint | server/cron/cleanupBookedDates.js:21-26 | The pass keeps a pairwise non-overlapping ledger non-overlapping |
| CleanupBookedDates.KeptKeepsDisjoint | server/cron/cleanupBookedDates.js:21-26 | Filtering ranges out of a non-overlapping list leaves it non-overlapping |
| CleanupBookedDates.SweepKeepsFutureBookings | server/cron/cleanupBookedDates.js:21-26 | Every day from today on is booked after the pass iff it was booked before |
| CleanupBookedDates.Sweep | server/cron/cleanupBookedDates.js:9-40 | Hotels are handled in order, each by the one-hotel pass on its own ledger; no earlier hotel needed a failing save, and the pass stops at the first one that does, leaving it and the rest unchanged |
| Calendar.Ranges | client/src/components/Calendar.jsx:7-17 | At most one interval per stored range; no ranges give no intervals |
| Calendar.RangesInOrder | client/src/components/Calendar.jsx:7-17 | The intervals come out in the order of the stored ranges |
| Calendar.RangesOfOne | client/src/components/Calendar.jsx:9-15 | A single range gives `[first, last+1)` if non-empty and nothing if empty |
| Calendar.IsBookedDay | client/src/components/Calendar.jsx:19-24 | The loop answers true iff some interval holds the day |
| Calendar.CalendarMatchesLedger | client/src/components/Calendar.jsx:7-24 | The calendar shades a day iff some non-empty stored range's interval holds it |
| Calendar.RangeEndpoints | client/src/components/Calendar.jsx:19-24 | A range's first and last nights are shaded and its check-out day is not |
| Calendar.MonthDays | client/src/components/Calendar.jsx:26-36 | The grid is `firstWeekday` blanks then every day from the first to the last of the month, ascending, none repeated or skipped |
| BookingPage.IsOverlap | client/src/pages/BookingPage.jsx:24-42 | False without a booked-dates array or with an empty or unparseable field; otherwise true iff `[start, end)` overlaps some non-empty range's interval |
| BookingPage.CheckOutDayIsFree | client/src/pages/BookingPage.jsx:33-40 | A stay starting on a range's check-out day is not flagged against it |
| BookingPage.BookingForm.constructor | client/src/pages/BookingPage.jsx:13-15 | The page opens with both fields empty and no picker open |
| BookingPage.BookingForm.Focus | client/src/pages/BookingPage.jsx:75-79 | Focusing a field opens its picker and changes no date |
| BookingPage.BookingForm.Select | client/src/pages/BookingPage.jsx:88-124 | A chosen check-in keeps a later check-out, else moves check-out to the next day; a chosen check-out is kept if after check-in, else becomes the day after; afterwards a set check-in always has a later check-out |
| BookingPage.BookingForm.ClickDay | client/src/pages/BookingPage.jsx:183-213 | A booked day cannot be selected and changes nothing; a free day gives exactly the new dates, picker and pending flag that `Select` gives |
| BookingPage.BookingForm.CanConfirm | client/src/pages/BookingPage.jsx:143-148 | In any state the picker produces, the button is enabled iff no request is pending, both dates are set, check-out is after check-in and the stay meets no booked range |
| HotelsPage.Includes | client/src/pages/HotelsPage.jsx:24 | The substring test is true iff the query occurs at some position of the city |
| HotelsPage.Matches | client/src/pages/HotelsPage.jsx:22-26 | A hotel matches iff its price meets each set bound and, when the city query is non-empty, the lower-cased query occurs somewhere in the lower-cased city (a missing city being empty) |
| HotelsPage.Filtered | client/src/pages/HotelsPage.jsx:21-27 | The result is an order-preserving subsequence holding exactly the hotels that match, each matching hotel as many times as it is listed |
| HotelsPage.NoFilterKeepsAll | client/src/pages/HotelsPage.jsx:23-24 | With no bounds and no city query every hotel is shown |
| HotelsPage.CityMatchIgnoresCase | client/src/pages/HotelsPage.jsx:24 | For all cities and queries, changing the letter case of either never changes whether a hotel matches |
| HotelDetailsPage.AvailableWithoutRanges | client/src/pages/HotelDetailsPage.jsx:100-101 | Without a booked-dates array, or with only empty ranges, the badge reads "Available" |
| HotelDetailsPage.CheckedOutStaysDoNotBookToday | client/src/pages/HotelDetailsPage.jsx:104-107 | Ranges whose last night is yesterday or earlier do not book today |
| HotelDetailsPage.AnyStayAt | client/src/pages/HotelDetailsPage.jsx:44 | The `.some` over past bookings is true iff one of them is at this hotel |
| HotelDetailsPage.CanReview | client/src/pages/HotelDetailsPage.jsx:44 | The visitor may review iff the past bookings are an array holding a stay at this hotel |
| Consistency.PreCheckAgreesWithApproval | client/src/pages/BookingPage.jsx:33-40 | For a real stay the client pre-check flags exactly the stays approval refuses |
| Consistency.BookedDayIffOneNightConflicts | client/src/components/Calendar.jsx:19-24 | A day is shaded iff a one-night stay on it would be refused at approval |
| Scenarios.ApprovalScenario | server/controllers/booking.controller.js:39-148 | At 100 per night, 10th–13th costs 300 and its approval books nights 10, 11, 12 and makes the hotel unavailable; a request for 12th–14th is refused as overlapping and stays Pending |
| Scenarios.SweepScenario | server/cron/cleanupBookedDates.js:21-32 | On the 20th a hotel's only range, ending the 15th, is removed and the hotel becomes available |

## Left out

- Persistence and HTTP: lookups (`findById`, `populate`) are parameters (a null `Hotel?`/`Booking?` is a missing document), saves are field updates, responses are the `Outcome`/`Result` datatypes with the status codes noted on `Failure`.
- The sort order of the booking lists comes from database queries; `BookingController.Select` keeps the stored order instead.
- JavaScript `Date` semantics: time zones, `setHours(0,0,0,0)`, `'T00:00:00'` parsing, the `YYYY-MM-DD` formatting in the picker and month overflow in `changeMonth`/`addMonthsSafe`. Dates are day numbers and parsing is an option; the weekday of the 1st (`getDay()`) is an input of `Calendar.MonthDays`.
- Entries of `bookedDates` that are not arrays cannot be represented: every stored range is a `seq<int>`, so the "non-array range" branches reduce to the empty-range branches.
- BookingController.CreateBooking: the price is an integer, so `pricePerNight || 0` (which only differs for a missing or NaN price) is not modelled.
- HotelsPage.Matches: price bounds are optional integers; `Number(minPrice)` yielding NaN for non-numeric text is not modelled.
- HotelsPage.LowerString: lower-casing is modelled for ASCII letters only, not the full Unicode `toLowerCase`.
- Concurrency: approval reads, checks and writes with no lock and saves the hotel before the booking; the sweep can interleave with approvals. Every operation is one sequential step here, so lost updates and partial writes are not modelled.
- Failures are not isolated per hotel and approval is not atomic: the sweep runs its whole loop inside one `try`, so `CleanupBookedDates.Sweep` stops at the first failed save. Which saves fail is an input (`saveFails`).
- `node-cron` scheduling and logging: one run of the callback is modelled, with today's day number as a parameter.
- The `Completed` status is in the enumeration but nothing assigns it; the schema default `Confirmed` is always overridden by `CreateBooking`.
- `updateHotel` can overwrite `bookedDates` wholesale; it is generic update code, not ledger logic, so hotel owner and price are constants here.
- Authentication and roles (bcrypt, JWT, middleware, the client's auth context), the wishlist and review controllers, and UI rendering (routing, toasts, carousel, map, the axios client) are not part of this model.
