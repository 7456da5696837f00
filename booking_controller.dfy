/** The booking controller: encoding a stay as its nights, creating a pending
    booking, approving it against the hotel's ledger, denying it, and the
    filters behind the four booking lists. */
module BookingController {
  import opened Intervals
  import opened Models
  import Seqs

  /** The error responses of the controller. */
  datatype Failure =
    | HotelNotFound            // 404
    | BookingNotFound          // 404
    | InvalidDate              // 400 "Invalid check-in or check-out date"
    | CheckOutNotAfterCheckIn  // 400 "Check-out must be after check-in"
    | NotPending               // 400 "Only pending bookings can be approved/denied"
    | NotAuthorized            // 403
    | DatesOverlap             // 400 "Selected dates overlap an existing booking"
    | ServerError              // 500, an exception caught by the handler

  datatype Result<T> = Ok(value: T) | Err(error: Failure)
  datatype Outcome = Done | Fail(error: Failure)

  // ---------------------------------------------------------------------
  // Date-range encoding

  /** The nights of a stay from `checkIn` up to, not including, `checkOut`. */
  function Nights(checkIn: int, checkOut: int): (r: seq<int>)
    ensures |r| == if checkIn < checkOut then checkOut - checkIn else 0
    ensures forall i :: 0 <= i < |r| ==> r[i] == checkIn + i
    decreases checkOut - checkIn
  {
    if checkIn < checkOut then [checkIn] + Nights(checkIn + 1, checkOut) else []
  }

  /** buildDateRangeArray: pushes each day from `start` while it is before `end`. */
  method BuildDateRange(start: int, end: int) returns (arr: seq<int>)
    ensures arr == Nights(start, end)
  {
    arr := [];
    var cur := start;
    while cur < end
      invariant cur == start || start < cur <= end
      invariant |arr| == cur - start
      invariant forall i :: 0 <= i < |arr| ==> arr[i] == start + i
    {
      arr := arr + [cur];
      cur := cur + 1;
    }
    assert |arr| == |Nights(start, end)|;
    assert forall i :: 0 <= i < |arr| ==> arr[i] == Nights(start, end)[i];
  }

  /** Decoding an encoded stay gives back [checkIn, checkOut), and the encoded
      nights are consecutive. */
  lemma NightsRoundTrip(checkIn: int, checkOut: int)
    requires checkIn < checkOut
    ensures Span(Nights(checkIn, checkOut)) == Some(Interval(checkIn, checkOut))
    ensures Consecutive(Nights(checkIn, checkOut))
  {
  }

  /** Every stored range is non-empty and consecutive. */
  predicate WellFormed(booked: seq<seq<int>>) {
    forall i :: 0 <= i < |booked| ==> |booked[i]| > 0 && Consecutive(booked[i])
  }

  // ---------------------------------------------------------------------
  // Creating a booking

  /** createBooking: looks the hotel up first, then validates the dates, and
      stores a Pending booking priced per night without touching the hotel. */
  method CreateBooking(hotel: Hotel?, checkIn: Option<int>, checkOut: Option<int>, customer: UserId)
    returns (r: Result<Booking>)
    ensures hotel == null ==> r == Err(HotelNotFound)
    ensures hotel != null && (checkIn.None? || checkOut.None?) ==> r == Err(InvalidDate)
    ensures hotel != null && checkIn.Some? && checkOut.Some? && checkOut.value <= checkIn.value ==>
              r == Err(CheckOutNotAfterCheckIn)
    ensures hotel != null && checkIn.Some? && checkOut.Some? && checkIn.value < checkOut.value ==> r.Ok?
    ensures r.Ok? ==>
              && hotel != null && checkIn.Some? && checkOut.Some?
              && checkIn.value < checkOut.value
              && fresh(r.value)
              && r.value.customer == customer && r.value.hotel == hotel
              && r.value.checkIn == checkIn.value && r.value.checkOut == checkOut.value
              && r.value.totalPrice == (checkOut.value - checkIn.value) * hotel.pricePerNight
              && r.value.status == Pending
    ensures hotel != null ==> unchanged(hotel)
  {
    if hotel == null {
      return Err(HotelNotFound);
    }
    if checkIn.None? || checkOut.None? {
      return Err(InvalidDate);
    }
    var checkInDate, checkOutDate := checkIn.value, checkOut.value;
    if !(checkOutDate > checkInDate) {
      return Err(CheckOutNotAfterCheckIn);
    }
    var dateRange := BuildDateRange(checkInDate, checkOutDate);
    var totalPrice := |dateRange| * hotel.pricePerNight;
    var booking := new Booking(customer, hotel, checkInDate, checkOutDate, totalPrice, Pending);
    return Ok(booking);
  }

  // ---------------------------------------------------------------------
  // Approving a booking

  /** The approval test for one stored range: an empty stored range never
      conflicts, and an empty new range has no valid start date, so every
      comparison with it is false. */
  predicate RangeConflicts(range: seq<int>, dateRange: seq<int>) {
    && |range| > 0
    && |dateRange| > 0
    && var existingStart := range[0];
       var existingEndExclusive := range[|range| - 1] + 1;
       var newStart := dateRange[0];
       var newEndExclusive := dateRange[|dateRange| - 1] + 1;
       newStart < existingEndExclusive && existingStart < newEndExclusive
  }

  /** `bookedDates.some(...)` at approval time. It reports a conflict exactly
      when the new range is non-empty and its interval intersects the interval
      of some non-empty stored range. */
  function Conflicts(bookedDates: seq<seq<int>>, dateRange: seq<int>): (c: bool)
    ensures c <==> Span(dateRange).Some? && OverlapsAny(bookedDates, Span(dateRange).value)
    decreases |bookedDates|
  {
    if bookedDates == [] then false
    else RangeConflicts(bookedDates[0], dateRange) || Conflicts(bookedDates[1..], dateRange)
  }

  /** For a real stay the approval test is the half-open overlap of
      [checkIn, checkOut) with the stored intervals. */
  lemma ConflictIsHalfOpenOverlap(booked: seq<seq<int>>, checkIn: int, checkOut: int)
    requires checkIn < checkOut
    ensures Conflicts(booked, Nights(checkIn, checkOut)) <==> OverlapsAny(booked, Interval(checkIn, checkOut))
  {
    NightsRoundTrip(checkIn, checkOut);
  }

  /** A stay that starts on the check-out day of the only booked stay is approved. */
  lemma {:induction false} AdjacentStayDoesNotConflict(a: int, b: int, c: int)
    requires a < b < c
    ensures !Conflicts([Nights(a, b)], Nights(b, c))
  {
    NightsRoundTrip(a, b);
    NightsRoundTrip(b, c);
  }

  /** Appending a range that does not conflict keeps the ledger free of overlaps. */
  lemma ApprovalKeepsDisjoint(booked: seq<seq<int>>, dateRange: seq<int>)
    requires Disjoint(booked) && !Conflicts(booked, dateRange)
    ensures Disjoint(booked + [dateRange])
  {
    var after := booked + [dateRange];
    forall i, j |
      0 <= i < |after| && 0 <= j < |after| && i != j &&
      Span(after[i]).Some? && Span(after[j]).Some?
      ensures !Overlaps(Span(after[i]).value, Span(after[j]).value)
    {
      if i == |booked| {
        assert after[j] == booked[j];
        assert !Overlaps(Span(dateRange).value, Span(booked[j]).value);
      } else if j == |booked| {
        assert after[i] == booked[i];
        assert !Overlaps(Span(dateRange).value, Span(booked[i]).value);
      } else {
        assert after[i] == booked[i] && after[j] == booked[j];
      }
    }
  }

  /** Appending a real stay keeps every stored range non-empty and consecutive. */
  lemma ApprovalKeepsWellFormed(booked: seq<seq<int>>, checkIn: int, checkOut: int)
    requires WellFormed(booked) && checkIn < checkOut
    ensures WellFormed(booked + [Nights(checkIn, checkOut)])
  {
    NightsRoundTrip(checkIn, checkOut);
    var after := booked + [Nights(checkIn, checkOut)];
    forall i | 0 <= i < |after| ensures |after[i]| > 0 && Consecutive(after[i]) {
      if i < |booked| {
        assert after[i] == booked[i];
      }
    }
  }

  /** Of two pending stays that overlap, once the first is approved the second
      is refused. */
  lemma SecondOverlappingApprovalConflicts(booked: seq<seq<int>>, a1: int, b1: int, a2: int, b2: int)
    requires a1 < b1 && a2 < b2 && Overlaps(Interval(a1, b1), Interval(a2, b2))
    ensures Conflicts(booked + [Nights(a1, b1)], Nights(a2, b2))
  {
    NightsRoundTrip(a1, b1);
    NightsRoundTrip(a2, b2);
    var after := booked + [Nights(a1, b1)];
    assert after[|booked|] == Nights(a1, b1);
    assert Span(after[|booked|]).Some? && Overlaps(Interval(a2, b2), Span(after[|booked|]).value);
  }

  /** The objects an approval may write: the booking and its hotel. */
  function ApprovalFrame(booking: Booking?): set<object> {
    if booking == null then {}
    else if booking.hotel == null then {booking}
    else {booking, booking.hotel}
  }

  /** approveBooking: status is checked before ownership; a booking whose hotel
      is gone fails on the ownership read; the stay is tested against the
      current ledger and, if clear, appended, with the hotel marked unavailable
      and the booking confirmed. */
  method ApproveBooking(booking: Booking?, actor: UserId) returns (r: Outcome)
    modifies ApprovalFrame(booking)
    ensures booking == null ==> r == Fail(BookingNotFound)
    ensures booking != null && old(booking.status) != Pending ==> r == Fail(NotPending)
    ensures booking != null && old(booking.status) == Pending && booking.hotel == null ==>
              r == Fail(ServerError)
    ensures booking != null && old(booking.status) == Pending && booking.hotel != null &&
            booking.hotel.createdBy != actor ==>
              r == Fail(NotAuthorized)
    ensures booking != null && old(booking.status) == Pending && booking.hotel != null &&
            booking.hotel.createdBy == actor ==>
              r == if Conflicts(old(booking.hotel.bookedDates), Nights(booking.checkIn, booking.checkOut))
                   then Fail(DatesOverlap) else Done
    ensures r.Fail? && booking != null ==>
              booking.status == old(booking.status) &&
              (booking.hotel != null ==> unchanged(booking.hotel))
    ensures r.Done? ==>
              && booking != null && booking.hotel != null
              && booking.hotel.bookedDates == old(booking.hotel.bookedDates) + [Nights(booking.checkIn, booking.checkOut)]
              && !booking.hotel.availability
              && booking.hotel.AvailabilityMatches()
              && booking.status == Confirmed
  {
    if booking == null {
      return Fail(BookingNotFound);
    }
    if booking.status != Pending {
      return Fail(NotPending);
    }
    if booking.hotel == null {
      return Fail(ServerError);
    }
    if booking.hotel.createdBy != actor {
      return Fail(NotAuthorized);
    }
    var hotel := booking.hotel;
    var dateRange := BuildDateRange(booking.checkIn, booking.checkOut);
    if Conflicts(hotel.bookedDates, dateRange) {
      return Fail(DatesOverlap);
    }
    hotel.bookedDates := hotel.bookedDates + [dateRange];
    hotel.availability := false;
    booking.status := Confirmed;
    return Done;
  }

  // ---------------------------------------------------------------------
  // Denying a booking

  /** denyBooking: status first, then the hotel's existence, then ownership;
      only the booking's status changes. */
  method DenyBooking(booking: Booking?, actor: UserId) returns (r: Outcome)
    modifies booking
    ensures booking == null ==> r == Fail(BookingNotFound)
    ensures booking != null && old(booking.status) != Pending ==> r == Fail(NotPending)
    ensures booking != null && old(booking.status) == Pending && booking.hotel == null ==>
              r == Fail(HotelNotFound)
    ensures booking != null && old(booking.status) == Pending && booking.hotel != null ==>
              r == if booking.hotel.createdBy == actor then Done else Fail(NotAuthorized)
    ensures booking != null ==> booking.status == if r.Done? then Cancelled else old(booking.status)
    ensures booking != null && booking.hotel != null ==> unchanged(booking.hotel)
  {
    if booking == null {
      return Fail(BookingNotFound);
    }
    if booking.status != Pending {
      return Fail(NotPending);
    }
    var hotel := booking.hotel;
    if hotel == null {
      return Fail(HotelNotFound);
    }
    if hotel.createdBy != actor {
      return Fail(NotAuthorized);
    }
    booking.status := Cancelled;
    return Done;
  }

  // ---------------------------------------------------------------------
  // Booking lists

  /** The four lists: a customer's past and current stays (split on check-out
      against today), and an owner's pending and confirmed bookings (those
      whose hotel still exists and was created by the owner). */
  datatype Listing =
    | History(customer: UserId, today: int)
    | Active(customer: UserId, today: int)
    | PendingFor(owner: UserId)
    | OwnedConfirmed(owner: UserId)

  predicate Listed(b: Booking, l: Listing)
    reads b
  {
    match l
    case History(u, today) => b.customer == u && b.checkOut < today
    case Active(u, today) => b.customer == u && b.checkOut >= today
    case PendingFor(owner) => b.status == Pending && b.hotel != null && b.hotel.createdBy == owner
    case OwnedConfirmed(owner) => b.status == Confirmed && b.hotel != null && b.hotel.createdBy == owner
  }

  /** The bookings of `all` on list `l`, in their stored order. */
  function Select(all: seq<Booking>, l: Listing): (r: seq<Booking>)
    reads all
    ensures |r| <= |all|
    ensures forall k :: 0 <= k < |r| ==> r[k] in all && Listed(r[k], l)
    ensures forall k :: 0 <= k < |all| && Listed(all[k], l) ==> all[k] in r
    decreases |all|
  {
    if all == [] then []
    else (if Listed(all[0], l) then [all[0]] else []) + Select(all[1..], l)
  }

  /** History and the active list split a customer's bookings: each of them is
      on exactly one of the two, and together they are all of them. */
  lemma {:induction false} HistoryActivePartition(all: seq<Booking>, u: UserId, today: int)
    ensures forall k :: 0 <= k < |all| && all[k].customer == u ==>
              (all[k] in Select(all, History(u, today)) <==> all[k] !in Select(all, Active(u, today)))
    ensures |Select(all, History(u, today))| + |Select(all, Active(u, today))|
            == |Seqs.Filter(all, (b: Booking) => b.customer == u)|
    decreases |all|
  {
    if all != [] {
      HistoryActivePartition(all[1..], u, today);
    }
  }
}
