/** The booking page: the client-side overlap pre-check, the date picker that
    fills check-in and check-out, and the rule that enables the confirm button.
    Its month view repeats the calendar's grid and booked-day loops, which are
    modelled once, in module Calendar. */
module BookingPage {
  import opened Intervals
  import Calendar

  /** A date field's text: empty, a string that does not parse as a date, or
      a day. */
  datatype DateText = Empty | Unparseable | Day(day: int)

  /** Which date the open picker fills, if any. */
  datatype Picker = Closed | CheckInPicker | CheckOutPicker

  /** What `isOverlap(start, end)` answers: the hotel's booked dates are an
      array, both fields hold a valid date, and [start, end) meets the interval
      of some non-empty range. */
  predicate Clashes(bookedDates: Option<seq<seq<int>>>, start: DateText, end: DateText) {
    && bookedDates.Some?
    && start.Day? && end.Day?
    && OverlapsAny(bookedDates.value, Interval(start.day, end.day))
  }

  /** isOverlap: after its three early exits, a loop over the ranges that
      skips empty ones and stops at the first overlap. */
  method IsOverlap(bookedDates: Option<seq<seq<int>>>, startStr: DateText, endStr: DateText) returns (overlap: bool)
    ensures overlap == Clashes(bookedDates, startStr, endStr)
  {
    if bookedDates.None? {
      return false;
    }
    if startStr.Empty? || endStr.Empty? {
      return false;
    }
    if startStr.Unparseable? || endStr.Unparseable? {
      return false;
    }
    var start, end := startStr.day, endStr.day;
    var ranges := bookedDates.value;
    for i := 0 to |ranges|
      invariant forall k :: 0 <= k < i && Span(ranges[k]).Some? ==> !Overlaps(Interval(start, end), Span(ranges[k]).value)
    {
      var range := ranges[i];
      if |range| == 0 {
        continue;
      }
      var existingStart := range[0];
      var existingEndExclusive := range[|range| - 1] + 1;
      if start < existingEndExclusive && existingStart < end {
        assert Span(ranges[i]).Some? && Overlaps(Interval(start, end), Span(ranges[i]).value);
        return true;
      }
    }
    return false;
  }

  /** A stay that starts on an existing stay's check-out day passes the
      pre-check against that stay alone. */
  lemma CheckOutDayIsFree(range: seq<int>, end: int)
    requires |range| > 0
    ensures !Clashes(Some([range]), Day(range[|range| - 1] + 1), Day(end))
  {
  }

  /** The page's state: the two date fields, the open picker, whether a
      request is in flight, and the hotel's booked dates as loaded (None when
      the hotel is not loaded or its booked dates are not an array). */
  class BookingForm {
    const bookedDates: Option<seq<seq<int>>>
    var checkIn: DateText
    var checkOut: DateText
    var picker: Picker
    var isPending: bool

    /** The states the picker can produce: fields are empty or hold a day, and
        once check-in is set, check-out is a later day. */
    predicate Valid()
      reads this
    {
      && !checkIn.Unparseable? && !checkOut.Unparseable?
      && (checkIn.Day? ==> checkOut.Day? && checkOut.day > checkIn.day)
    }

    constructor (bookedDates: Option<seq<seq<int>>>)
      ensures this.bookedDates == bookedDates
      ensures checkIn == Empty && checkOut == Empty && picker == Closed && !isPending
      ensures Valid()
    {
      this.bookedDates := bookedDates;
      checkIn, checkOut := Empty, Empty;
      picker := Closed;
      isPending := false;
    }

    /** Focusing a date field opens its picker. */
    method Focus(p: Picker)
      modifies this
      ensures picker == p
      ensures checkIn == old(checkIn) && checkOut == old(checkOut) && isPending == old(isPending)
    {
      picker := p;
    }

    /** onSelect: choosing a check-in moves check-out to the next day unless it
        is already later; choosing a check-out keeps it if it is after
        check-in, else uses the day after check-in. The picker then closes.
        The page shows the month only while a picker is open; with it closed
        the code would take its check-out branch, and so does this method. */
    method Select(d: int)
      modifies this
      ensures picker == Closed && isPending == old(isPending)
      ensures old(picker) == CheckInPicker ==>
                && checkIn == Day(d)
                && checkOut == if old(checkOut).Day? && old(checkOut).day > d then old(checkOut) else Day(d + 1)
      ensures old(picker) != CheckInPicker ==>
                && checkIn == old(checkIn)
                && checkOut == match old(checkIn)
                               case Empty => Day(d)
                               case Unparseable => Unparseable
                               case Day(inDay) => if d > inDay then Day(d) else Day(inDay + 1)
      ensures old(Valid()) ==> Valid()
      ensures checkIn.Day? ==> checkOut.Day? && checkOut.day > checkIn.day
    {
      if picker == CheckInPicker {
        var outDate := checkOut;
        checkIn := Day(d);
        if !(outDate.Day? && outDate.day > d) {
          checkOut := Day(d + 1);
        }
      } else {
        match checkIn
        case Empty =>
          checkOut := Day(d);
        case Unparseable =>
          checkOut := Unparseable;
        case Day(inDay) =>
          if d > inDay {
            checkOut := Day(d);
          } else {
            checkOut := Day(inDay + 1);
          }
      }
      picker := Closed;
    }

    /** A click on a day of the month view: booked days are disabled, any
        other day is selected. */
    method ClickDay(d: int)
      modifies this
      ensures BookedOn(bookedDates.GetOr([]), d) ==> unchanged(this)
      ensures !BookedOn(bookedDates.GetOr([]), d) ==>
                && picker == Closed && isPending == old(isPending)
                && (old(picker) == CheckInPicker ==>
                      && checkIn == Day(d)
                      && checkOut == if old(checkOut).Day? && old(checkOut).day > d then old(checkOut) else Day(d + 1))
                && (old(picker) != CheckInPicker ==>
                      && checkIn == old(checkIn)
                      && checkOut == match old(checkIn)
                                     case Empty => Day(d)
                                     case Unparseable => Unparseable
                                     case Day(inDay) => if d > inDay then Day(d) else Day(inDay + 1))
      ensures old(Valid()) ==> Valid()
    {
      var ledger := bookedDates.GetOr([]);
      var ranges := Calendar.Ranges(ledger);
      var booked := Calendar.IsBookedDay(ranges, d);
      Calendar.CalendarMatchesLedger(ledger, d);
      if booked {
        var k :| 0 <= k < |ranges| && Covers(ranges[k], d);
        assert Covers(Calendar.Ranges(ledger)[k], d);
      }
      assert booked <==> BookedOn(ledger, d);
      if !booked {
        Select(d);
      }
    }

    /** The confirm button is enabled unless a request is in flight, a field is
        empty, check-out is not after check-in, or the pre-check reports an
        overlap. In any state the picker produces, that means: both dates are
        set, the stay has at least one night, and it meets no booked range. */
    predicate CanConfirm()
      reads this
      ensures Valid() ==>
                (CanConfirm() <==>
                   && !isPending
                   && checkIn.Day? && checkOut.Day? && checkIn.day < checkOut.day
                   && !(bookedDates.Some? && OverlapsAny(bookedDates.value, Interval(checkIn.day, checkOut.day))))
    {
      !(|| isPending
        || checkIn.Empty? || checkOut.Empty?
        || (checkIn.Day? && checkOut.Day? && checkOut.day <= checkIn.day)
        || Clashes(bookedDates, checkIn, checkOut))
    }
  }
}
