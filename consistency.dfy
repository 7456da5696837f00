/** The client pages repeat the server's interval arithmetic. These lemmas
    state that the copies agree with the server's approval test. */
module Consistency {
  import opened Intervals
  import BookingController
  import BookingPage

  /** For a real stay, the booking page's pre-check flags exactly the stays
      that approval would refuse as overlapping. */
  lemma PreCheckAgreesWithApproval(booked: seq<seq<int>>, checkIn: int, checkOut: int)
    requires checkIn < checkOut
    ensures BookingPage.Clashes(Some(booked), BookingPage.Day(checkIn), BookingPage.Day(checkOut))
            == BookingController.Conflicts(booked, BookingController.Nights(checkIn, checkOut))
  {
    BookingController.ConflictIsHalfOpenOverlap(booked, checkIn, checkOut);
  }

  /** A day is shaded as booked (and shown with the "Booked" badge when it is
      today) exactly when a one-night stay on it would be refused at approval. */
  lemma BookedDayIffOneNightConflicts(booked: seq<seq<int>>, d: int)
    ensures BookedOn(booked, d) <==> BookingController.Conflicts(booked, BookingController.Nights(d, d + 1))
  {
    BookingController.ConflictIsHalfOpenOverlap(booked, d, d + 1);
    if BookedOn(booked, d) {
      var i :| 0 <= i < |booked| && Span(booked[i]).Some? && Covers(Span(booked[i]).value, d);
      assert Overlaps(Interval(d, d + 1), Span(booked[i]).value);
    }
    if OverlapsAny(booked, Interval(d, d + 1)) {
      var i :| 0 <= i < |booked| && Span(booked[i]).Some? && Overlaps(Interval(d, d + 1), Span(booked[i]).value);
      assert Covers(Span(booked[i]).value, d);
    }
  }
}
