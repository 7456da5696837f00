/** Worked runs of the ledger, with days numbered within one month. */
module Scenarios {
  import opened Intervals
  import opened Models
  import opened BookingController
  import CleanupBookedDates

  /** A hotel at 100 per night: a stay from the 10th to the 13th costs 300
      and its approval books the nights 10, 11 and 12. A second request for
      the 12th to the 14th is accepted as Pending, but its approval is refused
      as overlapping and it stays Pending. */
  method ApprovalScenario()
    returns (price: int, first: Outcome, second: Outcome, ledger: Ledger, secondStatus: Status)
    ensures price == 300
    ensures first == Done && second == Fail(DatesOverlap)
    ensures ledger == Ledger([[10, 11, 12]], false)
    ensures secondStatus == Pending
  {
    var hotel := new Hotel("owner", 100);
    var r1 := CreateBooking(hotel, Some(10), Some(13), "guest");
    var b1 := r1.value;
    price := b1.totalPrice;
    first := ApproveBooking(b1, "owner");
    assert Nights(10, 13) == [10, 11, 12];
    var r2 := CreateBooking(hotel, Some(12), Some(14), "other guest");
    var b2 := r2.value;
    assert Conflicts(hotel.bookedDates, Nights(12, 14)) by {
      SecondOverlappingApprovalConflicts([], 10, 13, 12, 14);
      assert [] + [Nights(10, 13)] == hotel.bookedDates;
    }
    second := ApproveBooking(b2, "owner");
    ledger := hotel.State();
    secondStatus := b2.status;
  }

  /** The sweep on the 20th removes a hotel's only range, which ended on the
      15th, and makes the hotel available again. */
  lemma SweepScenario()
    ensures CleanupBookedDates.SweepLedger(Ledger([[13, 14, 15]], false), 20) == Ledger([], true)
  {
    var l := Ledger([[13, 14, 15]], false);
    assert !CleanupBookedDates.Keep(20, [13, 14, 15]);
    assert CleanupBookedDates.Kept(l.bookedDates, 20) == [];
  }
}
