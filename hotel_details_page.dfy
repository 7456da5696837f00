/** The hotel details page: facts about its "Booked Today" badge, which is
    `Intervals.BookedToday`, and whether the visitor may write a review. */
module HotelDetailsPage {
  import opened Intervals

  /** Without an array of booked dates, or with only empty ranges in it, the
      badge reads "Available". */
  lemma AvailableWithoutRanges(bookedDates: Option<seq<seq<int>>>, today: int)
    requires bookedDates.Some? ==> forall i :: 0 <= i < |bookedDates.value| ==> bookedDates.value[i] == []
    ensures !BookedToday(bookedDates, today)
  {
  }

  /** A hotel whose every stay checked out today or earlier reads "Available":
      a range whose last night is yesterday does not book today. */
  lemma CheckedOutStaysDoNotBookToday(bookedDates: seq<seq<int>>, today: int)
    requires forall i :: 0 <= i < |bookedDates| && |bookedDates[i]| > 0 ==>
               bookedDates[i][|bookedDates[i]| - 1] <= today - 1
    ensures !BookedToday(Some(bookedDates), today)
  {
  }

  /** `.some(b => b?.hotel?._id === id)` over the visitor's past bookings,
      given as the hotel id of each (None when the booking or its hotel is
      missing). */
  function AnyStayAt(past: seq<Option<string>>, id: string): (b: bool)
    ensures b <==> exists i :: 0 <= i < |past| && past[i] == Some(id)
    decreases |past|
  {
    if past == [] then false
    else past[0] == Some(id) || AnyStayAt(past[1..], id)
  }

  /** `canReview`: the past-bookings answer is an array holding a stay at this
      hotel. */
  function CanReview(past: Option<seq<Option<string>>>, id: string): (b: bool)
    ensures b <==> past.Some? && exists i :: 0 <= i < |past.value| && past.value[i] == Some(id)
  {
    past.Some? && AnyStayAt(past.value, id)
  }
}
