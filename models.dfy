/** The two stored documents the reservation ledger works on. */
module Models {

  type UserId = string

  /** `Completed` is part of the status enumeration but no operation assigns it. */
  datatype Status = Pending | Confirmed | Cancelled | Completed

  /** The hotel's reservation ledger, as a value. */
  datatype Ledger = Ledger(bookedDates: seq<seq<int>>, availability: bool)

  /** A hotel document. Its owner and price are fixed here (updating a hotel is
      not part of this model); its booked ranges and availability change. */
  class Hotel {
    const createdBy: UserId
    const pricePerNight: int
    /** One entry per approved stay, one day number per booked night. */
    var bookedDates: seq<seq<int>>
    var availability: bool

    /** A new hotel starts with no booked ranges and is available. */
    constructor (createdBy: UserId, pricePerNight: int)
      ensures this.createdBy == createdBy && this.pricePerNight == pricePerNight
      ensures bookedDates == [] && availability
    {
      this.createdBy := createdBy;
      this.pricePerNight := pricePerNight;
      bookedDates := [];
      availability := true;
    }

    function State(): Ledger
      reads this
    {
      Ledger(bookedDates, availability)
    }

    /** Availability is the cached "no booked ranges" flag. */
    predicate AvailabilityMatches()
      reads this
    {
      availability == (|bookedDates| == 0)
    }
  }

  /** A booking document. Only its status changes after creation. `hotel` is
      null when the referenced hotel no longer exists. */
  class Booking {
    const customer: UserId
    const hotel: Hotel?
    const checkIn: int
    const checkOut: int
    const totalPrice: int
    var status: Status

    constructor (customer: UserId, hotel: Hotel?, checkIn: int, checkOut: int, totalPrice: int, status: Status)
      ensures this.customer == customer && this.hotel == hotel
      ensures this.checkIn == checkIn && this.checkOut == checkOut
      ensures this.totalPrice == totalPrice && this.status == status
    {
      this.customer := customer;
      this.hotel := hotel;
      this.checkIn := checkIn;
      this.checkOut := checkOut;
      this.totalPrice := totalPrice;
      this.status := status;
    }
  }
}
