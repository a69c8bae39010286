/**
 * How the booking handlers move the seat counts the trip handlers report:
 * the booked seats of a trip are the sum over its CONFIRMED bookings, so a
 * booking adds its passengers and a cancellation takes them away again,
 * and nothing stops a booking on a full trip.
 */
module SeatAccounting {
  import opened Wrappers
  import opened Http
  import opened Tables
  import TripController
  import opened BookingController

  /** A successful booking adds its passengers to its trip's booked seats and leaves other trips alone. */
  lemma CreateAddsSeats(db: Db, req: BookingRequest, newId: int, newReference: string, tripId: int)
    requires CreateBooking(db, req, newId, newReference).0.Success?
    ensures var db' := CreateBooking(db, req, newId, newReference).1;
      BookedSeats(db'.bookings, tripId)
        == BookedSeats(db.bookings, tripId)
           + (if tripId == req.tripId.value then PassengerCount(req.passengers) else 0)
  {
    var b := CreateBooking(db, req, newId, newReference).0.value.booking;
    BookedSeatsAppend(db.bookings, b, tripId);
  }

  /** ... so the available seats the trip reports drop by the same number. */
  lemma CreateTakesSeats(db: Db, req: BookingRequest, newId: int, newReference: string)
    requires CreateBooking(db, req, newId, newReference).0.Success?
    requires TripController.GetAvailableSeats(db, req.tripId.value).Success?
    ensures var db' := CreateBooking(db, req, newId, newReference).1;
      var after := TripController.GetAvailableSeats(db', req.tripId.value);
      && after.Success?
      && after.value.availableSeats
         == TripController.GetAvailableSeats(db, req.tripId.value).value.availableSeats - PassengerCount(req.passengers)
  {
    CreateAddsSeats(db, req, newId, newReference, req.tripId.value);
  }

  /**
   * The create decision never reads the bookings table: whatever bookings
   * exist, the same request is accepted or rejected alike.
   */
  lemma CreateIgnoresBookings(db: Db, others: seq<Booking>, req: BookingRequest, newId: int, newReference: string)
    ensures CreateBooking(db.(bookings := others), req, newId, newReference).0
         == CreateBooking(db, req, newId, newReference).0
  {
    var other := db.(bookings := others);
    assert other.trips == db.trips && other.tripStops == db.tripStops;
    assert other.routes == db.routes && other.buses == db.buses;
  }

  /**
   * No capacity check: if a request is accepted, it is still accepted after
   * a booking has filled the trip, and the trip then reports itself full.
   */
  lemma OverbookingAccepted(db: Db, req: BookingRequest, newId: int, newReference: string, filler: Booking)
    requires CreateBooking(db, req, newId, newReference).0.Success?
    requires TripController.GetAvailableSeats(db, req.tripId.value).Success?
    requires filler.tripId == req.tripId.value && filler.bookingStatus == Confirmed
    requires filler.passengers >= TripController.GetAvailableSeats(db, req.tripId.value).value.availableSeats
    ensures var full := db.(bookings := db.bookings + [filler]);
      && TripController.GetAvailableSeats(full, req.tripId.value).value.isFull
      && CreateBooking(full, req, newId, newReference).0.Success?
  {
    BookedSeatsAppend(db.bookings, filler, req.tripId.value);
    CreateIgnoresBookings(db, db.bookings + [filler], req, newId, newReference);
  }

  /**
   * Under unique ids and references, cancelling a booking takes exactly its
   * seats off the booked seats of every trip (a booking that was not
   * CONFIRMED had none).
   */
  lemma CancelRemovesSeats(db: Db, key: BookingKey, write: bool, tripId: int)
    requires UniqueKeys(db.bookings)
    requires CancelByKey(db, key, write).0.Success?
    ensures var b := db.bookings[FindBooking(db.bookings, key).value];
      BookedSeats(CancelByKey(db, key, write).1.bookings, tripId) == BookedSeats(db.bookings, tripId) - SeatsOf(b, tripId)
  {
    var i := FindBooking(db.bookings, key).value;
    UpdateMatchingUnique(db.bookings, key, MarkCancelled);
    BookedSeatsUpdate(db.bookings, i, MarkCancelled(db.bookings[i]), tripId);
  }

  /** A booking whose id and reference are new keeps the keys unique and is the row its id selects. */
  lemma AppendFreshBooking(bookings: seq<Booking>, b: Booking)
    requires UniqueKeys(bookings)
    requires forall x :: x in bookings ==> x.bookingId != b.bookingId && x.reference != b.reference
    ensures UniqueKeys(bookings + [b])
    ensures FindBooking(bookings + [b], ById(b.bookingId)) == Some(|bookings|)
  {
    var all := bookings + [b];
    var n := |bookings|;
    forall i | 0 <= i < n
      ensures all[i] == bookings[i] && !Matches(all[i], ById(b.bookingId))
    {
      assert bookings[i] in bookings;
    }
    FindBookingAt(all, ById(b.bookingId), n);
    forall i, j | 0 <= i < j < |all|
      ensures all[i].bookingId != all[j].bookingId && all[i].reference != all[j].reference
    {
      if j == n {
        assert bookings[i] in bookings;
      }
    }
  }

  /** Cancelling, by its id, a booking appended with a new id and reference takes exactly its seats off again. */
  lemma CancelAppended(d: Db, before: seq<Booking>, b: Booking, write: bool, tripId: int)
    requires d.bookings == before + [b] && !IsCancelled(b)
    requires UniqueKeys(before)
    requires forall x :: x in before ==> x.bookingId != b.bookingId && x.reference != b.reference
    ensures CancelByKey(d, ById(b.bookingId), write).0.Success?
    ensures BookedSeats(CancelByKey(d, ById(b.bookingId), write).1.bookings, tripId) == BookedSeats(before, tripId)
  {
    AppendFreshBooking(before, b);
    assert d.bookings[|before|] == b;
    CancelRemovesSeats(d, ById(b.bookingId), write, tripId);
    BookedSeatsAppend(before, b, tripId);
  }

  /**
   * Booking and then cancelling the new booking by its id gives every trip
   * back the booked seats it had.
   */
  lemma CreateThenCancel(db: Db, req: BookingRequest, newId: int, newReference: string, write: bool, tripId: int)
    requires UniqueKeys(db.bookings)
    requires forall b :: b in db.bookings ==> b.bookingId != newId && b.reference != newReference
    requires CreateBooking(db, req, newId, newReference).0.Success?
    ensures var db' := CreateBooking(db, req, newId, newReference).1;
      && CancelByKey(db', ById(newId), write).0.Success?
      && BookedSeats(CancelByKey(db', ById(newId), write).1.bookings, tripId) == BookedSeats(db.bookings, tripId)
  {
    var b := CreateBooking(db, req, newId, newReference).0.value.booking;
    CancelAppended(CreateBooking(db, req, newId, newReference).1, db.bookings, b, write, tripId);
  }
}
