/**
 * The rows of the PostgreSQL tables the handlers read and write, held as
 * values. A column that can be NULL is an Option; a numeric column whose
 * value can be NaN holds None for NaN.
 */
module Tables {
  import opened Wrappers
  import opened Geo

  /** A row of trips (the columns the modelled handlers use). */
  datatype Trip = Trip(
    driverId: int,
    busId: Option<int>,
    routeId: Option<int>,
    status: string,
    currentLatitude: Option<real>,
    currentLongitude: Option<real>,
    speedKmh: Option<real>)

  /** A row of buses. */
  datatype Bus = Bus(busNumber: string, totalSeats: Option<int>)

  /** A row of routes. */
  datatype Route = Route(
    routeNumber: string,
    baseFare: Option<real>,
    farePerKm: Option<real>,
    distanceKm: Option<real>)

  /** A row of stops. */
  datatype StopRow = StopRow(stopName: string, position: Point)

  /** A row of trip_stops: the place of a stop in a trip. */
  datatype TripStop = TripStop(tripId: int, stopId: int, sequence: int)

  /** A row of bookings. */
  datatype Booking = Booking(
    bookingId: int,
    reference: string,
    tripId: int,
    routeId: Option<int>,
    busId: Option<int>,
    passengerName: string,
    passengerPhone: string,
    pickupStopId: int,
    dropoffStopId: int,
    passengers: int,
    fareAmount: Option<real>,
    bookingStatus: string,
    status: Option<string>,
    paymentStatus: string,
    isPaymentCollected: Option<bool>)

  /** A row of bus_availability. */
  datatype Availability = Availability(currentSeated: int, seatsAvailable: int)

  /** The tables, keyed by their primary keys; bookings and trip stops keep their insertion order. */
  datatype Db = Db(
    trips: map<int, Trip>,
    buses: map<int, Bus>,
    routes: map<int, Route>,
    stops: map<int, StopRow>,
    tripStops: seq<TripStop>,
    bookings: seq<Booking>,
    availability: map<int, Availability>)

  const Active := "active"
  const Confirmed := "CONFIRMED"

  /** What one booking adds to the booked seats of a trip: its passengers when it is a CONFIRMED booking of that trip. */
  function SeatsOf(b: Booking, tripId: int): int {
    if b.tripId == tripId && b.bookingStatus == Confirmed then b.passengers else 0
  }

  /** COALESCE(SUM(number_of_passengers), 0) over the CONFIRMED bookings of a trip. */
  function BookedSeats(bookings: seq<Booking>, tripId: int): (n: int)
    ensures (forall i :: 0 <= i < |bookings| ==> SeatsOf(bookings[i], tripId) == 0) ==> n == 0
    ensures (forall i :: 0 <= i < |bookings| ==> 0 <= bookings[i].passengers) ==> 0 <= n
  {
    if bookings == [] then 0
    else
      assert forall i :: 1 <= i < |bookings| ==> bookings[1..][i - 1] == bookings[i];
      SeatsOf(bookings[0], tripId) + BookedSeats(bookings[1..], tripId)
  }

  /** A booking appended to the table adds exactly its own seats. */
  lemma {:induction false} BookedSeatsAppend(bookings: seq<Booking>, b: Booking, tripId: int)
    ensures BookedSeats(bookings + [b], tripId) == BookedSeats(bookings, tripId) + SeatsOf(b, tripId)
  {
    if bookings == [] {
      assert [] + [b] == [b];
      assert [b][1..] == [];
    } else {
      assert (bookings + [b])[1..] == bookings[1..] + [b];
      BookedSeatsAppend(bookings[1..], b, tripId);
    }
  }

  /** Replacing one booking changes the sum by the difference of the two bookings' seats. */
  lemma {:induction false} BookedSeatsUpdate(bookings: seq<Booking>, i: int, b: Booking, tripId: int)
    requires 0 <= i < |bookings|
    ensures BookedSeats(bookings[i := b], tripId)
         == BookedSeats(bookings, tripId) - SeatsOf(bookings[i], tripId) + SeatsOf(b, tripId)
  {
    if i == 0 {
      assert bookings[i := b][1..] == bookings[1..];
    } else {
      assert bookings[i := b][1..] == bookings[1..][i - 1 := b];
      BookedSeatsUpdate(bookings[1..], i - 1, b, tripId);
    }
  }

  /** The trip stops of one trip, in table order. */
  function StopsOfTrip(tripStops: seq<TripStop>, tripId: int): (r: seq<TripStop>)
    ensures forall t :: t in r <==> t in tripStops && t.tripId == tripId
    ensures forall t :: (multiset(r)[t] == if t.tripId == tripId then multiset(tripStops)[t] else 0)
    ensures |r| <= |tripStops|
  {
    if tripStops == [] then []
    else
      assert tripStops == [tripStops[0]] + tripStops[1..];
      assert forall t :: t in tripStops <==> t == tripStops[0] || t in tripStops[1..];
      (if tripStops[0].tripId == tripId then [tripStops[0]] else []) + StopsOfTrip(tripStops[1..], tripId)
  }
}
