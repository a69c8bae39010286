/**
 * The decision and arithmetic code of the booking handlers
 * (src/controllers/bookingController.js): validation and fare of a new
 * booking, the reference-or-id classification of a booking key,
 * cancellation with its seat release, and the status and payment updates.
 */
module BookingController {
  import opened Wrappers
  import opened JsText
  import opened JsCoerce
  import opened Http
  import opened Tables
  import StableSort

  const MissingFields := "Missing required fields: passenger_name, passenger_phone, trip_id, pickup_stop_id, dropoff_stop_id"
  const TripNotFound := "Trip not found"
  const TripNotActive := "Trip is no longer active"
  const InvalidStops := "Invalid pickup or dropoff stop"
  const PickupAfterDropoff := "Pickup stop must be before dropoff stop"
  const BookingNotFound := "Booking not found"
  const AlreadyCancelled := "Booking already cancelled"
  const ReferencePrefix := "BK"
  const Cancelled := "CANCELLED"
  const CancelledStatus := "cancelled"
  const PaymentPending := "PENDING"
  const PaymentPaid := "PAID"

  // ---------------------------------------------------------------- creation

  /** The body of a create request; an absent field is None. */
  datatype BookingRequest = BookingRequest(
    passengerName: Option<string>,
    passengerPhone: Option<string>,
    routeId: Option<int>,
    busId: Option<int>,
    tripId: Option<int>,
    pickupStopId: Option<int>,
    dropoffStopId: Option<int>,
    passengers: Option<int>)

  /** A truthy text field: present and not empty. */
  predicate GivenText(field: Option<string>) {
    field.Some? && field.value != ""
  }

  /** A truthy id field: present and not 0. */
  predicate GivenId(field: Option<int>) {
    field.Some? && field.value != 0
  }

  /** `a || b` on two nullable ids. */
  function IdOr(first: Option<int>, second: Option<int>): (r: Option<int>)
    ensures GivenId(first) ==> r == first
    ensures !GivenId(first) ==> r == second
  {
    if GivenId(first) then first else second
  }

  predicate HasRequiredFields(req: BookingRequest) {
    && GivenText(req.passengerName) && GivenText(req.passengerPhone)
    && GivenId(req.tripId) && GivenId(req.pickupStopId) && GivenId(req.dropoffStopId)
  }

  /** number_of_passengers || 1, used both for the fare and for the stored row. */
  function PassengerCount(requested: Option<int>): (n: int)
    ensures n != 0
    ensures GivenId(requested) ==> n == requested.value
    ensures !GivenId(requested) ==> n == 1
  {
    if GivenId(requested) then requested.value else 1
  }

  function SequenceOf(t: TripStop): int {
    t.sequence
  }

  /** The trip stops of the trip that are the pickup or the dropoff stop, in table order. */
  function Matching(tripStops: seq<TripStop>, tripId: int, pickup: int, dropoff: int): (r: seq<TripStop>)
    ensures forall t :: t in r <==> t in tripStops && t.tripId == tripId && (t.stopId == pickup || t.stopId == dropoff)
    ensures forall t :: (multiset(r)[t]
      == if t.tripId == tripId && (t.stopId == pickup || t.stopId == dropoff) then multiset(tripStops)[t] else 0)
  {
    if tripStops == [] then []
    else
      assert tripStops == [tripStops[0]] + tripStops[1..];
      assert forall t :: t in tripStops <==> t == tripStops[0] || t in tripStops[1..];
      var t := tripStops[0];
      (if t.tripId == tripId && (t.stopId == pickup || t.stopId == dropoff) then [t] else [])
        + Matching(tripStops[1..], tripId, pickup, dropoff)
  }

  /** The rows of the stop query: the matching trip stops ORDER BY sequence. */
  function MatchedStops(tripStops: seq<TripStop>, tripId: int, pickup: int, dropoff: int): (rows: seq<TripStop>)
    ensures StableSort.SortedBy(rows, SequenceOf)
    ensures multiset(rows) == multiset(Matching(tripStops, tripId, pickup, dropoff))
  {
    StableSort.SortFacts(Matching(tripStops, tripId, pickup, dropoff), SequenceOf);
    StableSort.Sort(Matching(tripStops, tripId, pickup, dropoff), SequenceOf)
  }

  /**
   * The stop-order check as written: the first two rows are taken as the
   * pickup and the dropoff, whichever stops they are.
   */
  function StopSequencesAsWritten(rows: seq<TripStop>): (r: Result<(int, int), ApiError>)
    ensures |rows| < 2 ==> r == Failure(ApiError(BadRequest, InvalidStops))
    ensures r.Success? ==> 2 <= |rows| && r.value == (rows[0].sequence, rows[1].sequence) && r.value.0 < r.value.1
  {
    if |rows| < 2 then Failure(ApiError(BadRequest, InvalidStops))
    else if rows[0].sequence >= rows[1].sequence then Failure(ApiError(BadRequest, PickupAfterDropoff))
    else Success((rows[0].sequence, rows[1].sequence))
  }

  /**
   * On rows ordered by sequence the first two never decrease, so the
   * as-written "before" check rejects only two rows with equal sequence.
   */
  lemma AsWrittenRejectsOnlyTies(rows: seq<TripStop>)
    requires StableSort.SortedBy(rows, SequenceOf) && 2 <= |rows|
    ensures rows[0].sequence <= rows[1].sequence
    ensures StopSequencesAsWritten(rows).Failure? <==> rows[0].sequence == rows[1].sequence
  {
    assert SequenceOf(rows[0]) <= SequenceOf(rows[1]);
  }

  /** Trip 1 visits stop 10 and then stop 20. */
  const ExampleStops: seq<TripStop> := [TripStop(1, 10, 1), TripStop(1, 20, 2)]

  /** For a booking from stop 20 to stop 10 on trip 1 the query returns both rows, in visiting order. */
  lemma ExampleRows()
    ensures MatchedStops(ExampleStops, 1, 20, 10) == ExampleStops
  {
    var stops := ExampleStops;
    assert stops[1..] == [TripStop(1, 20, 2)];
    assert stops[1..][1..] == [];
    assert Matching(stops, 1, 20, 10) == stops;
    assert StableSort.Sort(stops, SequenceOf) == stops by {
      assert StableSort.Sort(stops[1..], SequenceOf) == [TripStop(1, 20, 2)];
    }
  }

  /**
   * The input that shows it: a booking from stop 20 back to stop 10 passes
   * the check, with a positive stop difference.
   */
  lemma AsWrittenAcceptsReversedStops()
    ensures StopSequencesAsWritten(MatchedStops(ExampleStops, 1, 20, 10)) == Success((1, 2))
  {
    ExampleRows();
  }

  /** The index of the first row for a stop. */
  function FirstRow(rows: seq<TripStop>, stopId: int): (r: Option<nat>)
    ensures r.None? <==> forall i :: 0 <= i < |rows| ==> rows[i].stopId != stopId
    ensures r.Some? ==>
      && r.value < |rows| && rows[r.value].stopId == stopId
      && forall i :: 0 <= i < r.value ==> rows[i].stopId != stopId
  {
    if rows == [] then None
    else if rows[0].stopId == stopId then Some(0)
    else match FirstRow(rows[1..], stopId)
      case None => None
      case Some(i) => Some(i + 1)
  }

  /**
   * The corrected check: the pickup's sequence is read from a pickup row and
   * the dropoff's from a dropoff row (the first of each, the smallest
   * sequence when the rows are ordered), and the pickup must come first.
   */
  function StopSequences(rows: seq<TripStop>, pickup: int, dropoff: int): (r: Result<(int, int), ApiError>)
    ensures |rows| < 2 ==> r == Failure(ApiError(BadRequest, InvalidStops))
    ensures r.Failure? ==> r.error.status == BadRequest
    ensures r.Success? ==> exists i, j ::
      && 0 <= i < |rows| && 0 <= j < |rows|
      && rows[i].stopId == pickup && rows[j].stopId == dropoff
      && r.value == (rows[i].sequence, rows[j].sequence)
      && r.value.0 < r.value.1
  {
    if |rows| < 2 then Failure(ApiError(BadRequest, InvalidStops))
    else match (FirstRow(rows, pickup), FirstRow(rows, dropoff))
      case (Some(i), Some(j)) =>
        if rows[i].sequence >= rows[j].sequence then Failure(ApiError(BadRequest, PickupAfterDropoff))
        else Success((rows[i].sequence, rows[j].sequence))
      case _ => Failure(ApiError(BadRequest, InvalidStops))
  }

  /** On ordered rows, the sequences the corrected check reads are the smallest of each stop. */
  lemma StopSequencesAreFirstVisits(rows: seq<TripStop>, pickup: int, dropoff: int)
    requires StableSort.SortedBy(rows, SequenceOf)
    requires StopSequences(rows, pickup, dropoff).Success?
    ensures var (p, d) := StopSequences(rows, pickup, dropoff).value;
      && (forall i :: 0 <= i < |rows| && rows[i].stopId == pickup ==> p <= rows[i].sequence)
      && (forall j :: 0 <= j < |rows| && rows[j].stopId == dropoff ==> d <= rows[j].sequence)
  {
    var i := FirstRow(rows, pickup).value;
    var j := FirstRow(rows, dropoff).value;
    forall k | 0 <= k < |rows| && rows[k].stopId == pickup
      ensures rows[i].sequence <= rows[k].sequence
    {
      assert i <= k;
      if i < k {
        assert SequenceOf(rows[i]) <= SequenceOf(rows[k]);
      }
    }
    forall k | 0 <= k < |rows| && rows[k].stopId == dropoff
      ensures rows[j].sequence <= rows[k].sequence
    {
      assert j <= k;
      if j < k {
        assert SequenceOf(rows[j]) <= SequenceOf(rows[k]);
      }
    }
  }

  /** The corrected check rejects the reversed booking of the example. */
  lemma CorrectedRejectsReversedStops()
    ensures StopSequences(MatchedStops(ExampleStops, 1, 20, 10), 20, 10)
         == Failure(ApiError(BadRequest, PickupAfterDropoff))
  {
    ExampleRows();
    ExampleRowsReversed();
  }

  /** Stop 20 is visited after stop 10 in the example rows. */
  lemma ExampleRowsReversed()
    ensures StopSequences(ExampleStops, 20, 10) == Failure(ApiError(BadRequest, PickupAfterDropoff))
  {
    var rows := ExampleStops;
    assert FirstRow(rows, 10) == Some(0);
    assert FirstRow(rows, 20) == Some(1) by {
      assert rows[1..][0].stopId == 20;
    }
  }

  /** For a booking in travel order, the corrected check agrees with the one as written. */
  lemma CorrectedAgreesOnForwardBookings(rows: seq<TripStop>, pickup: int, dropoff: int)
    requires |rows| == 2 && rows[0].stopId == pickup && rows[1].stopId == dropoff && pickup != dropoff
    ensures StopSequences(rows, pickup, dropoff) == StopSequencesAsWritten(rows)
  {
    assert FirstRow(rows, pickup) == Some(0);
    assert FirstRow(rows[1..], dropoff) == Some(0);
  }

  /** Math.max(stopCount - 1, 1): the number of hops between the trip's first and last stops, at least 1. */
  function Hops(stopCount: int): (h: int)
    ensures 1 <= h
    ensures 2 <= stopCount ==> h == stopCount - 1
    ensures stopCount < 2 ==> h == 1
  {
    if stopCount - 1 > 1 then stopCount - 1 else 1
  }

  /** The route distance shared out evenly over the hops, times the hops travelled. */
  function EstimatedDistance(routeKm: real, stopsDifference: int, stopCount: int): real {
    routeKm * stopsDifference as real / Hops(stopCount) as real
  }

  /** The fare of one passenger: the base fare plus the per-km fare of the estimated distance. */
  function FarePerPassenger(baseFare: real, farePerKm: real, estimatedKm: real): real {
    baseFare + farePerKm * estimatedKm
  }

  /**
   * The total fare; the route's columns come through a left join, and a
   * missing route or column makes parseFloat return NaN (None).
   */
  function TotalFare(route: Option<Route>, stopsDifference: int, stopCount: int, passengers: int): (r: Option<real>)
    ensures r.None? <==>
      route.None? || route.value.baseFare.None? || route.value.farePerKm.None? || route.value.distanceKm.None?
    ensures r.Some? ==>
      var rt := route.value;
      r.value == FarePerPassenger(rt.baseFare.value, rt.farePerKm.value,
                                  EstimatedDistance(rt.distanceKm.value, stopsDifference, stopCount)) * passengers as real
  {
    if route.None? then None
    else
      var rt := route.value;
      if rt.baseFare.None? || rt.farePerKm.None? || rt.distanceKm.None? then None
      else
        var estimated := EstimatedDistance(rt.distanceKm.value, stopsDifference, stopCount);
        Some(FarePerPassenger(rt.baseFare.value, rt.farePerKm.value, estimated) * passengers as real)
  }

  /** An example: 20 km over 5 stops, 2 hops, base 50, 10 per km, 2 passengers: 300. */
  lemma FareExample()
    ensures TotalFare(Some(Route("138", Some(50.0), Some(10.0), Some(20.0))), 2, 5, 2) == Some(300.0)
  {
    assert EstimatedDistance(20.0, 2, 5) == 10.0;
  }

  /** The estimate is additive over consecutive legs. */
  lemma EstimatedDistanceAdditive(routeKm: real, a: int, b: int, stopCount: int)
    ensures EstimatedDistance(routeKm, a + b, stopCount)
         == EstimatedDistance(routeKm, a, stopCount) + EstimatedDistance(routeKm, b, stopCount)
  {
    var h := Hops(stopCount) as real;
    assert routeKm * (a + b) as real == routeKm * a as real + routeKm * b as real;
    assert (routeKm * a as real + routeKm * b as real) / h == routeKm * a as real / h + routeKm * b as real / h;
  }

  /** With non-negative prices and distance, riding more hops never costs less. */
  lemma FareMonotone(baseFare: real, farePerKm: real, routeKm: real, d1: int, d2: int, stopCount: int)
    requires 0.0 <= farePerKm && 0.0 <= routeKm && d1 <= d2
    ensures FarePerPassenger(baseFare, farePerKm, EstimatedDistance(routeKm, d1, stopCount))
         <= FarePerPassenger(baseFare, farePerKm, EstimatedDistance(routeKm, d2, stopCount))
  {
    EstimatedDistanceAdditive(routeKm, d1, d2 - d1, stopCount);
    var h := Hops(stopCount) as real;
    assert 0.0 <= routeKm * (d2 - d1) as real;
    assert 0.0 <= EstimatedDistance(routeKm, d2 - d1, stopCount);
    assert farePerKm * EstimatedDistance(routeKm, d2, stopCount)
        == farePerKm * EstimatedDistance(routeKm, d1, stopCount) + farePerKm * EstimatedDistance(routeKm, d2 - d1, stopCount);
    assert 0.0 <= farePerKm * EstimatedDistance(routeKm, d2 - d1, stopCount);
  }

  /** The total is linear in the passengers: a group pays what its parts would pay apart. */
  lemma TotalFareAdditive(route: Option<Route>, stopsDifference: int, stopCount: int, p1: int, p2: int)
    requires TotalFare(route, stopsDifference, stopCount, p1).Some?
    ensures TotalFare(route, stopsDifference, stopCount, p1 + p2).value
         == TotalFare(route, stopsDifference, stopCount, p1).value + TotalFare(route, stopsDifference, stopCount, p2).value
  {
    var rt := route.value;
    var f := FarePerPassenger(rt.baseFare.value, rt.farePerKm.value, EstimatedDistance(rt.distanceKm.value, stopsDifference, stopCount));
    assert f * (p1 + p2) as real == f * p1 as real + f * p2 as real;
  }

  /** With a non-negative fare per passenger, more passengers never pay less. */
  lemma TotalFareMonotone(route: Option<Route>, stopsDifference: int, stopCount: int, p1: int, p2: int)
    requires TotalFare(route, stopsDifference, stopCount, p1).Some? && p1 <= p2
    requires 0.0 <= FarePerPassenger(route.value.baseFare.value, route.value.farePerKm.value,
                                     EstimatedDistance(route.value.distanceKm.value, stopsDifference, stopCount))
    ensures TotalFare(route, stopsDifference, stopCount, p1).value <= TotalFare(route, stopsDifference, stopCount, p2).value
  {
    TotalFareAdditive(route, stopsDifference, stopCount, p1, p2 - p1);
    var rt := route.value;
    var f := FarePerPassenger(rt.baseFare.value, rt.farePerKm.value, EstimatedDistance(rt.distanceKm.value, stopsDifference, stopCount));
    assert 0.0 <= f * (p2 - p1) as real;
  }

  /** A ride between stops of the trip is estimated at no more than the whole route. */
  lemma EstimateWithinRoute(routeKm: real, stopsDifference: int, stopCount: int)
    requires 0.0 <= routeKm && 0 <= stopsDifference <= stopCount - 1
    ensures 0.0 <= EstimatedDistance(routeKm, stopsDifference, stopCount) <= routeKm
  {
    var h := Hops(stopCount) as real;
    assert stopsDifference as real <= h;
    assert routeKm * stopsDifference as real <= routeKm * h;
    assert routeKm * h / h == routeKm;
  }

  /** The response of a successful create: the stored row plus the route and bus numbers. */
  datatype CreatedBooking = CreatedBooking(booking: Booking, routeNumber: Option<string>, busNumber: Option<string>)

  function RouteOf(routes: map<int, Route>, trip: Trip): Option<Route> {
    if trip.routeId.Some? && trip.routeId.value in routes then Some(routes[trip.routeId.value]) else None
  }

  function RouteNumberOf(routes: map<int, Route>, trip: Trip): Option<string> {
    if trip.routeId.Some? && trip.routeId.value in routes then Some(routes[trip.routeId.value].routeNumber) else None
  }

  function BusNumberOf(buses: map<int, Bus>, trip: Trip): Option<string> {
    if trip.busId.Some? && trip.busId.value in buses then Some(buses[trip.busId.value].busNumber) else None
  }

  /** The stop-order check of a request on the trip's stops, as written. */
  function StopCheckAsWritten(tripStops: seq<TripStop>, tripId: int, pickup: int, dropoff: int): Result<(int, int), ApiError> {
    StopSequencesAsWritten(MatchedStops(tripStops, tripId, pickup, dropoff))
  }

  /** The corrected stop-order check of a request on the trip's stops. */
  function StopCheck(tripStops: seq<TripStop>, tripId: int, pickup: int, dropoff: int): Result<(int, int), ApiError> {
    StopSequences(MatchedStops(tripStops, tripId, pickup, dropoff), pickup, dropoff)
  }

  /** The trip visits the pickup stop at a smaller sequence than the dropoff stop. */
  predicate PickupBeforeDropoff(tripStops: seq<TripStop>, tripId: int, pickup: int, dropoff: int) {
    exists i, j ::
      && 0 <= i < |tripStops| && 0 <= j < |tripStops|
      && tripStops[i].tripId == tripId && tripStops[i].stopId == pickup
      && tripStops[j].tripId == tripId && tripStops[j].stopId == dropoff
      && tripStops[i].sequence < tripStops[j].sequence
  }

  /**
   * What the stop-order check is meant to ensure: the corrected check
   * accepts only when the trip visits the pickup before the dropoff, at the
   * sequences it returns.
   */
  lemma StopCheckOrdersStops(tripStops: seq<TripStop>, tripId: int, pickup: int, dropoff: int)
    requires StopCheck(tripStops, tripId, pickup, dropoff).Success?
    ensures PickupBeforeDropoff(tripStops, tripId, pickup, dropoff)
    ensures 0 < StopCheck(tripStops, tripId, pickup, dropoff).value.1 - StopCheck(tripStops, tripId, pickup, dropoff).value.0
  {
    var rows := MatchedStops(tripStops, tripId, pickup, dropoff);
    var i, j :| && 0 <= i < |rows| && 0 <= j < |rows|
      && rows[i].stopId == pickup && rows[j].stopId == dropoff
      && StopCheck(tripStops, tripId, pickup, dropoff).value == (rows[i].sequence, rows[j].sequence)
      && rows[i].sequence < rows[j].sequence;
    var k := RowOfTrip(tripStops, tripId, pickup, dropoff, i);
    var l := RowOfTrip(tripStops, tripId, pickup, dropoff, j);
    assert tripStops[k].tripId == tripId && tripStops[k].stopId == pickup;
    assert tripStops[l].tripId == tripId && tripStops[l].stopId == dropoff;
    assert tripStops[k].sequence < tripStops[l].sequence;
  }

  /** Every row of the stop query is a trip stop of the trip, at some index k of the table. */
  lemma RowOfTrip(tripStops: seq<TripStop>, tripId: int, pickup: int, dropoff: int, i: int) returns (k: nat)
    requires 0 <= i < |MatchedStops(tripStops, tripId, pickup, dropoff)|
    ensures k < |tripStops| && tripStops[k] == MatchedStops(tripStops, tripId, pickup, dropoff)[i]
    ensures tripStops[k].tripId == tripId
  {
    var rows := MatchedStops(tripStops, tripId, pickup, dropoff);
    assert rows[i] in multiset(rows);
    assert rows[i] in Matching(tripStops, tripId, pickup, dropoff);
    k :| 0 <= k < |tripStops| && tripStops[k] == rows[i];
  }

  /**
   * The inserted row: route and bus from the trip, else from the request;
   * the passenger count defaulted to 1; the fare over the hops between the
   * two stops; CONFIRMED and payment PENDING.
   */
  function NewBooking(
    tripStops: seq<TripStop>, routes: map<int, Route>, req: BookingRequest, trip: Trip, sequences: (int, int),
    newId: int, newReference: string): (b: Booking)
    requires HasRequiredFields(req)
    ensures b.bookingId == newId && b.reference == newReference && b.tripId == req.tripId.value
    ensures b.routeId == IdOr(trip.routeId, req.routeId) && b.busId == IdOr(trip.busId, req.busId)
    ensures b.passengerName == req.passengerName.value && b.passengerPhone == req.passengerPhone.value
    ensures b.pickupStopId == req.pickupStopId.value && b.dropoffStopId == req.dropoffStopId.value
    ensures b.passengers == PassengerCount(req.passengers)
    ensures b.fareAmount == TotalFare(RouteOf(routes, trip), sequences.1 - sequences.0,
                                      |StopsOfTrip(tripStops, req.tripId.value)|, b.passengers)
    ensures b.bookingStatus == Confirmed && b.status.None?
    ensures b.paymentStatus == PaymentPending && b.isPaymentCollected.None?
  {
    var passengers := PassengerCount(req.passengers);
    var stopCount := |StopsOfTrip(tripStops, req.tripId.value)|;
    var fare := TotalFare(RouteOf(routes, trip), sequences.1 - sequences.0, stopCount, passengers);
    Booking(newId, newReference, req.tripId.value, IdOr(trip.routeId, req.routeId), IdOr(trip.busId, req.busId),
            req.passengerName.value, req.passengerPhone.value, req.pickupStopId.value, req.dropoffStopId.value,
            passengers, fare, Confirmed, None, PaymentPending, None)
  }

  /** The request passes the checks before the stop query: the fields, the trip, and its status. */
  predicate Admitted(db: Db, req: BookingRequest) {
    && HasRequiredFields(req) && req.tripId.value in db.trips && db.trips[req.tripId.value].status == Active
  }

  /**
   * createBooking. `newId` and `newReference` are what the table's defaults
   * give the inserted row. The stop-order check is the one as written, and
   * there is no capacity check.
   */
  function CreateBooking(db: Db, req: BookingRequest, newId: int, newReference: string)
    : (r: (Result<CreatedBooking, ApiError>, Db))
    ensures r.0.Success? <==>
      Admitted(db, req) && StopCheckAsWritten(db.tripStops, req.tripId.value, req.pickupStopId.value, req.dropoffStopId.value).Success?
    ensures r.0.Failure? ==> r.1 == db
    ensures !HasRequiredFields(req) ==> r.0 == Failure(ApiError(BadRequest, MissingFields))
    ensures HasRequiredFields(req) && req.tripId.value !in db.trips ==> r.0 == Failure(ApiError(NotFound, TripNotFound))
    ensures HasRequiredFields(req) && req.tripId.value in db.trips && db.trips[req.tripId.value].status != Active
      ==> r.0 == Failure(ApiError(BadRequest, TripNotActive))
    ensures Admitted(db, req)
      && StopCheckAsWritten(db.tripStops, req.tripId.value, req.pickupStopId.value, req.dropoffStopId.value).Failure?
      ==> r.0 == Failure(StopCheckAsWritten(db.tripStops, req.tripId.value, req.pickupStopId.value, req.dropoffStopId.value).error)
    ensures r.0.Success? ==>
      && r.0.value.booking == NewBooking(db.tripStops, db.routes, req, db.trips[req.tripId.value],
           StopCheckAsWritten(db.tripStops, req.tripId.value, req.pickupStopId.value, req.dropoffStopId.value).value,
           newId, newReference)
      && r.0.value.routeNumber == RouteNumberOf(db.routes, db.trips[req.tripId.value])
      && r.0.value.busNumber == BusNumberOf(db.buses, db.trips[req.tripId.value])
      && r.1 == db.(bookings := db.bookings + [r.0.value.booking])
  {
    if !Admitted(db, req) then (Failure(Rejection(db, req)), db)
    else
      var check := StopCheckAsWritten(db.tripStops, req.tripId.value, req.pickupStopId.value, req.dropoffStopId.value);
      Insert(db, req, check, newId, newReference)
  }

  /**
   * createBooking with the corrected stop-order check: an accepted booking
   * rides from the pickup to a later dropoff, and is charged for a positive
   * number of hops.
   */
  function CreateBookingCorrected(db: Db, req: BookingRequest, newId: int, newReference: string)
    : (r: (Result<CreatedBooking, ApiError>, Db))
    ensures r.0.Success? <==>
      Admitted(db, req) && StopCheck(db.tripStops, req.tripId.value, req.pickupStopId.value, req.dropoffStopId.value).Success?
    ensures r.0.Failure? ==> r.1 == db
    ensures !Admitted(db, req) ==> r.0 == Failure(Rejection(db, req))
    ensures Admitted(db, req)
      && StopCheck(db.tripStops, req.tripId.value, req.pickupStopId.value, req.dropoffStopId.value).Failure?
      ==> r.0 == Failure(StopCheck(db.tripStops, req.tripId.value, req.pickupStopId.value, req.dropoffStopId.value).error)
    ensures r.0.Success? ==>
      var sequences := StopCheck(db.tripStops, req.tripId.value, req.pickupStopId.value, req.dropoffStopId.value).value;
      && PickupBeforeDropoff(db.tripStops, req.tripId.value, req.pickupStopId.value, req.dropoffStopId.value)
      && sequences.0 < sequences.1
      && r.0.value.booking == NewBooking(db.tripStops, db.routes, req, db.trips[req.tripId.value], sequences, newId, newReference)
      && r.0.value.routeNumber == RouteNumberOf(db.routes, db.trips[req.tripId.value])
      && r.0.value.busNumber == BusNumberOf(db.buses, db.trips[req.tripId.value])
      && r.1 == db.(bookings := db.bookings + [r.0.value.booking])
  {
    if !Admitted(db, req) then (Failure(Rejection(db, req)), db)
    else
      var check := StopCheck(db.tripStops, req.tripId.value, req.pickupStopId.value, req.dropoffStopId.value);
      if check.Success? then
        StopCheckOrdersStops(db.tripStops, req.tripId.value, req.pickupStopId.value, req.dropoffStopId.value);
        Insert(db, req, check, newId, newReference)
      else Insert(db, req, check, newId, newReference)
  }

  /** The error of a request the first checks reject, in the order the handler makes them. */
  function Rejection(db: Db, req: BookingRequest): (e: ApiError)
    requires !Admitted(db, req)
    ensures !HasRequiredFields(req) ==> e == ApiError(BadRequest, MissingFields)
    ensures HasRequiredFields(req) && req.tripId.value !in db.trips ==> e == ApiError(NotFound, TripNotFound)
    ensures HasRequiredFields(req) && req.tripId.value in db.trips ==> e == ApiError(BadRequest, TripNotActive)
  {
    if !HasRequiredFields(req) then ApiError(BadRequest, MissingFields)
    else if req.tripId.value !in db.trips then ApiError(NotFound, TripNotFound)
    else ApiError(BadRequest, TripNotActive)
  }

  /** The rest of createBooking once the stop check has answered: its error, or the insert. */
  function Insert(db: Db, req: BookingRequest, check: Result<(int, int), ApiError>, newId: int, newReference: string)
    : (r: (Result<CreatedBooking, ApiError>, Db))
    requires Admitted(db, req)
    ensures r.0.Success? <==> check.Success?
    ensures check.Failure? ==> r == (Failure(check.error), db)
    ensures check.Success? ==>
      && r.0.value.booking == NewBooking(db.tripStops, db.routes, req, db.trips[req.tripId.value], check.value, newId, newReference)
      && r.0.value.routeNumber == RouteNumberOf(db.routes, db.trips[req.tripId.value])
      && r.0.value.busNumber == BusNumberOf(db.buses, db.trips[req.tripId.value])
      && r.1 == db.(bookings := db.bookings + [r.0.value.booking])
  {
    if check.Failure? then (Failure(check.error), db)
    else
      var trip := db.trips[req.tripId.value];
      var b := NewBooking(db.tripStops, db.routes, req, trip, check.value, newId, newReference);
      var created := CreatedBooking(b, RouteNumberOf(db.routes, trip), BusNumberOf(db.buses, trip));
      (Success(created), db.(bookings := db.bookings + [b]))
  }

  /** Where the two stop checks agree, so do the two handlers. */
  lemma CreateBookingsAgree(db: Db, req: BookingRequest, newId: int, newReference: string)
    requires Admitted(db, req) ==>
      StopCheck(db.tripStops, req.tripId.value, req.pickupStopId.value, req.dropoffStopId.value)
      == StopCheckAsWritten(db.tripStops, req.tripId.value, req.pickupStopId.value, req.dropoffStopId.value)
    ensures CreateBooking(db, req, newId, newReference) == CreateBookingCorrected(db, req, newId, newReference)
  {
  }

  /**
   * The booking of the example, from stop 20 back to stop 10 on trip 1, is
   * stored by the handler as written although the trip never visits stop
   * 20 before stop 10; it is charged for one hop. The corrected handler
   * rejects it.
   */
  lemma ReversedBookingCreated(db: Db, req: BookingRequest, newId: int, newReference: string)
    requires db.tripStops == ExampleStops && 1 in db.trips && db.trips[1].status == Active
    requires HasRequiredFields(req) && req.tripId == Some(1) && req.pickupStopId == Some(20) && req.dropoffStopId == Some(10)
    ensures !PickupBeforeDropoff(db.tripStops, 1, 20, 10)
    ensures CreateBooking(db, req, newId, newReference).0.Success?
    ensures CreateBooking(db, req, newId, newReference).0.value.booking.fareAmount
         == TotalFare(RouteOf(db.routes, db.trips[1]), 1, 2, PassengerCount(req.passengers))
    ensures CreateBookingCorrected(db, req, newId, newReference).0 == Failure(ApiError(BadRequest, PickupAfterDropoff))
  {
    AsWrittenAcceptsReversedStops();
    CorrectedRejectsReversedStops();
    ExampleStopCount();
  }

  /** Trip 1 of the example has two stops. */
  lemma ExampleStopCount()
    ensures |StopsOfTrip(ExampleStops, 1)| == 2
  {
    var stops := ExampleStops;
    assert stops[1..] == [TripStop(1, 20, 2)];
    assert stops[1..][1..] == [];
    assert StopsOfTrip(stops, 1) == stops;
  }

  // ------------------------------------------------------------ booking keys

  /**
   * isNaN(booking_id) || booking_id.startsWith('BK'): a key that starts
   * with "BK" is a reference, a decimal string of digits is an id.
   */
  predicate IsReference(bookingId: string): (b: bool)
    ensures StartsWith(bookingId, ReferencePrefix) ==> b
    ensures bookingId != [] && AllDigits(bookingId) ==> !b
  {
    DigitsAreNumericText(bookingId);
    !IsNumericText(bookingId) || StartsWith(bookingId, ReferencePrefix)
  }

  /** An id that starts with "BK" is always a reference. */
  lemma PrefixedIsReference(rest: string)
    ensures IsReference(ReferencePrefix + rest)
  {
    assert (ReferencePrefix + rest)[..2] == ReferencePrefix;
  }

  /** A decimal numeral is never a reference. */
  lemma NumeralIsNotReference(n: nat)
    ensures !IsReference(NatToString(n))
  {
  }

  /** A string of digits is numeric and does not start with "BK". */
  lemma DigitsAreNumericText(s: string)
    ensures s != [] && AllDigits(s) ==> IsNumericText(s) && !StartsWith(s, ReferencePrefix)
  {
    if s != [] && AllDigits(s) {
      NumeralIsNumeric(s);
      assert IsDigit(s[0]);
      if 2 <= |s| {
        assert s[..2][0] == s[0];
      }
    }
  }

  /** How a booking row is looked up: by booking_reference or by booking_id. */
  datatype BookingKey = ByReference(reference: string) | ById(id: int)

  /**
   * The key of the lookup. A numeric id is bound to the integer column, so
   * PostgreSQL casts the text and reports a bad or too large number as an
   * error, which the handler returns with status 500.
   */
  function ResolveKey(bookingId: string): (r: Result<BookingKey, ApiError>)
    ensures IsReference(bookingId) ==> r == Success(ByReference(bookingId))
    ensures !IsReference(bookingId) && PgIntegerCast(bookingId).PgValue?
      ==> r == Success(ById(PgIntegerCast(bookingId).n))
    ensures r.Failure? <==> !IsReference(bookingId) && !PgIntegerCast(bookingId).PgValue?
    ensures r.Failure? ==> r.error.status == ServerError
  {
    if IsReference(bookingId) then Success(ByReference(bookingId))
    else match PgIntegerCast(bookingId)
      case PgValue(n) => Success(ById(n))
      case InvalidSyntax => Failure(ApiError(ServerError, "invalid input syntax for type integer: \"" + bookingId + "\""))
      case OutOfRange => Failure(ApiError(ServerError, "value \"" + bookingId + "\" is out of range for type integer"))
  }

  /** The id 42 in decimal finds booking 42; every "BK" id is looked up by reference. */
  lemma ResolveKeyOfNumeral(n: nat)
    requires n < 0x8000_0000
    ensures ResolveKey(NatToString(n)) == Success(ById(n))
  {
    NumeralIsNotReference(n);
    PgCastOfNumeral(n);
  }

  predicate Matches(b: Booking, key: BookingKey) {
    match key
    case ByReference(reference) => b.reference == reference
    case ById(id) => b.bookingId == id
  }

  /** The first row the key selects. */
  function FindBooking(bookings: seq<Booking>, key: BookingKey): (r: Option<nat>)
    ensures r.None? <==> forall i :: 0 <= i < |bookings| ==> !Matches(bookings[i], key)
    ensures r.Some? ==>
      && r.value < |bookings| && Matches(bookings[r.value], key)
      && forall i :: 0 <= i < r.value ==> !Matches(bookings[i], key)
  {
    if bookings == [] then None
    else if Matches(bookings[0], key) then Some(0)
    else match FindBooking(bookings[1..], key)
      case None => None
      case Some(i) => Some(i + 1)
  }

  /** An UPDATE ... WHERE key: every selected row is changed by f, the others are kept. */
  function UpdateMatching(bookings: seq<Booking>, key: BookingKey, f: Booking -> Booking): (r: seq<Booking>)
    ensures |r| == |bookings|
    ensures forall i :: 0 <= i < |bookings| ==>
      r[i] == if Matches(bookings[i], key) then f(bookings[i]) else bookings[i]
  {
    if bookings == [] then []
    else [if Matches(bookings[0], key) then f(bookings[0]) else bookings[0]] + UpdateMatching(bookings[1..], key, f)
  }

  /** Booking ids are unique and so are references: a key selects at most one row. */
  ghost predicate UniqueKeys(bookings: seq<Booking>) {
    forall i, j :: 0 <= i < j < |bookings| ==>
      bookings[i].bookingId != bookings[j].bookingId && bookings[i].reference != bookings[j].reference
  }

  /** Under unique keys an update by key changes exactly the row FindBooking finds. */
  lemma UpdateMatchingUnique(bookings: seq<Booking>, key: BookingKey, f: Booking -> Booking)
    requires UniqueKeys(bookings) && FindBooking(bookings, key).Some?
    ensures var i := FindBooking(bookings, key).value;
      UpdateMatching(bookings, key, f) == bookings[i := f(bookings[i])]
  {
    var i := FindBooking(bookings, key).value;
    forall j | 0 <= j < |bookings| && j != i
      ensures !Matches(bookings[j], key)
    {
      if j > i {
        assert bookings[i].bookingId != bookings[j].bookingId && bookings[i].reference != bookings[j].reference;
      }
    }
  }

  // ---------------------------------------------------------- cancellation

  predicate IsCancelled(b: Booking) {
    b.status == Some(CancelledStatus) || b.bookingStatus == Cancelled
  }

  function MarkCancelled(b: Booking): Booking {
    b.(bookingStatus := Cancelled, status := Some(CancelledStatus))
  }

  /**
   * The seat release of a cancellation: the seated count drops by n but not
   * below 0, the free count rises by n with no upper cap.
   */
  function Release(a: Availability, n: int): (r: Availability)
    ensures r.currentSeated == if a.currentSeated - n > 0 then a.currentSeated - n else 0
    ensures 0 <= r.currentSeated
    ensures r.seatsAvailable == a.seatsAvailable + n
  {
    Availability(if a.currentSeated - n > 0 then a.currentSeated - n else 0, a.seatsAvailable + n)
  }

  /** Releasing seats on a bus that has an availability row; other rows are kept. */
  function ReleaseSeats(availability: map<int, Availability>, busId: Option<int>, n: int): (r: map<int, Availability>)
    ensures r.Keys == availability.Keys
    ensures forall k :: k in availability && !(busId == Some(k)) ==> r[k] == availability[k]
    ensures busId.Some? && busId.value in availability ==> r[busId.value] == Release(availability[busId.value], n)
  {
    if busId.Some? && busId.value in availability then availability[busId.value := Release(availability[busId.value], n)]
    else availability
  }

  /**
   * cancelBooking once the key is resolved. `availabilityWrite` says whether
   * the bus_availability update succeeds; its failure is logged and the
   * cancellation still succeeds.
   */
  function CancelByKey(db: Db, key: BookingKey, availabilityWrite: bool): (r: (Result<Booking, ApiError>, Db))
    ensures r.0.Success? <==>
      FindBooking(db.bookings, key).Some? && !IsCancelled(db.bookings[FindBooking(db.bookings, key).value])
    ensures r.0.Failure? ==> r.1 == db
    ensures FindBooking(db.bookings, key).None? ==> r.0 == Failure(ApiError(NotFound, BookingNotFound))
    ensures FindBooking(db.bookings, key).Some? && IsCancelled(db.bookings[FindBooking(db.bookings, key).value])
      ==> r.0 == Failure(ApiError(BadRequest, AlreadyCancelled))
    ensures r.0.Success? ==>
      var b := db.bookings[FindBooking(db.bookings, key).value];
      var n := if b.passengers != 0 then b.passengers else 1;
      && !IsCancelled(b)
      && r.0.value == MarkCancelled(b)
      && r.1 == db.(bookings := UpdateMatching(db.bookings, key, MarkCancelled),
                    availability := if availabilityWrite then ReleaseSeats(db.availability, b.busId, n) else db.availability)
  {
    match FindBooking(db.bookings, key)
    case None => (Failure(ApiError(NotFound, BookingNotFound)), db)
    case Some(i) =>
      var b := db.bookings[i];
      if IsCancelled(b) then (Failure(ApiError(BadRequest, AlreadyCancelled)), db)
      else
        var passengers := if b.passengers != 0 then b.passengers else 1;
        var availability := if availabilityWrite then ReleaseSeats(db.availability, b.busId, passengers) else db.availability;
        (Success(MarkCancelled(b)), db.(bookings := UpdateMatching(db.bookings, key, MarkCancelled), availability := availability))
  }

  /** cancelBooking: the id is classified and cast first; a failed cast is the handler's 500 error. */
  function CancelBooking(db: Db, bookingId: string, availabilityWrite: bool): (r: (Result<Booking, ApiError>, Db))
    ensures ResolveKey(bookingId).Failure? ==> r == (Failure(ResolveKey(bookingId).error), db)
    ensures ResolveKey(bookingId).Success? ==> r == CancelByKey(db, ResolveKey(bookingId).value, availabilityWrite)
  {
    match ResolveKey(bookingId)
    case Failure(e) => (Failure(e), db)
    case Success(key) => CancelByKey(db, key, availabilityWrite)
  }

  /** Whether or not the availability write succeeds, the cancellation answers the same. */
  lemma CancelIgnoresAvailabilityFailure(db: Db, key: BookingKey)
    ensures CancelByKey(db, key, true).0 == CancelByKey(db, key, false).0
    ensures CancelByKey(db, key, true).1.bookings == CancelByKey(db, key, false).1.bookings
  {
  }

  /** A row that the key selects, with none selected before it, is the one FindBooking finds. */
  lemma {:induction false} FindBookingAt(bookings: seq<Booking>, key: BookingKey, i: nat)
    requires i < |bookings| && Matches(bookings[i], key)
    requires forall j :: 0 <= j < i ==> !Matches(bookings[j], key)
    ensures FindBooking(bookings, key) == Some(i)
  {
    if i > 0 {
      assert !Matches(bookings[0], key);
      FindBookingAt(bookings[1..], key, i - 1);
    }
  }

  /** An update that keeps the key of the rows it changes leaves the first selected row where it was. */
  lemma FindAfterUpdate(bookings: seq<Booking>, key: BookingKey, f: Booking -> Booking)
    requires FindBooking(bookings, key).Some?
    requires Matches(f(bookings[FindBooking(bookings, key).value]), key)
    ensures FindBooking(UpdateMatching(bookings, key, f), key) == FindBooking(bookings, key)
  {
    var i := FindBooking(bookings, key).value;
    var updated := UpdateMatching(bookings, key, f);
    assert updated[i] == f(bookings[i]);
    forall j | 0 <= j < i
      ensures !Matches(updated[j], key)
    {
      assert updated[j] == bookings[j];
    }
    FindBookingAt(updated, key, i);
  }

  /** A cancelled booking cannot be cancelled again, and the second attempt changes nothing. */
  lemma CancelTwiceRejected(db: Db, key: BookingKey, write1: bool, write2: bool)
    requires CancelByKey(db, key, write1).0.Success?
    ensures var db' := CancelByKey(db, key, write1).1;
      CancelByKey(db', key, write2) == (Failure(ApiError(BadRequest, AlreadyCancelled)), db')
  {
    var i := FindBooking(db.bookings, key).value;
    var db' := CancelByKey(db, key, write1).1;
    assert db'.bookings == UpdateMatching(db.bookings, key, MarkCancelled);
    FindAfterUpdate(db.bookings, key, MarkCancelled);
    assert db'.bookings[i] == MarkCancelled(db.bookings[i]);
    assert IsCancelled(db'.bookings[i]);
  }

  /** The release has no upper cap: the free seats can exceed the bus's capacity. */
  lemma ReleaseUncapped()
    ensures Release(Availability(0, 40), 2) == Availability(0, 42)
  {
  }

  // ------------------------------------------------------ status and payment

  /**
   * The row change of updateBookingStatus: a truthy status sets `status`
   * and, upper-cased, `booking_status`; a truthy payment status sets
   * `payment_status`; a NULL parameter keeps the column (COALESCE).
   */
  function ApplyStatus(b: Booking, status: Option<string>, paymentStatus: Option<string>): (r: Booking)
    ensures GivenText(status) ==> r.status == status && r.bookingStatus == ToUpperAscii(status.value)
    ensures !GivenText(status) ==> r.status == b.status && r.bookingStatus == b.bookingStatus
    ensures r.paymentStatus == if GivenText(paymentStatus) then paymentStatus.value else b.paymentStatus
    ensures r.(status := b.status, bookingStatus := b.bookingStatus, paymentStatus := b.paymentStatus) == b
  {
    b.(status := if GivenText(status) then status else b.status,
       bookingStatus := if GivenText(status) then ToUpperAscii(status.value) else b.bookingStatus,
       paymentStatus := if GivenText(paymentStatus) then paymentStatus.value else b.paymentStatus)
  }

  /** A status of "cancelled" sent through the status update makes the booking count as cancelled. */
  lemma StatusUpdateCancels(b: Booking, paymentStatus: Option<string>)
    ensures IsCancelled(ApplyStatus(b, Some(CancelledStatus), paymentStatus))
    ensures ApplyStatus(b, Some(CancelledStatus), paymentStatus).bookingStatus == Cancelled
  {
    assert ToUpperAscii(CancelledStatus) == Cancelled;
  }

  /** updateBookingStatus once the key is resolved: one UPDATE ... RETURNING; no row selected is "Booking not found". */
  function UpdateStatusByKey(db: Db, key: BookingKey, status: Option<string>, paymentStatus: Option<string>)
    : (r: (Result<Booking, ApiError>, Db))
    ensures r.0.Failure? <==> FindBooking(db.bookings, key).None?
    ensures r.0.Failure? ==> r == (Failure(ApiError(NotFound, BookingNotFound)), db)
    ensures r.0.Success? ==>
      var f := (b: Booking) => ApplyStatus(b, status, paymentStatus);
      && r.0.value == f(db.bookings[FindBooking(db.bookings, key).value])
      && r.1 == db.(bookings := UpdateMatching(db.bookings, key, f))
  {
    match FindBooking(db.bookings, key)
    case None => (Failure(ApiError(NotFound, BookingNotFound)), db)
    case Some(i) =>
      var f := (b: Booking) => ApplyStatus(b, status, paymentStatus);
      (Success(f(db.bookings[i])), db.(bookings := UpdateMatching(db.bookings, key, f)))
  }

  function UpdateBookingStatus(db: Db, bookingId: string, status: Option<string>, paymentStatus: Option<string>)
    : (r: (Result<Booking, ApiError>, Db))
    ensures ResolveKey(bookingId).Failure? ==> r == (Failure(ResolveKey(bookingId).error), db)
    ensures ResolveKey(bookingId).Success? ==> r == UpdateStatusByKey(db, ResolveKey(bookingId).value, status, paymentStatus)
  {
    match ResolveKey(bookingId)
    case Failure(e) => (Failure(e), db)
    case Success(key) => UpdateStatusByKey(db, key, status, paymentStatus)
  }

  /** A JSON field that can be absent (undefined), null, or a value. */
  datatype Field<T> = Absent | Null | Given(value: T)

  /**
   * The row change of updatePaymentStatus: the payment status is the given
   * one or 'PAID'; an absent is_payment_collected means true, a null one
   * keeps the column, a given one is stored.
   */
  function ApplyPayment(b: Booking, paymentStatus: Option<string>, collected: Field<bool>): (r: Booking)
    ensures r.paymentStatus == if GivenText(paymentStatus) then paymentStatus.value else PaymentPaid
    ensures collected.Absent? ==> r.isPaymentCollected == Some(true)
    ensures collected.Null? ==> r.isPaymentCollected == b.isPaymentCollected
    ensures collected.Given? ==> r.isPaymentCollected == Some(collected.value)
    ensures r.(paymentStatus := b.paymentStatus, isPaymentCollected := b.isPaymentCollected) == b
  {
    var collectedValue := match collected
      case Absent => Some(true)
      case Null => b.isPaymentCollected
      case Given(v) => Some(v);
    b.(paymentStatus := if GivenText(paymentStatus) then paymentStatus.value else PaymentPaid,
       isPaymentCollected := collectedValue)
  }

  /** A request with neither field marks the booking paid and collected. */
  lemma PaymentDefaults(b: Booking)
    ensures ApplyPayment(b, None, Absent).paymentStatus == PaymentPaid
    ensures ApplyPayment(b, None, Absent).isPaymentCollected == Some(true)
  {
  }

  /** updatePaymentStatus once the key is resolved: one UPDATE ... RETURNING; no row selected is "Booking not found". */
  function UpdatePaymentByKey(db: Db, key: BookingKey, paymentStatus: Option<string>, collected: Field<bool>)
    : (r: (Result<Booking, ApiError>, Db))
    ensures r.0.Failure? <==> FindBooking(db.bookings, key).None?
    ensures r.0.Failure? ==> r == (Failure(ApiError(NotFound, BookingNotFound)), db)
    ensures r.0.Success? ==>
      var f := (b: Booking) => ApplyPayment(b, paymentStatus, collected);
      && r.0.value == f(db.bookings[FindBooking(db.bookings, key).value])
      && r.1 == db.(bookings := UpdateMatching(db.bookings, key, f))
  {
    match FindBooking(db.bookings, key)
    case None => (Failure(ApiError(NotFound, BookingNotFound)), db)
    case Some(i) =>
      var f := (b: Booking) => ApplyPayment(b, paymentStatus, collected);
      (Success(f(db.bookings[i])), db.(bookings := UpdateMatching(db.bookings, key, f)))
  }

  function UpdatePaymentStatus(db: Db, bookingId: string, paymentStatus: Option<string>, collected: Field<bool>)
    : (r: (Result<Booking, ApiError>, Db))
    ensures ResolveKey(bookingId).Failure? ==> r == (Failure(ResolveKey(bookingId).error), db)
    ensures ResolveKey(bookingId).Success? ==> r == UpdatePaymentByKey(db, ResolveKey(bookingId).value, paymentStatus, collected)
  {
    match ResolveKey(bookingId)
    case Failure(e) => (Failure(e), db)
    case Success(key) => UpdatePaymentByKey(db, key, paymentStatus, collected)
  }

  /** A row the lookup returns: the key selects it and its bus and route rows exist (the query joins both). */
  predicate Joined(db: Db, b: Booking, key: BookingKey) {
    && Matches(b, key)
    && b.busId.Some? && b.busId.value in db.buses
    && b.routeId.Some? && b.routeId.value in db.routes
  }

  /**
   * getBookingById: a failed cast is the handler's 500 error; otherwise the
   * answer is "Booking not found" exactly when no row joins.
   */
  function GetBookingById(db: Db, bookingId: string): (r: Result<Booking, ApiError>)
    ensures ResolveKey(bookingId).Failure? ==> r == Failure(ResolveKey(bookingId).error)
    ensures ResolveKey(bookingId).Success? ==>
      && (r.Failure? <==> forall i :: 0 <= i < |db.bookings| ==> !Joined(db, db.bookings[i], ResolveKey(bookingId).value))
      && (r.Failure? ==> r.error == ApiError(NotFound, BookingNotFound))
      && (r.Success? ==> r.value in db.bookings && Joined(db, r.value, ResolveKey(bookingId).value))
  {
    match ResolveKey(bookingId)
    case Failure(e) => Failure(e)
    case Success(key) => FirstJoined(db, db.bookings, key)
  }

  /** The first of the rows that joins. */
  function FirstJoined(db: Db, bookings: seq<Booking>, key: BookingKey): (r: Result<Booking, ApiError>)
    ensures r.Failure? <==> forall i :: 0 <= i < |bookings| ==> !Joined(db, bookings[i], key)
    ensures r.Failure? ==> r.error == ApiError(NotFound, BookingNotFound)
    ensures r.Success? ==> r.value in bookings && Joined(db, r.value, key)
  {
    if bookings == [] then Failure(ApiError(NotFound, BookingNotFound))
    else if Joined(db, bookings[0], key) then Success(bookings[0])
    else
      var r := FirstJoined(db, bookings[1..], key);
      assert forall i :: 1 <= i < |bookings| ==> bookings[i] == bookings[1..][i - 1];
      r
  }
}
