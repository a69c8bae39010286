/**
 * The decision and arithmetic code of the trip handlers
 * (src/controllers/tripController.js): the ETA of an active trip to a stop,
 * the seat counts of a trip, and the validation and unit conversion of a
 * location update.
 */
module TripController {
  import opened Wrappers
  import opened JsMath
  import opened JsText
  import opened JsCoerce
  import opened Geo
  import opened Http
  import opened Tables

  const ArrivingRadiusKm: real := 0.1
  const MovingThresholdKmh: real := 10.0
  const TrafficFactor: real := 0.7
  const CityAverageKmh: real := 25.0
  const DefaultCapacity: int := 45
  const MetresPerSecondToKmh: real := 3.6

  const ArrivingNow := "Arriving now"
  const ActiveTripNotFound := "Active trip not found"
  const LocationNotAvailable := "Bus location not available yet"
  const StopNotFound := "Stop not found"
  const TripNotFound := "Trip not found"
  const MissingCoordinates := "Missing latitude or longitude"
  const InvalidCoordinates := "Invalid latitude or longitude format"

  /** A stored coordinate or speed is truthy when it is present and not 0. */
  predicate Known(value: Option<real>) {
    value.Some? && value.value != 0.0
  }

  /** parseFloat(trip.speed_kmh) || 0: a missing speed counts as standing still. */
  function CurrentSpeed(stored: Option<real>): (speed: real)
    ensures stored.None? ==> speed == 0.0
    ensures stored.Some? ==> speed == stored.value
  {
    if stored.Some? then stored.value else 0.0
  }

  /**
   * The average speed the ETA assumes: 70% of the current speed when the bus
   * moves faster than 10 km/h, city traffic at 25 km/h otherwise. It is
   * always above 7 km/h.
   */
  function AverageSpeed(current: real): (avg: real)
    ensures avg > 7.0
    ensures current > MovingThresholdKmh ==> avg == TrafficFactor * current
    ensures current <= MovingThresholdKmh ==> avg == CityAverageKmh
  {
    if current > MovingThresholdKmh then current * TrafficFactor else CityAverageKmh
  }

  /**
   * The minutes the handler reports: 0 within 100 m of the stop, otherwise
   * Math.ceil of the travel time at the average speed, which is then at
   * least one minute.
   */
  function TripEtaMinutes(distance: Km, current: real): (minutes: int)
    ensures distance < ArrivingRadiusKm <==> minutes == 0
    ensures ArrivingRadiusKm <= distance ==>
      && 1 <= minutes
      && (minutes - 1) as real < distance / AverageSpeed(current) * 60.0 <= minutes as real
  {
    if distance < ArrivingRadiusKm then 0
    else
      var avg := AverageSpeed(current);
      assert 0.0 < distance / avg by {
        PositiveQuotient(distance, avg);
      }
      Ceil(distance / avg * 60.0)
  }

  lemma PositiveQuotient(x: real, y: real)
    requires 0.0 < x && 0.0 < y
    ensures 0.0 < x / y
  {
    assert x / y * y == x;
  }

  /** The eta_text expression: "Arriving now" below one minute, else "<n> min" with an "s" for more than one. */
  function EtaText(minutes: int): (text: string)
    ensures minutes < 1 <==> text == ArrivingNow
    ensures minutes == 1 ==> text == "1 min"
    ensures 1 < minutes ==> text == NatToString(minutes) + " mins"
  {
    if minutes < 1 then ArrivingNow
    else
      var t := NatToString(minutes) + " min" + (if minutes > 1 then "s" else "");
      assert IsDigit(t[0]) by {
        assert t[0] == NatToString(minutes)[0];
      }
      t
  }

  /** Distinct ETAs of at least one minute get distinct texts. */
  lemma EtaTextInjective(m1: int, m2: int)
    requires 1 <= m1 && 1 <= m2 && EtaText(m1) == EtaText(m2)
    ensures m1 == m2
  {
    var unit1 := if m1 > 1 then " mins" else " min";
    var unit2 := if m2 > 1 then " mins" else " min";
    assert EtaText(m1) == NatToString(m1) + unit1;
    assert EtaText(m2) == NatToString(m2) + unit2;
    DigitRunOfNumeral(NatToString(m1), unit1);
    DigitRunOfNumeral(NatToString(m2), unit2);
    var t := EtaText(m1);
    assert t[..|NatToString(m1)|] == NatToString(m1);
    assert t[..|NatToString(m2)|] == NatToString(m2);
    NatToStringInjective(m1, m2);
  }

  /** At a fixed current speed, a farther stop never gets a smaller ETA. */
  lemma TripEtaMonotone(d1: Km, d2: Km, current: real)
    requires d1 <= d2
    ensures TripEtaMinutes(d1, current) <= TripEtaMinutes(d2, current)
  {
    if ArrivingRadiusKm <= d1 {
      var avg := AverageSpeed(current);
      DivideMonotone(d1, d2, avg);
      assert d1 / avg * 60.0 <= d2 / avg * 60.0;
      CeilMonotone(d1 / avg * 60.0, d2 / avg * 60.0);
    }
  }

  /** An example: 1.36 km from the stop, standing still, is "4 mins". */
  lemma TripEtaExample()
    ensures TripEtaMinutes(1.36, CurrentSpeed(None)) == 4
    ensures EtaText(4) == "4 mins"
  {
    assert 1.36 / 25.0 * 60.0 == 3.264;
  }

  /** The data object of a successful ETA response. */
  datatype TripEta = TripEta(stopName: string, distanceKm: Km, currentSpeed: real, etaMinutes: int, etaText: string)

  /**
   * calculateETA: the trip must be active, its position known (both
   * coordinates truthy), and the stop must exist, checked in that order.
   */
  function CalculateEta(db: Db, tripId: int, stopId: int, distance: (Point, Point) -> Km): (r: Result<TripEta, ApiError>)
    ensures r.Success? <==>
      && tripId in db.trips && db.trips[tripId].status == Active
      && Known(db.trips[tripId].currentLatitude) && Known(db.trips[tripId].currentLongitude)
      && stopId in db.stops
    ensures (tripId !in db.trips || db.trips[tripId].status != Active)
      ==> r == Failure(ApiError(NotFound, ActiveTripNotFound))
    ensures tripId in db.trips && db.trips[tripId].status == Active
      && !(Known(db.trips[tripId].currentLatitude) && Known(db.trips[tripId].currentLongitude))
      ==> r == Failure(ApiError(BadRequest, LocationNotAvailable))
    ensures tripId in db.trips && db.trips[tripId].status == Active
      && Known(db.trips[tripId].currentLatitude) && Known(db.trips[tripId].currentLongitude) && stopId !in db.stops
      ==> r == Failure(ApiError(NotFound, StopNotFound))
    ensures r.Success? ==>
      var trip := db.trips[tripId];
      && tripId in db.trips && stopId in db.stops && Known(trip.currentLatitude) && Known(trip.currentLongitude)
      && r.value.stopName == db.stops[stopId].stopName
      && r.value.distanceKm == distance(Point(trip.currentLatitude.value, trip.currentLongitude.value), db.stops[stopId].position)
      && r.value.currentSpeed == CurrentSpeed(trip.speedKmh)
      && r.value.etaMinutes == TripEtaMinutes(r.value.distanceKm, r.value.currentSpeed)
      && r.value.etaText == EtaText(r.value.etaMinutes)
  {
    if tripId !in db.trips || db.trips[tripId].status != Active then
      Failure(ApiError(NotFound, ActiveTripNotFound))
    else
      var trip := db.trips[tripId];
      if !Known(trip.currentLatitude) || !Known(trip.currentLongitude) then
        Failure(ApiError(BadRequest, LocationNotAvailable))
      else if stopId !in db.stops then
        Failure(ApiError(NotFound, StopNotFound))
      else
        var stop := db.stops[stopId];
        var d := distance(Point(trip.currentLatitude.value, trip.currentLongitude.value), stop.position);
        var current := CurrentSpeed(trip.speedKmh);
        if d < ArrivingRadiusKm then
          Success(TripEta(stop.stopName, d, current, 0, ArrivingNow))
        else
          var minutes := TripEtaMinutes(d, current);
          Success(TripEta(stop.stopName, d, current, minutes, EtaText(minutes)))
  }

  /**
   * Within 100 m the answer is 0 minutes and "Arriving now" whatever the
   * speed; beyond it is at least one minute, so the text is never
   * "Arriving now".
   */
  lemma CalculateEtaArrival(db: Db, tripId: int, stopId: int, distance: (Point, Point) -> Km)
    requires CalculateEta(db, tripId, stopId, distance).Success?
    ensures var e := CalculateEta(db, tripId, stopId, distance).value;
      && (e.distanceKm < ArrivingRadiusKm <==> e.etaMinutes == 0)
      && (e.distanceKm < ArrivingRadiusKm <==> e.etaText == ArrivingNow)
      && (ArrivingRadiusKm <= e.distanceKm ==> 1 <= e.etaMinutes)
  {
  }

  /** parseInt(total_seats) || 45: a missing or zero capacity counts as 45 seats. */
  function Capacity(totalSeats: Option<int>): (c: int)
    ensures c != 0
    ensures totalSeats.Some? && totalSeats.value != 0 ==> c == totalSeats.value
    ensures totalSeats.None? || totalSeats.value == 0 ==> c == DefaultCapacity
  {
    if totalSeats.Some? && totalSeats.value != 0 then totalSeats.value else DefaultCapacity
  }

  /** The data object of getAvailableSeats. */
  datatype SeatSummary = SeatSummary(totalSeats: int, bookedSeats: int, availableSeats: int, isFull: bool)

  /**
   * The seat arithmetic: the available seats are what the booked seats leave
   * of the capacity, with no clamp at zero, and the trip is full exactly
   * when none are left.
   */
  function Seats(totalSeats: Option<int>, booked: int): (r: SeatSummary)
    ensures r.totalSeats == Capacity(totalSeats) && r.bookedSeats == booked
    ensures r.availableSeats + r.bookedSeats == r.totalSeats
    ensures r.isFull <==> r.availableSeats <= 0
    ensures r.isFull <==> booked >= Capacity(totalSeats)
  {
    var total := Capacity(totalSeats);
    var available := total - booked;
    SeatSummary(total, booked, available, available <= 0)
  }

  /** getAvailableSeats: the trip must exist and have a bus row (an inner join). */
  function GetAvailableSeats(db: Db, tripId: int): (r: Result<SeatSummary, ApiError>)
    ensures r.Failure? <==>
      tripId !in db.trips || db.trips[tripId].busId.None? || db.trips[tripId].busId.value !in db.buses
    ensures r.Failure? ==> r.error == ApiError(NotFound, TripNotFound)
    ensures r.Success? ==>
      r.value == Seats(db.buses[db.trips[tripId].busId.value].totalSeats, BookedSeats(db.bookings, tripId))
  {
    if tripId !in db.trips then Failure(ApiError(NotFound, TripNotFound))
    else
      var busId := db.trips[tripId].busId;
      if busId.None? || busId.value !in db.buses then Failure(ApiError(NotFound, TripNotFound))
      else Success(Seats(db.buses[busId.value].totalSeats, BookedSeats(db.bookings, tripId)))
  }

  /** The seat fields getActiveTrips adds to a trip row. */
  datatype TripSeats = TripSeats(tripId: int, trip: Trip, capacity: int, bookedSeats: int, seatsAvailable: int, seatsOccupied: int)

  /** The capacity column of a trip row: its bus's total_seats through a left join, NULL when there is no bus row. */
  function BusSeats(db: Db, trip: Trip): Option<int> {
    if trip.busId.Some? && trip.busId.value in db.buses then db.buses[trip.busId.value].totalSeats else None
  }

  /** The same arithmetic as Seats, with the occupied seats equal to the booked ones. */
  function TripSeatsOf(db: Db, tripId: int): (r: TripSeats)
    requires tripId in db.trips
    ensures var s := Seats(BusSeats(db, db.trips[tripId]), BookedSeats(db.bookings, tripId));
      && r.tripId == tripId && r.trip == db.trips[tripId]
      && r.capacity == s.totalSeats && r.bookedSeats == s.bookedSeats
      && r.seatsAvailable == s.availableSeats && r.seatsOccupied == r.bookedSeats
  {
    var booked := BookedSeats(db.bookings, tripId);
    var capacity := Capacity(BusSeats(db, db.trips[tripId]));
    TripSeats(tripId, db.trips[tripId], capacity, booked, capacity - booked, booked)
  }

  /** The WHERE clause of getActiveTrips: active, and on the requested route when one is given. */
  predicate Listed(trip: Trip, routeFilter: Option<int>) {
    trip.status == Active && (routeFilter.None? || trip.routeId == Some(routeFilter.value))
  }

  /** The listed trips, in the given order of trip ids. */
  function ListedTrips(db: Db, routeFilter: Option<int>, order: seq<int>): (ids: seq<int>)
    ensures forall id :: id in ids <==> id in order && id in db.trips && Listed(db.trips[id], routeFilter)
  {
    if order == [] then []
    else
      assert forall id :: id in order <==> id == order[0] || id in order[1..];
      var head := order[0];
      (if head in db.trips && Listed(db.trips[head], routeFilter) then [head] else [])
        + ListedTrips(db, routeFilter, order[1..])
  }

  /**
   * The listing keeps the given order: the trips listed from two runs of ids
   * in a row are those of the first run followed by those of the second.
   */
  lemma {:induction false} ListedTripsAppend(db: Db, routeFilter: Option<int>, a: seq<int>, b: seq<int>)
    ensures ListedTrips(db, routeFilter, a + b) == ListedTrips(db, routeFilter, a) + ListedTrips(db, routeFilter, b)
    decreases |a|
  {
    if a == [] {
      assert a + b == b;
    } else {
      assert (a + b)[0] == a[0];
      assert (a + b)[1..] == a[1..] + b;
      ListedTripsAppend(db, routeFilter, a[1..], b);
    }
  }

  /** A listed trip appears as often as its id does in the order; an unlisted one not at all. */
  lemma {:induction false} ListedTripsCount(db: Db, routeFilter: Option<int>, order: seq<int>, id: int)
    ensures multiset(ListedTrips(db, routeFilter, order))[id]
         == if id in db.trips && Listed(db.trips[id], routeFilter) then multiset(order)[id] else 0
    decreases |order|
  {
    if order != [] {
      assert order == [order[0]] + order[1..];
      ListedTripsCount(db, routeFilter, order[1..], id);
    }
  }

  /** A single id is listed exactly when its trip exists and passes the WHERE clause. */
  lemma ListedTripsSingle(db: Db, routeFilter: Option<int>, id: int)
    ensures ListedTrips(db, routeFilter, [id]) == if id in db.trips && Listed(db.trips[id], routeFilter) then [id] else []
  {
    assert [id][1..] == [];
  }

  /**
   * getActiveTrips: the rows of the listed trips with their seat counts.
   * `order` stands for the ORDER BY start_time DESC, whose timestamps the
   * model does not hold.
   */
  function ActiveTrips(db: Db, routeFilter: Option<int>, order: seq<int>): (r: seq<TripSeats>)
    ensures |r| == |ListedTrips(db, routeFilter, order)|
    ensures forall i :: 0 <= i < |r| ==>
      var id := ListedTrips(db, routeFilter, order)[i];
      id in db.trips && Listed(db.trips[id], routeFilter) && r[i] == TripSeatsOf(db, id)
  {
    var ids := ListedTrips(db, routeFilter, order);
    seq(|ids|, i requires 0 <= i < |ids| => TripSeatsOf(db, ids[i]))
  }

  /** parseFloat(speed) * 3.6 || 0: a speed in m/s stored in km/h, 0 when it is not numeric. */
  function StoredSpeed(speed: JsValue): (kmh: real)
    ensures ParseFloat(speed).Some? ==> kmh == ParseFloat(speed).value * MetresPerSecondToKmh
    ensures ParseFloat(speed).None? ==> kmh == 0.0
  {
    match ParseFloat(speed)
    case Some(v) => v * MetresPerSecondToKmh
    case None => 0.0
  }

  /** The data object of a successful location update. */
  datatype LocationAck = LocationAck(tripId: int, latitude: real, longitude: real, speedKmh: real)

  /**
   * updateTripLocation: falsy coordinates are missing, unparsable ones
   * invalid, both rejected before the update; the update touches only an
   * active trip. A failure leaves the store as it was.
   */
  function UpdateTripLocation(db: Db, tripId: int, latitude: JsValue, longitude: JsValue, speed: JsValue)
    : (r: (Result<LocationAck, ApiError>, Db))
    ensures r.0.Success? <==>
      && Truthy(latitude) && Truthy(longitude) && ParseFloat(latitude).Some? && ParseFloat(longitude).Some?
      && tripId in db.trips && db.trips[tripId].status == Active
    ensures r.0.Failure? ==> r.1 == db
    ensures !Truthy(latitude) || !Truthy(longitude) ==> r.0 == Failure(ApiError(BadRequest, MissingCoordinates))
    ensures Truthy(latitude) && Truthy(longitude) && (ParseFloat(latitude).None? || ParseFloat(longitude).None?)
      ==> r.0 == Failure(ApiError(BadRequest, InvalidCoordinates))
    ensures Truthy(latitude) && Truthy(longitude) && ParseFloat(latitude).Some? && ParseFloat(longitude).Some?
      && (tripId !in db.trips || db.trips[tripId].status != Active)
      ==> r.0 == Failure(ApiError(NotFound, ActiveTripNotFound))
    ensures r.0.Success? ==>
      && Truthy(latitude) && Truthy(longitude) && ParseFloat(latitude).Some? && ParseFloat(longitude).Some?
      && tripId in db.trips && db.trips[tripId].status == Active
      && r.0.value == LocationAck(tripId, ParseFloat(latitude).value, ParseFloat(longitude).value, StoredSpeed(speed))
      && r.1 == db.(trips := db.trips[tripId := db.trips[tripId].(
           currentLatitude := Some(r.0.value.latitude),
           currentLongitude := Some(r.0.value.longitude),
           speedKmh := Some(r.0.value.speedKmh))])
  {
    if !Truthy(latitude) || !Truthy(longitude) then (Failure(ApiError(BadRequest, MissingCoordinates)), db)
    else
      var lat := ParseFloat(latitude);
      var lon := ParseFloat(longitude);
      var kmh := StoredSpeed(speed);
      if lat.None? || lon.None? then (Failure(ApiError(BadRequest, InvalidCoordinates)), db)
      else if tripId !in db.trips || db.trips[tripId].status != Active then
        (Failure(ApiError(NotFound, ActiveTripNotFound)), db)
      else
        var trip := db.trips[tripId].(currentLatitude := Some(lat.value), currentLongitude := Some(lon.value), speedKmh := Some(kmh));
        (Success(LocationAck(tripId, lat.value, lon.value, kmh)), db.(trips := db.trips[tripId := trip]))
  }

  /**
   * After a successful update with non-zero coordinates, the ETA of the trip
   * to an existing stop succeeds and uses the stored km/h speed; the stored
   * position is the one the update parsed.
   */
  lemma UpdateThenEta(
    db: Db, tripId: int, latitude: JsValue, longitude: JsValue, speed: JsValue,
    stopId: int, distance: (Point, Point) -> Km)
    requires UpdateTripLocation(db, tripId, latitude, longitude, speed).0.Success?
    requires ParseFloat(latitude).value != 0.0 && ParseFloat(longitude).value != 0.0
    requires stopId in db.stops
    ensures var (ack, db') := UpdateTripLocation(db, tripId, latitude, longitude, speed);
      var r := CalculateEta(db', tripId, stopId, distance);
      && r.Success?
      && r.value.currentSpeed == StoredSpeed(speed)
      && r.value.distanceKm == distance(Point(ack.value.latitude, ack.value.longitude), db.stops[stopId].position)
  {
  }

  /**
   * A text coordinate "0" is truthy, so it passes validation, yet the stored
   * 0 then counts as no position (with the coordinate columns read back as
   * numbers).
   */
  lemma ZeroTextCoordinate(db: Db, tripId: int, stopId: int, distance: (Point, Point) -> Km)
    requires tripId in db.trips && db.trips[tripId].status == Active
    ensures var (ack, db') := UpdateTripLocation(db, tripId, Str("0"), Num(79.86), Num(5.0));
      && ack.Success?
      && ack.value.speedKmh == 18.0
      && CalculateEta(db', tripId, stopId, distance) == Failure(ApiError(BadRequest, LocationNotAvailable))
  {
    var latitude, longitude, speed := Str("0"), Num(79.86), Num(5.0);
    assert ParseFloat(latitude) == Some(0.0) by {
      ParseFloatOfDigits("0");
      assert DigitsValue("0") == 0 by {
        assert "0"[..0] == [];
      }
    }
    assert Truthy(latitude) && Truthy(longitude);
    var (ack, db') := UpdateTripLocation(db, tripId, latitude, longitude, speed);
    assert ack == Success(LocationAck(tripId, 0.0, 79.86, 18.0));
    assert db'.trips[tripId].currentLatitude == Some(0.0);
    assert db'.trips[tripId].status == Active && !Known(db'.trips[tripId].currentLatitude);
  }
}
