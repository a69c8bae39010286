/**
 * The ETA service (src/services/etaCalculator.js): the ETA of one bus to one
 * stop, the ETA to the stop of a route nearest to a rider, the rendering of
 * minutes as text, and the list of next buses at a stop.
 */
module EtaCalculator {
  import opened Wrappers
  import opened JsMath
  import opened JsText
  import opened Geo
  import StableSort

  /** The latest known position of a bus; its speed is null when not reported. */
  datatype BusLocation = BusLocation(position: Point, speedKmh: Option<real>)

  /** A row of bus_stops. */
  datatype Stop = Stop(stopId: int, stopName: string, position: Point)

  /** The ETA object returned for one bus and one stop. */
  datatype Eta = Eta(
    busId: int,
    stopId: int,
    stopName: string,
    distanceKm: Km,
    currentSpeedKmh: real,
    etaMinutes: int,
    etaText: string)

  const MinReportedSpeedKmh: real := 5.0
  const FallbackSpeedKmh: real := 30.0

  const EtaFailurePrefix := "ETA calculation failed: "
  const RouteFailurePrefix := "Route ETA calculation failed: "
  const LocationNotFound := "Bus location not found"
  const StopNotFound := "Stop not found"
  const NoStopsOnRoute := "No stops found on route"
  const NoActiveBusesMessage := "No active buses found for this stop"

  /**
   * The speed the ETA divides by: the reported speed when it is present and
   * above 5 km/h, 30 km/h otherwise. It is always above 5 km/h.
   */
  function EffectiveSpeed(reported: Option<real>): (speed: real)
    ensures speed > MinReportedSpeedKmh
    ensures reported.Some? && reported.value > MinReportedSpeedKmh ==> speed == reported.value
    ensures !(reported.Some? && reported.value > MinReportedSpeedKmh) ==> speed == FallbackSpeedKmh
  {
    if reported.Some? && reported.value > MinReportedSpeedKmh then reported.value else FallbackSpeedKmh
  }

  /** Math.round(distance / speed * 60): the travel time in whole minutes, rounded to nearest. */
  function EtaMinutes(distance: Km, speed: real): (minutes: int)
    requires speed > 0.0
    ensures 0 <= minutes
    ensures minutes as real - 0.5 <= distance / speed * 60.0 < minutes as real + 0.5
  {
    Round(distance / speed * 60.0)
  }

  /** At a fixed speed, a longer distance never gives a smaller ETA. */
  lemma EtaMinutesMonotone(d1: Km, d2: Km, speed: real)
    requires d1 <= d2 && speed > 0.0
    ensures EtaMinutes(d1, speed) <= EtaMinutes(d2, speed)
  {
    DivideMonotone(d1, d2, speed);
    assert d1 / speed * 60.0 <= d2 / speed * 60.0;
    RoundMonotone(d1 / speed * 60.0, d2 / speed * 60.0);
  }

  /**
   * formatETA: minutes as the text shown to riders. The text is "Arriving
   * now" exactly below one minute; every other text starts with a number.
   */
  function FormatEta(minutes: int): (text: string)
    ensures minutes < 1 <==> text == "Arriving now"
    ensures 1 <= minutes ==> text != [] && IsDigit(text[0])
  {
    if minutes < 1 then "Arriving now"
    else if minutes == 1 then "1 minute"
    else if minutes < 60 then LeadingNumber(minutes, " minutes")
    else
      var hours := minutes / 60;
      var mins := minutes % 60;
      if mins == 0 then LeadingNumber(hours, " " + (if hours == 1 then "hour" else "hours"))
      else LeadingNumber(hours, "h " + NatToString(mins) + "m")
  }

  /** The numeral of n followed by rest, which starts with a digit. */
  function LeadingNumber(n: nat, rest: string): (text: string)
    ensures text == NatToString(n) + rest
    ensures IsDigit(text[0])
  {
    var t := NatToString(n) + rest;
    assert t[0] == NatToString(n)[0];
    t
  }

  /**
   * Reads a text of FormatEta back as minutes ("Arriving now" as 0). The
   * hours forms give hours * 60 plus the minutes.
   */
  function ParseEta(text: string): (minutes: Option<int>)
  {
    if text == "Arriving now" then Some(0)
    else
      var k := DigitRun(text, 0);
      if k == 0 then None else ParseUnits(DigitsValue(text[..k]), text[k..])
  }

  /** The part of ParseEta after the leading number n. */
  function ParseUnits(n: nat, rest: string): Option<int> {
    if rest == " minute" || rest == " minutes" then Some(n)
    else if rest == " hour" || rest == " hours" then Some(60 * n)
    else if 3 <= |rest| && rest[..2] == "h " && rest[|rest| - 1] == 'm'
            && rest[2..|rest| - 1] != [] && AllDigits(rest[2..|rest| - 1]) then
      Some(60 * n + DigitsValue(rest[2..|rest| - 1]))
    else None
  }

  /** A number followed by a non-digit is read as that number followed by its units. */
  lemma ParseNumeral(n: nat, rest: string)
    requires rest != [] && !IsDigit(rest[0])
    ensures ParseEta(NatToString(n) + rest) == ParseUnits(n, rest)
  {
    var text := NatToString(n) + rest;
    assert text[0] == NatToString(n)[0];
    assert text != "Arriving now" by {
      assert IsDigit(text[0]);
    }
    DigitRunOfNumeral(NatToString(n), rest);
    assert text[..|NatToString(n)|] == NatToString(n);
    assert text[|NatToString(n)|..] == rest;
    DigitsValueOfNatToString(n);
  }

  lemma ParseHoursAndMinutes(hours: nat, mins: nat)
    ensures ParseUnits(hours, "h " + NatToString(mins) + "m") == Some(60 * hours + mins)
  {
    var rest := "h " + NatToString(mins) + "m";
    assert rest[..2] == "h ";
    assert rest[2..|rest| - 1] == NatToString(mins);
    DigitsValueOfNatToString(mins);
  }

  lemma RoundTripBelowAnHour(minutes: int)
    requires 2 <= minutes < 60
    ensures ParseEta(FormatEta(minutes)) == Some(minutes)
  {
    ParseNumeral(minutes, " minutes");
  }

  lemma RoundTripWholeHours(minutes: int)
    requires 60 <= minutes && minutes % 60 == 0
    ensures ParseEta(FormatEta(minutes)) == Some(minutes)
  {
    var hours := minutes / 60;
    assert 60 * hours == minutes;
    var word := if hours == 1 then " hour" else " hours";
    assert FormatEta(minutes) == NatToString(hours) + word;
    ParseNumeral(hours, word);
    assert ParseUnits(hours, word) == Some(60 * hours);
  }

  lemma RoundTripHoursAndMinutes(minutes: int)
    requires 60 <= minutes && minutes % 60 != 0
    ensures ParseEta(FormatEta(minutes)) == Some(minutes)
  {
    var hours := minutes / 60;
    var mins := minutes % 60;
    var rest := "h " + NatToString(mins) + "m";
    assert FormatEta(minutes) == NatToString(hours) + rest;
    ParseNumeral(hours, rest);
    ParseHoursAndMinutes(hours, mins);
  }

  /** Every ETA of at least one minute is rendered as a text that reads back as that ETA. */
  lemma FormatEtaRoundTrip(minutes: int)
    requires 1 <= minutes
    ensures ParseEta(FormatEta(minutes)) == Some(minutes)
  {
    if minutes == 1 {
      assert FormatEta(minutes) == NatToString(1) + " minute";
      ParseNumeral(1, " minute");
    } else if minutes < 60 {
      RoundTripBelowAnHour(minutes);
    } else if minutes % 60 == 0 {
      RoundTripWholeHours(minutes);
    } else {
      RoundTripHoursAndMinutes(minutes);
    }
  }

  /** Distinct ETAs of at least one minute are rendered as distinct texts. */
  lemma FormatEtaInjective(m1: int, m2: int)
    requires 1 <= m1 && 1 <= m2 && FormatEta(m1) == FormatEta(m2)
    ensures m1 == m2
  {
    FormatEtaRoundTrip(m1);
    FormatEtaRoundTrip(m2);
  }

  /** Below an hour, the text is the minutes with "minute" for one and "minutes" for more. */
  lemma FormatEtaBelowAnHour(minutes: int)
    requires 1 <= minutes < 60
    ensures FormatEta(minutes) == NatToString(minutes) + (if minutes == 1 then " minute" else " minutes")
  {
    if minutes == 1 {
      assert NatToString(1) == "1";
    }
  }

  /** From one hour on, the text names the whole hours and the remaining minutes of the ETA. */
  lemma FormatEtaHours(minutes: int)
    requires 60 <= minutes
    ensures var h, m := minutes / 60, minutes % 60;
      && 1 <= h && 0 <= m < 60 && h * 60 + m == minutes
      && FormatEta(minutes) == (if m == 0 then NatToString(h) + (if h == 1 then " hour" else " hours")
                                else NatToString(h) + "h " + NatToString(m) + "m")
  {
  }

  /**
   * calculateETAToStop: the ETA of a bus to a stop from the bus's latest
   * location and the stop's row. A missing location fails first, a missing
   * stop second, and every failure carries the same prefix.
   */
  function EtaToStop(
    busId: int, stopId: int,
    locations: map<int, BusLocation>, stops: map<int, Stop>,
    distance: (Point, Point) -> Km): (r: Result<Eta, string>)
    ensures r.Success? <==> busId in locations && stopId in stops
    ensures busId !in locations ==> r == Failure(EtaFailurePrefix + LocationNotFound)
    ensures busId in locations && stopId !in stops ==> r == Failure(EtaFailurePrefix + StopNotFound)
    ensures r.Failure? ==> StartsWith(r.error, EtaFailurePrefix)
    ensures r.Success? ==>
      && busId in locations && stopId in stops
      && r.value.busId == busId && r.value.stopId == stopId
      && r.value.stopName == stops[stopId].stopName
      && r.value.distanceKm == distance(locations[busId].position, stops[stopId].position)
      && r.value.currentSpeedKmh == EffectiveSpeed(locations[busId].speedKmh)
      && r.value.etaMinutes == EtaMinutes(r.value.distanceKm, r.value.currentSpeedKmh)
      && 0 <= r.value.etaMinutes
      && r.value.etaText == FormatEta(r.value.etaMinutes)
  {
    if busId !in locations then Failure(EtaFailurePrefix + LocationNotFound)
    else if stopId !in stops then Failure(EtaFailurePrefix + StopNotFound)
    else
      var location := locations[busId];
      var stop := stops[stopId];
      var d := distance(location.position, stop.position);
      var speed := EffectiveSpeed(location.speedKmh);
      var minutes := EtaMinutes(d, speed);
      Success(Eta(busId, stopId, stop.stopName, d, speed, minutes, FormatEta(minutes)))
  }

  /** For one bus, a stop at least as far as another never gets a smaller ETA. */
  lemma EtaToStopMonotone(
    busId: int, stop1: int, stop2: int,
    locations: map<int, BusLocation>, stops: map<int, Stop>,
    distance: (Point, Point) -> Km)
    requires EtaToStop(busId, stop1, locations, stops, distance).Success?
    requires EtaToStop(busId, stop2, locations, stops, distance).Success?
    requires distance(locations[busId].position, stops[stop1].position)
          <= distance(locations[busId].position, stops[stop2].position)
    ensures EtaToStop(busId, stop1, locations, stops, distance).value.etaMinutes
         <= EtaToStop(busId, stop2, locations, stops, distance).value.etaMinutes
  {
    var speed := EffectiveSpeed(locations[busId].speedKmh);
    EtaMinutesMonotone(
      distance(locations[busId].position, stops[stop1].position),
      distance(locations[busId].position, stops[stop2].position), speed);
  }

  /**
   * Stop i of the route is the one the scan picks for the rider: no stop is
   * nearer, and every earlier stop is strictly farther (the first of equally
   * near stops wins).
   */
  ghost predicate IsNearest(stops: seq<Stop>, user: Point, distance: (Point, Point) -> Km, i: int) {
    && 0 <= i < |stops|
    && (forall j :: 0 <= j < |stops| ==> distance(user, stops[i].position) <= distance(user, stops[j].position))
    && (forall j :: 0 <= j < i ==> distance(user, stops[i].position) < distance(user, stops[j].position))
  }

  /** At most one stop is the nearest in that sense. */
  lemma NearestIsUnique(stops: seq<Stop>, user: Point, distance: (Point, Point) -> Km, i: int, j: int)
    requires IsNearest(stops, user, distance, i) && IsNearest(stops, user, distance, j)
    ensures i == j
  {
    var di, dj := distance(user, stops[i].position), distance(user, stops[j].position);
    assert di <= dj && dj <= di;
  }

  /** The stop picked by the scan, and the rider's distance to it. */
  datatype Nearest = Nearest(index: nat, distanceKm: real)

  /**
   * The forEach scan of calculateETAForRoute: keeps the first stop whose
   * distance to the rider is below the smallest seen so far (initially
   * Infinity, here None).
   */
  method NearestStop(stops: seq<Stop>, user: Point, distance: (Point, Point) -> Km)
    returns (nearest: Option<Nearest>)
    ensures nearest.None? <==> stops == []
    ensures nearest.Some? ==>
      && IsNearest(stops, user, distance, nearest.value.index)
      && nearest.value.distanceKm == distance(user, stops[nearest.value.index].position)
  {
    nearest := None;
    var i := 0;
    while i < |stops|
      invariant 0 <= i <= |stops|
      invariant nearest.None? <==> i == 0
      invariant nearest.Some? ==>
        && nearest.value.index < i
        && nearest.value.distanceKm == distance(user, stops[nearest.value.index].position)
        && (forall j :: 0 <= j < i ==> nearest.value.distanceKm <= distance(user, stops[j].position))
        && (forall j :: 0 <= j < nearest.value.index ==> nearest.value.distanceKm < distance(user, stops[j].position))
    {
      var d := distance(user, stops[i].position);
      if nearest.None? || d < nearest.value.distanceKm {
        nearest := Some(Nearest(i, d));
      }
      i := i + 1;
    }
  }

  /** The object calculateETAForRoute returns: the ETA plus the nearest stop's name and distance. */
  datatype RouteEta = RouteEta(eta: Eta, nearestStop: string, distanceToStopKm: real)

  /**
   * calculateETAForRoute: the bus's location is read first, the route's
   * ordered stops are scanned for the stop nearest the rider, and the ETA to
   * that stop is computed. Every failure is wrapped in one more prefix.
   */
  method EtaForRoute(
    busId: int, user: Point, routeStops: seq<Stop>,
    locations: map<int, BusLocation>, stops: map<int, Stop>,
    distance: (Point, Point) -> Km)
    returns (r: Result<RouteEta, string>)
    ensures busId !in locations ==> r == Failure(RouteFailurePrefix + LocationNotFound)
    ensures busId in locations && routeStops == [] ==> r == Failure(RouteFailurePrefix + NoStopsOnRoute)
    ensures r.Failure? ==> StartsWith(r.error, RouteFailurePrefix)
    ensures busId in locations && routeStops != [] ==> exists i ::
      && IsNearest(routeStops, user, distance, i)
      && r == RouteResult(EtaToStop(busId, routeStops[i].stopId, locations, stops, distance), routeStops[i], user, distance)
    ensures r.Success? ==> exists i ::
      && IsNearest(routeStops, user, distance, i)
      && EtaToStop(busId, routeStops[i].stopId, locations, stops, distance) == Success(r.value.eta)
      && r.value.nearestStop == routeStops[i].stopName
      && r.value.distanceToStopKm == distance(user, routeStops[i].position)
  {
    if busId !in locations {
      return Failure(RouteFailurePrefix + LocationNotFound);
    }
    var nearest := NearestStop(routeStops, user, distance);
    if nearest.None? {
      return Failure(RouteFailurePrefix + NoStopsOnRoute);
    }
    var i := nearest.value.index;
    var stop := routeStops[i];
    var eta := EtaToStop(busId, stop.stopId, locations, stops, distance);
    match eta {
      case Failure(message) =>
        r := Failure(RouteFailurePrefix + message);
      case Success(e) =>
        r := Success(RouteEta(e, stop.stopName, nearest.value.distanceKm));
    }
    assert r == RouteResult(eta, stop, user, distance);
  }

  /**
   * What calculateETAForRoute answers once the nearest stop is known: a
   * failed ETA with one more prefix, or the ETA with that stop's name and
   * the rider's distance to it.
   */
  function RouteResult(eta: Result<Eta, string>, stop: Stop, user: Point, distance: (Point, Point) -> Km)
    : (r: Result<RouteEta, string>)
    ensures r.Success? <==> eta.Success?
    ensures eta.Failure? ==> r.error == RouteFailurePrefix + eta.error
    ensures eta.Success? ==> r.value.eta == eta.value && r.value.nearestStop == stop.stopName
    ensures eta.Success? ==> r.value.distanceToStopKm == distance(user, stop.position)
  {
    match eta
    case Failure(message) => Failure(RouteFailurePrefix + message)
    case Success(e) => Success(RouteEta(e, stop.stopName, distance(user, stop.position)))
  }

  /** What getNextBusForStop returns: a message object, or the list of ETAs. */
  datatype NextBus = NoActiveBuses(message: string) | Arrivals(etas: seq<Eta>)

  function EtaMinutesOf(e: Eta): int {
    e.etaMinutes
  }

  /** One ETA outcome per bus, in the order of the buses (a failure is caught into its message). */
  function Outcomes(
    busIds: seq<int>, stopId: int,
    locations: map<int, BusLocation>, stops: map<int, Stop>,
    distance: (Point, Point) -> Km): (r: seq<Result<Eta, string>>)
    ensures |r| == |busIds|
    ensures forall i :: 0 <= i < |busIds| ==> r[i] == EtaToStop(busIds[i], stopId, locations, stops, distance)
  {
    if busIds == [] then []
    else [EtaToStop(busIds[0], stopId, locations, stops, distance)] + Outcomes(busIds[1..], stopId, locations, stops, distance)
  }

  /** The successful ETAs of a list of outcomes, in order (the filter on `!eta.error`). */
  function Successes(outcomes: seq<Result<Eta, string>>): (r: seq<Eta>)
    ensures forall e :: e in r <==> Success(e) in outcomes
    ensures forall e :: multiset(r)[e] == multiset(outcomes)[Success(e)]
    ensures |r| <= |outcomes|
  {
    if outcomes == [] then []
    else
      assert outcomes == [outcomes[0]] + outcomes[1..];
      assert forall o :: o in outcomes <==> o == outcomes[0] || o in outcomes[1..];
      match outcomes[0]
      case Success(e) => [e] + Successes(outcomes[1..])
      case Failure(_) => Successes(outcomes[1..])
  }

  /**
   * The filter keeps the order of the outcomes: the successes of two lists
   * in a row are the successes of the first followed by those of the second.
   */
  lemma {:induction false} SuccessesAppend(a: seq<Result<Eta, string>>, b: seq<Result<Eta, string>>)
    ensures Successes(a + b) == Successes(a) + Successes(b)
    decreases |a|
  {
    if a == [] {
      assert a + b == b;
    } else {
      assert (a + b)[0] == a[0];
      assert (a + b)[1..] == a[1..] + b;
      SuccessesAppend(a[1..], b);
    }
  }

  /** A single outcome contributes its ETA when it succeeded and nothing when it failed. */
  lemma SuccessesSingle(o: Result<Eta, string>)
    ensures Successes([o]) == if o.Success? then [o.value] else []
  {
    assert [o][1..] == [];
  }

  /**
   * getNextBusForStop over the buses the query found: no bus gives the
   * message object; otherwise the successful ETAs sorted by eta_minutes.
   */
  function NextBusForStop(
    stopId: int, busIds: seq<int>,
    locations: map<int, BusLocation>, stops: map<int, Stop>,
    distance: (Point, Point) -> Km): (r: NextBus)
    ensures r.NoActiveBuses? <==> busIds == []
    ensures r.NoActiveBuses? ==> r.message == NoActiveBusesMessage
    ensures r.Arrivals? ==> |r.etas| <= |busIds|
  {
    if busIds == [] then NoActiveBuses(NoActiveBusesMessage)
    else
      var valid := Successes(Outcomes(busIds, stopId, locations, stops, distance));
      StableSort.SortFacts(valid, EtaMinutesOf);
      assert |StableSort.Sort(valid, EtaMinutesOf)| == |multiset(valid)|;
      Arrivals(StableSort.Sort(valid, EtaMinutesOf))
  }

  /**
   * The next-bus list, when there is one: exactly the successful ETAs
   * (each one the ETA of a listed bus), none of the failed ones, in
   * ascending eta_minutes, equal ETAs in bus order.
   */
  lemma NextBusFacts(
    stopId: int, busIds: seq<int>,
    locations: map<int, BusLocation>, stops: map<int, Stop>,
    distance: (Point, Point) -> Km)
    ensures var r := NextBusForStop(stopId, busIds, locations, stops, distance);
      r.Arrivals? ==>
        var valid := Successes(Outcomes(busIds, stopId, locations, stops, distance));
        && StableSort.SortedBy(r.etas, EtaMinutesOf)
        && multiset(r.etas) == multiset(valid)
        && (forall k :: StableSort.WithKey(r.etas, EtaMinutesOf, k) == StableSort.WithKey(valid, EtaMinutesOf, k))
        && (forall e :: e in r.etas <==>
              exists i :: 0 <= i < |busIds| && EtaToStop(busIds[i], stopId, locations, stops, distance) == Success(e))
  {
    if busIds != [] {
      var valid := Successes(Outcomes(busIds, stopId, locations, stops, distance));
      var sorted := StableSort.Sort(valid, EtaMinutesOf);
      StableSort.SortFacts(valid, EtaMinutesOf);
      SuccessfulBuses(stopId, busIds, locations, stops, distance);
      forall e
        ensures e in sorted <==> e in valid
      {
        assert e in sorted <==> e in multiset(sorted);
        assert e in valid <==> e in multiset(valid);
      }
    }
  }

  /** An ETA is among the successes exactly when it is the ETA of one of the buses. */
  lemma SuccessfulBuses(
    stopId: int, busIds: seq<int>,
    locations: map<int, BusLocation>, stops: map<int, Stop>,
    distance: (Point, Point) -> Km)
    ensures forall e :: e in Successes(Outcomes(busIds, stopId, locations, stops, distance)) <==>
      exists i :: 0 <= i < |busIds| && EtaToStop(busIds[i], stopId, locations, stops, distance) == Success(e)
  {
    var outcomes := Outcomes(busIds, stopId, locations, stops, distance);
    forall e | Success(e) in outcomes
      ensures exists i :: 0 <= i < |busIds| && EtaToStop(busIds[i], stopId, locations, stops, distance) == Success(e)
    {
      var i :| 0 <= i < |outcomes| && outcomes[i] == Success(e);
      assert EtaToStop(busIds[i], stopId, locations, stops, distance) == Success(e);
    }
  }
}
