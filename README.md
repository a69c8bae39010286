# Bus tracking and booking back end — a Dafny model of its core

The system is a Node.js back end for a bus tracking and seat booking service.
Buses on a route report their positions. Riders ask for the ETA of a bus to a
stop and book seats on an active trip. Drivers collect payments. This project
models the decision logic and the arithmetic of that core, and proves what
they promise:

- **The ETA service** (`src/services/etaCalculator.js`):
  - the speed and rounding rule of the ETA of one bus to one stop;
  - the scan of a route's stops for the stop nearest the rider;
  - the rendering of minutes as text;
  - the sorted list of next buses at a stop;
  - the messages of its errors.
- **The trip handlers** (`src/controllers/tripController.js`):
  - the ETA of an active trip to a stop;
  - the seat counts of one trip and of the list of active trips;
  - the validation and unit conversion of a GPS location update.
- **The booking handlers** (`src/controllers/bookingController.js`):
  - booking creation: validation, stop order and fare;
  - the reference-or-id reading of a booking key;
  - lookup, cancellation with its seat release;
  - the status and payment updates.
- **The bus simulator** (`src/simulator/busSimulator.js`):
  - the movement of a simulated bus along eight waypoints;
  - the Map from bus id to interval timer that starting and stopping the
    simulation maintains.

Modules:

- `Wrappers`, `JsMath`, `JsText`, `JsCoerce` give the JavaScript and
  PostgreSQL behaviour the handlers rely on:
  - `Math.round`, `Math.ceil`, the truncating `%`;
  - `${n}` of a whole number;
  - truthiness, `parseFloat` and `isNaN` on text;
  - the text-to-`integer` cast.
- `Geo` and `Http` hold coordinates, distances and the error half of a JSON
  response.
- `Tables` holds the database rows the handlers read and write. It also
  holds the booked-seat sum that both controllers compute.
- `StableSort` is `Array.prototype.sort` with a numeric comparator, which
  is stable, and SQL `ORDER BY`. It is proved to sort, to keep the
  elements, and to keep the order among equal keys.
- `EtaCalculator`, `TripController` and `BookingController` are written as
  functions. Each handler becomes a function from the database (and the
  request) to a result and a new database.
- `SeatAccounting` relates the booking handlers to the seat counts of the
  trip handlers.
- `BusSimulator` keeps the source's classes. `BusMovement` holds the state
  of one interval callback. `Simulator` holds `isRunning` and the interval
  Map.

Inputs the model cannot compute are parameters:

- the haversine distance;
- `Math.atan2`;
- the random start of a simulated bus;
- the success of the query that lists the active buses;
- the id and the reference the bookings table gives a new row.

## Model

| member | source | states |
|---|---|---|
| `JsCoerce.ParseFloatOfDigits` | src/controllers/tripController.js:272-273 | parseFloat reads a string of decimal digits as its decimal value |
| `JsCoerce.NumeralIsNumeric` | src/controllers/bookingController.js:189 | a non-empty string of digits is numeric text, so `isNaN` of it is false |
| `JsCoerce.PgCastOfDigits` | src/controllers/bookingController.js:215 | PostgreSQL casts a string of digits below 2^31 to its value |
| `JsCoerce.PgIntegerCast` | src/controllers/bookingController.js:215 | the text-to-integer cast yields a value only within the 32-bit signed range |
| `StableSort.SortFacts` | src/services/etaCalculator.js:183 | the sort orders by key, is a permutation of its input, and keeps equal keys in input order |
| `EtaCalculator.EffectiveSpeed` | src/services/etaCalculator.js:72 | the reported speed when it is present and above 5 km/h, otherwise 30 km/h; always above 5 |
| `EtaCalculator.EtaMinutes` | src/services/etaCalculator.js:74 | the rounded ETA is non-negative and within half a minute of distance / speed × 60 |
| `EtaCalculator.EtaMinutesMonotone` | src/services/etaCalculator.js:72-74 | at one speed a longer distance never gives a smaller ETA |
| `EtaCalculator.FormatEta` | src/services/etaCalculator.js:137-147 | the text is "Arriving now" exactly when the ETA is below one minute; every other text starts with a digit |
| `EtaCalculator.RoundTripBelowAnHour` | src/services/etaCalculator.js:140 | "n minutes" reads back as n for 2 ≤ n < 60 |
| `EtaCalculator.RoundTripWholeHours` | src/services/etaCalculator.js:142-145 | "h hour(s)" reads back as 60·h |
| `EtaCalculator.RoundTripHoursAndMinutes` | src/services/etaCalculator.js:142-146 | "Xh Ym" reads back as 60·X + Y |
| `EtaCalculator.FormatEtaRoundTrip` | src/services/etaCalculator.js:137-147 | every ETA of at least one minute is rendered as a text that reads back as that ETA |
| `EtaCalculator.FormatEtaInjective` | src/services/etaCalculator.js:139-146 | distinct ETAs of at least one minute get distinct texts |
| `EtaCalculator.FormatEtaBelowAnHour` | src/services/etaCalculator.js:138-139 | from one minute to below an hour, the text is the minutes followed by "minute" for one and "minutes" for more |
| `EtaCalculator.FormatEtaHours` | src/services/etaCalculator.js:142-146 | from an hour on, the text names the whole hours and the remaining minutes, which add up to the ETA |
| `EtaCalculator.EtaToStop` | src/services/etaCalculator.js:52-88 | succeeds exactly when the bus has a location and the stop exists; a missing location fails before a missing stop; every failure has the "ETA calculation failed: " prefix; a success has the stop's name, the distance, the effective speed, the rounded minutes and their text |
| `EtaCalculator.EtaToStopMonotone` | src/services/etaCalculator.js:65-74 | for one bus a farther stop never gets a smaller ETA |
| `EtaCalculator.NearestIsUnique` | src/services/etaCalculator.js:104-119 | at most one stop is the nearest (no stop nearer, every earlier stop strictly farther) |
| `EtaCalculator.NearestStop` | src/services/etaCalculator.js:104-119 | the scan finds nothing exactly on an empty route; otherwise it finds the nearest stop (the first of equally near ones) and its distance |
| `EtaCalculator.EtaForRoute` | src/services/etaCalculator.js:90-135 | a missing location, then an empty route ("No stops found on route"), fail; otherwise the answer is decided by the ETA to a nearest stop: its failure with one more prefix, or its ETA with that stop's name and distance; every failure has the "Route ETA calculation failed: " prefix |
| `EtaCalculator.RouteResult` | src/services/etaCalculator.js:125-134 | succeeds exactly when the stop ETA does; a failure adds the route prefix to its message; a success carries the stop ETA, the stop's name and the rider's distance to it |
| `EtaCalculator.Outcomes` | src/services/etaCalculator.js:174-179 | one ETA outcome per bus, in bus order |
| `EtaCalculator.Successes` | src/services/etaCalculator.js:181-182 | exactly the successful ETAs, each as often as it succeeded, none of the failures |
| `EtaCalculator.SuccessesAppend` | src/services/etaCalculator.js:181-182 | the filter keeps order: the successes of two lists in a row are those of the first followed by those of the second |
| `EtaCalculator.SuccessesSingle` | src/services/etaCalculator.js:181-182 | one outcome contributes its ETA when it succeeded and nothing when it failed |
| `EtaCalculator.NextBusForStop` | src/services/etaCalculator.js:149-185 | the message object exactly when no bus is active at the stop; otherwise at most one ETA per bus |
| `EtaCalculator.NextBusFacts` | src/services/etaCalculator.js:170-185 | a list of next buses is exactly the successful ETAs of the listed buses, a permutation of them, in ascending minutes, equal minutes in bus order |
| `EtaCalculator.SuccessfulBuses` | src/services/etaCalculator.js:174-182 | an ETA is among the successes exactly when it is the ETA of one of the buses |
| `TripController.CurrentSpeed` | src/controllers/tripController.js:541 | a missing speed counts as 0 |
| `TripController.AverageSpeed` | src/controllers/tripController.js:558-565 | 70% of the current speed above 10 km/h, else 25 km/h; always above 7 km/h |
| `TripController.TripEtaMinutes` | src/controllers/tripController.js:544-568 | 0 exactly within 100 m; beyond, at least 1 and the ceiling of distance / average speed × 60 |
| `TripController.EtaText` | src/controllers/tripController.js:577 | "Arriving now" exactly below one minute, "1 min" for one, "n mins" above |
| `TripController.EtaTextInjective` | src/controllers/tripController.js:577 | distinct ETAs of at least one minute get distinct texts |
| `TripController.TripEtaMonotone` | src/controllers/tripController.js:558-568 | at one current speed a farther stop never gets a smaller ETA |
| `TripController.TripEtaExample` | src/controllers/tripController.js:541-577 | 1.36 km away and standing still is 4 minutes, "4 mins" |
| `TripController.CalculateEta` | src/controllers/tripController.js:487-587 | succeeds exactly when the trip is active, its position known and the stop exists; otherwise 404 for a trip that is not active, then 400 for an unknown position, then 404 for a missing stop; a success uses the stored position, speed and stop |
| `TripController.CalculateEtaArrival` | src/controllers/tripController.js:544-577 | within 100 m the ETA is 0 and "Arriving now"; beyond, at least 1 minute and never "Arriving now" |
| `TripController.Capacity` | src/controllers/tripController.js:620 | a missing or zero capacity counts as 45 seats |
| `TripController.Seats` | src/controllers/tripController.js:620-630 | available plus booked is the capacity, with no clamp; full exactly when the booked seats reach the capacity |
| `TripController.GetAvailableSeats` | src/controllers/tripController.js:593-640 | 404 exactly when the trip or its bus row is missing; otherwise the seat summary of the bus's capacity and the trip's CONFIRMED bookings |
| `TripController.TripSeatsOf` | src/controllers/tripController.js:214-233 | the seat fields of a listed trip: capacity through the left join, available = capacity − booked, occupied = booked |
| `TripController.ListedTrips` | src/controllers/tripController.js:201-210 | exactly the active trips, on the requested route when one is given |
| `TripController.ListedTripsAppend` | src/controllers/tripController.js:201-210 | the listing keeps the given order: two runs of ids in a row list the trips of the first run, then those of the second |
| `TripController.ListedTripsSingle` | src/controllers/tripController.js:201-210 | one id is listed exactly when its trip exists and passes the WHERE clause |
| `TripController.ListedTripsCount` | src/controllers/tripController.js:201-210 | a listed trip appears as often as its id in the order, an unlisted one not at all |
| `TripController.ActiveTrips` | src/controllers/tripController.js:162-249 | one row per listed trip, in order, each with its seat fields |
| `TripController.StoredSpeed` | src/controllers/tripController.js:274 | the parsed speed × 3.6, or 0 when it does not parse |
| `TripController.UpdateTripLocation` | src/controllers/tripController.js:259-341 | succeeds exactly when both coordinates are truthy and parse and the trip is active; a missing coordinate, then an unparsable one, then a trip that is not active are rejected and leave the store unchanged; a success stores exactly the parsed position and converted speed on that trip |
| `TripController.UpdateThenEta` | src/controllers/tripController.js:285-294 | after a successful update with non-zero coordinates, the ETA of the trip to an existing stop succeeds and uses the stored position and speed |
| `TripController.ZeroTextCoordinate` | src/controllers/tripController.js:264-274 | the text "0" passes the update's validation, yet the stored 0 then makes the ETA report no position |
| `BookingController.IdOr` | src/controllers/bookingController.js:136-137 | the trip's id when it is truthy, the request's otherwise |
| `BookingController.PassengerCount` | src/controllers/bookingController.js:104 | the requested count when it is truthy, otherwise 1 |
| `BookingController.Matching` | src/controllers/bookingController.js:69-75 | exactly the trip's stop rows that are the pickup or the dropoff stop, each as often as the table holds it |
| `BookingController.MatchedStops` | src/controllers/bookingController.js:69-75 | those rows ordered by sequence, a permutation of them |
| `BookingController.StopSequencesAsWritten` | src/controllers/bookingController.js:77-92 | fewer than two rows is "Invalid pickup or dropoff stop"; a success takes the first two rows' sequences, the first smaller |
| `BookingController.AsWrittenRejectsOnlyTies` | src/controllers/bookingController.js:84-92 | on ordered rows the check as written rejects only two rows with equal sequence |
| `BookingController.AsWrittenAcceptsReversedStops` | src/controllers/bookingController.js:84-92 | the check as written accepts a booking from stop 20 back to stop 10 |
| `BookingController.FirstRow` | src/controllers/bookingController.js:84-85 | the index of the first row for a stop, or None exactly when there is none |
| `BookingController.StopSequences` | src/controllers/bookingController.js:77-92 | the corrected check: a success reads the pickup's sequence from a pickup row and the dropoff's from a dropoff row, the pickup's smaller |
| `BookingController.StopSequencesAreFirstVisits` | src/controllers/bookingController.js:69-85 | on ordered rows the corrected check reads the smallest sequence of each stop |
| `BookingController.CorrectedRejectsReversedStops` | src/controllers/bookingController.js:84-92 | the corrected check rejects the reversed booking with "Pickup stop must be before dropoff stop" |
| `BookingController.CorrectedAgreesOnForwardBookings` | src/controllers/bookingController.js:84-92 | on a booking in travel order the two checks agree |
| `BookingController.Hops` | src/controllers/bookingController.js:102 | the hops of the trip, at least 1 |
| `BookingController.TotalFare` | src/controllers/bookingController.js:95-104 | NaN (None) exactly when the route or one of its fare columns is missing; otherwise the fare per passenger over the estimated distance, times the passengers |
| `BookingController.TotalFareAdditive` | src/controllers/bookingController.js:103-104 | the total is linear in the passengers: a group pays what its parts pay apart |
| `BookingController.TotalFareMonotone` | src/controllers/bookingController.js:103-104 | with a non-negative fare per passenger, more passengers never pay less |
| `BookingController.FareExample` | src/controllers/bookingController.js:100-104 | 20 km over 5 stops, 2 hops, base 50, 10 per km, 2 passengers is 300 |
| `BookingController.EstimatedDistanceAdditive` | src/controllers/bookingController.js:102 | the distance estimate is additive over consecutive legs |
| `BookingController.FareMonotone` | src/controllers/bookingController.js:102-103 | with non-negative prices, more hops never cost less |
| `BookingController.EstimateWithinRoute` | src/controllers/bookingController.js:102 | a ride between the trip's stops is estimated at no more than the whole route |
| `BookingController.NewBooking` | src/controllers/bookingController.js:116-145 | the inserted row: route and bus from the trip else the request, passengers defaulted, the fare, CONFIRMED and PENDING |
| `BookingController.CreateBooking` | src/controllers/bookingController.js:16-178 | succeeds exactly when the fields are given, the trip exists and is active and the stop check as written passes; otherwise missing fields (400), unknown trip (404), inactive trip (400), bad stops (400) in that order, each leaving the store unchanged; a success appends exactly the new row and answers with the trip's route and bus numbers |
| `BookingController.Rejection` | src/controllers/bookingController.js:33-65 | the error of the first check a request fails: missing fields, then unknown trip, then inactive trip |
| `BookingController.Insert` | src/controllers/bookingController.js:77-178 | the stop check's error leaves the store unchanged; a passed check appends exactly the new row and answers with the route and bus numbers of the trip |
| `BookingController.CreateBookingCorrected` | src/controllers/bookingController.js:16-178 | createBooking with the corrected stop check: the same first checks; an accepted booking rides from the pickup to a later dropoff of the trip and is charged for a positive number of hops |
| `BookingController.StopCheckOrdersStops` | src/controllers/bookingController.js:69-92 | the corrected check accepts only when the trip visits the pickup at a smaller sequence than the dropoff |
| `BookingController.CreateBookingsAgree` | src/controllers/bookingController.js:84-92 | where the two stop checks agree, the two handlers answer and store alike |
| `BookingController.ReversedBookingCreated` | src/controllers/bookingController.js:84-104 | on trip 1 with stop 10 then stop 20, a booking from 20 back to 10 is stored with a fare for one hop, though the trip never visits 20 before 10; the corrected handler rejects it |
| `BookingController.IsReference` | src/controllers/bookingController.js:189 | a key starting with "BK" is a reference; a non-empty string of decimal digits is an id |
| `BookingController.PrefixedIsReference` | src/controllers/bookingController.js:189 | an id starting with "BK" is a reference |
| `BookingController.NumeralIsNotReference` | src/controllers/bookingController.js:189 | a decimal numeral is an id, not a reference |
| `BookingController.DigitsAreNumericText` | src/controllers/bookingController.js:373 | a non-empty string of digits is numeric text and does not start with "BK" |
| `BookingController.ResolveKey` | src/controllers/bookingController.js:373-379 | a reference is looked up by reference; an id by its integer cast, whose failure is a 500 error exactly when the cast fails |
| `BookingController.ResolveKeyOfNumeral` | src/controllers/bookingController.js:455 | the decimal text of an id below 2^31 resolves to that id |
| `BookingController.FindBooking` | src/controllers/bookingController.js:379-388 | the first row the key selects, None exactly when no row matches |
| `BookingController.UpdateMatching` | src/controllers/bookingController.js:398-412 | an UPDATE by key changes every selected row and keeps the others |
| `BookingController.UpdateMatchingUnique` | src/controllers/bookingController.js:398-412 | under unique keys the update changes exactly the row found |
| `BookingController.Release` | src/controllers/bookingController.js:417-424 | the seated count drops by n but not below 0; the free count rises by n |
| `BookingController.ReleaseSeats` | src/controllers/bookingController.js:417-424 | only the booking's bus row of bus_availability changes |
| `BookingController.CancelByKey` | src/controllers/bookingController.js:379-436 | succeeds exactly when a row matches and is not cancelled; 404 when no row matches, 400 when already cancelled, both leaving the store unchanged; a success marks the rows cancelled and releases `number_of_passengers \|\| 1` seats when the availability write succeeds |
| `BookingController.CancelBooking` | src/controllers/bookingController.js:368-444 | a failed cast is that 500 error; otherwise exactly the cancellation by key |
| `BookingController.CancelIgnoresAvailabilityFailure` | src/controllers/bookingController.js:415-428 | a failed availability write changes neither the answer nor the bookings |
| `BookingController.FindBookingAt` | src/controllers/bookingController.js:379-388 | a matching row with no match before it is the row found |
| `BookingController.FindAfterUpdate` | src/controllers/bookingController.js:398-412 | an update that keeps the key leaves the first selected row in place |
| `BookingController.CancelTwiceRejected` | src/controllers/bookingController.js:390-395 | a second cancellation is "Booking already cancelled" and changes nothing |
| `BookingController.ReleaseUncapped` | src/controllers/bookingController.js:419-420 | the free seats can exceed the bus's capacity: 40 free plus 2 is 42 |
| `BookingController.ApplyStatus` | src/controllers/bookingController.js:457-478 | a truthy status sets status and, upper-cased, booking_status; a truthy payment status sets payment_status; nothing else changes |
| `BookingController.StatusUpdateCancels` | src/controllers/bookingController.js:473-478 | a status "cancelled" sent through the status update makes the booking count as cancelled |
| `BookingController.UpdateStatusByKey` | src/controllers/bookingController.js:457-491 | 404 exactly when no row matches, store unchanged; otherwise every selected row gets the status change |
| `BookingController.UpdateBookingStatus` | src/controllers/bookingController.js:450-499 | a failed cast is that 500 error; otherwise exactly the update by key |
| `BookingController.ApplyPayment` | src/controllers/bookingController.js:631-649 | the given payment status or "PAID"; an absent collected flag means true, a null one keeps the column; nothing else changes |
| `BookingController.PaymentDefaults` | src/controllers/bookingController.js:646-647 | a request with neither field marks the booking PAID and collected |
| `BookingController.UpdatePaymentByKey` | src/controllers/bookingController.js:631-663 | 404 exactly when no row matches, store unchanged; otherwise every selected row gets the payment change |
| `BookingController.UpdatePaymentStatus` | src/controllers/bookingController.js:624-672 | a failed cast is that 500 error; otherwise exactly the update by key |
| `BookingController.GetBookingById` | src/controllers/bookingController.js:184-235 | a failed cast is that 500 error; otherwise 404 exactly when no selected row has its bus and route rows, and a success is such a row |
| `BookingController.FirstJoined` | src/controllers/bookingController.js:197-222 | a row that the key selects and that joins bus and route, none exactly when no row joins |
| `Tables.BookedSeats` | src/controllers/tripController.js:598-606 | the sum is 0 when no booking is a CONFIRMED one of the trip, and never negative when no booking has a negative count |
| `Tables.BookedSeatsAppend` | src/controllers/tripController.js:218-220 | an appended booking adds exactly its own seats to the booked-seat sum |
| `Tables.BookedSeatsUpdate` | src/controllers/tripController.js:601-604 | replacing a booking changes the sum by the difference of the two bookings' seats |
| `Tables.StopsOfTrip` | src/controllers/bookingController.js:95-100 | exactly the trip's stop rows, each as often as the table holds it, so their number is the trip's COUNT(*) |
| `SeatAccounting.CreateAddsSeats` | src/controllers/bookingController.js:116-145 | a booking adds its passengers to its trip's booked seats and leaves other trips alone |
| `SeatAccounting.CreateTakesSeats` | src/controllers/tripController.js:620-622 | after a booking the trip reports that many fewer available seats |
| `SeatAccounting.CreateIgnoresBookings` | src/controllers/bookingController.js:33-92 | the create decision does not depend on the bookings table |
| `SeatAccounting.OverbookingAccepted` | src/controllers/bookingController.js:40-104 | a trip that reports itself full still accepts a booking |
| `SeatAccounting.CancelRemovesSeats` | src/controllers/bookingController.js:398-412 | under unique keys a cancellation takes exactly the booking's seats off the booked seats |
| `SeatAccounting.AppendFreshBooking` | src/controllers/bookingController.js:116-132 | a row with a new id and reference keeps the keys unique and is the row its id selects |
| `SeatAccounting.CancelAppended` | src/controllers/bookingController.js:368-436 | cancelling such a row by its id takes its seats off again |
| `SeatAccounting.CreateThenCancel` | src/controllers/bookingController.js:16-444 | booking and then cancelling the new booking by id gives every trip back its booked seats |
| `BusSimulator.Interpolate` | src/simulator/busSimulator.js:25-30 | progress 0 is the start waypoint, progress 1 the end |
| `BusSimulator.InterpolateBetween` | src/simulator/busSimulator.js:25-30 | for progress in [0, 1] the position stays inside the box of the segment's two waypoints |
| `BusSimulator.NormalizeHeading` | src/simulator/busSimulator.js:36-37 | an atan2 angle in [−180, 180] becomes the same direction in [0, 360) |
| `BusSimulator.CalculateHeading` | src/simulator/busSimulator.js:33-38 | a bearing in [−180, 180] becomes a compass heading in [0, 360): unchanged from 0 on, plus 360 below |
| `BusSimulator.Advance` | src/simulator/busSimulator.js:50-56 | progress grows by 2%; at the segment's end the next segment starts, the first after the last; the state stays valid |
| `BusSimulator.AdvanceN` | src/simulator/busSimulator.js:47-56 | any number of ticks keeps the state valid |
| `BusSimulator.LastSegmentWraps` | src/simulator/busSimulator.js:54 | from the last segment the bus moves to the first |
| `BusSimulator.TicksWithinSegment` | src/simulator/busSimulator.js:50 | within a segment k ticks add 2% each |
| `BusSimulator.FiftyTicksPerSegment` | src/simulator/busSimulator.js:50-56 | from the start of a segment the bus reaches the start of the next after exactly 50 ticks |
| `BusSimulator.AdvanceNSplit` | src/simulator/busSimulator.js:47-56 | n + m ticks are n ticks followed by m ticks |
| `BusSimulator.BusMovement.constructor` | src/simulator/busSimulator.js:42-45 | the random start is a valid segment and progress and a speed in [30, 50) |
| `BusSimulator.BusMovement.Tick` | src/simulator/busSimulator.js:47-92 | the state advances one tick; the report has the bus, its speed, the interpolated position and the rounded heading in [0, 360] |
| `BusSimulator.Lookup` | src/simulator/busSimulator.js:100 | Map.get: None exactly when the bus id has no entry, otherwise an entry of that id |
| `BusSimulator.MapSet` | src/simulator/busSimulator.js:100 | Map.set adds at most one entry and never removes one |
| `BusSimulator.MapSetLookup` | src/simulator/busSimulator.js:100 | after Map.set the bus id maps to the new handle and the others to their old ones |
| `BusSimulator.MapSetSize` | src/simulator/busSimulator.js:100 | Map.set of a new id appends its entry; of a present id keeps the size |
| `BusSimulator.MapSetEntries` | src/simulator/busSimulator.js:100 | the entries after Map.set are the new one or older ones |
| `BusSimulator.MapSetDistinct` | src/simulator/busSimulator.js:100 | Map.set keeps the bus ids distinct |
| `BusSimulator.RegisteredDistinct` | src/simulator/busSimulator.js:118-120 | registering buses in turn keeps the Map's keys distinct |
| `BusSimulator.RegisteredHandles` | src/simulator/busSimulator.js:118-120 | every registered handle is one of those issued |
| `BusSimulator.RegisteredKeys` | src/simulator/busSimulator.js:118-120 | a bus id is in the Map exactly when it is one of the buses |
| `BusSimulator.RegisteredLast` | src/simulator/busSimulator.js:118-120 | a repeated bus keeps the handle of its last interval |
| `BusSimulator.RegisteredInOrder` | src/simulator/busSimulator.js:118-120 | on distinct buses the Map holds one entry per bus, in order, with consecutive handles |
| `BusSimulator.Simulator.constructor` | src/simulator/busSimulator.js:4-8 | stopped, with an empty Map |
| `BusSimulator.Simulator.GetStatus` | src/simulator/busSimulator.js:144-149 | whether it runs, and the size of the Map |
| `BusSimulator.Simulator.SimulateBusMovement` | src/simulator/busSimulator.js:41-101 | a new live interval, registered under the bus id with Map.set |
| `BusSimulator.Simulator.StartSimulation` | src/simulator/busSimulator.js:104-127 | a no-op while running or when the query fails; otherwise one new interval per bus registered in row order, then running |
| `BusSimulator.Simulator.StopSimulation` | src/simulator/busSimulator.js:130-141 | every interval of the Map is cleared and nothing else; the Map is emptied and the simulator stopped |
| `BusSimulator.StartThenStop` | src/simulator/busSimulator.js:104-149 | on distinct buses the running status counts every bus; after stopping the count is 0 and exactly the started intervals are cleared |

## Left out

- The haversine distance (`calculateDistance`) and `Math.atan2` are not modelled: they are floating-point trigonometry. They are parameters. A distance is a non-negative real, and a bearing lies in [−180, 180].
- Numbers are exact reals, not IEEE doubles. In particular, 50 steps of 0.02 add up to exactly 1, so `FiftyTicksPerSegment` holds exactly. In doubles the sum drifts.
- `toFixed` is not modelled: its rounding of `distance_km`, `current_speed` and `current_speed_kmh` in the responses, and its text fare. The model returns the unrounded values.
- `parseFloat` of text starting with "Infinity" is not modelled. It reads as NaN (None). `isNaN` does handle "Infinity".
- The SQL text, the connection pool, Redis, Socket.IO rooms and emits, the `travel_date`, `NOW()` and `last_location_update` timestamps, and console logging are not modelled: they are I/O. The model keeps each query's effect on the rows it reads or writes.
- `getCurrentBusLocation` (`src/services/etaCalculator.js:22-50`) is a query. Its result is the `locations` map: a bus without a location row fails with "Bus location not found".
- The query failure "Failed to get next bus" (`src/services/etaCalculator.js:186-188`) is not modelled. The model takes the buses the query would find as an input.
- The order of `getActiveTrips` (`ORDER BY start_time DESC`) is an input order. Trip start times are not modelled.
- The concurrency of `Promise.all`, the 5-second `setInterval` timing, and the asynchronous start of `simulateBusMovement` are not modelled. A timer is a handle that is live until it is cleared, and one tick is one call of `Tick`.
- The `INSERT INTO bus_locations` of a tick is not modelled. `Tick` returns the record it would write and broadcast.
- The random start of a simulated bus (segment, progress and speed) is a parameter of `BusMovement.constructor`.
- `generateBookingReference` and the booking id are not modelled: the new row's `booking_id` and `booking_reference` are parameters, as the table defaults give them. `generateBookingReference` is not called by `createBooking`.
- The stop-name query of `createBooking` (`src/controllers/bookingController.js:109-113`) is not modelled: its result is never used.
- The left joins of `getBookingById` with the stops table add names only and are not modelled.
- The route and trip path parameters are read as integers. Their text-to-integer cast errors are modelled only for booking ids.
- Columns are read back as numbers or NULL. With NUMERIC columns, node-postgres would return the coordinates as text. A stored 0 would then be the truthy text "0", and `ZeroTextCoordinate` would not hold.
- A NaN fare is modelled as a NULL `fare_amount` (None). PostgreSQL would store the text "NaN" as a numeric NaN.
- The NULL `current_seated` case of `GREATEST(0, NULL - n)` is not modelled: the availability row holds integers.
- The `status` and `is_payment_collected` columns of a new booking take their table defaults. Those defaults are unknown and are modelled as NULL.
- When several rows share a key, the response of an `UPDATE ... RETURNING` may be any updated row. The model returns the first row the key selects.
- SQL `ORDER BY sequence` leaves the order of two trip stops with the same sequence open. `MatchedStops` keeps them in table order, so the model settles one of the orders PostgreSQL may return.
- `BookingController.ApplyStatus`: upper-cases with `ToUpperAscii`, which maps only the ASCII letters. `toUpperCase` also maps other letters (for example "ß" to "SS"); the model does not, as it does no Unicode case mapping.
- `BookingController.CreateBooking`: the request body is typed. Text fields are strings, ids and the passenger count are integers. A JSON number given as text ("2"), an array or an object in a field is not modelled, nor how JavaScript would coerce it.
- `BookingController.ApplyStatus` and `BookingController.UpdateBookingStatus`: the `status` and `payment_status` fields are typed as text. A truthy `status` that is not a string (`5`, `true`) makes `toUpperCase` throw, and the handler answers 500 with the error's message; the model does not represent such a body.
- `BookingController.ApplyPayment` and `BookingController.UpdatePaymentStatus`: `is_payment_collected` is typed as absent, null or a boolean. The source passes any value to PostgreSQL's boolean cast, which stores "yes" or "1" as true and answers 500 for "abc"; that cast is not modelled.
- `TripController.UpdateTripLocation`: `latitude`, `longitude` and `speed` are a number, a string, a boolean, null or absent. Arrays and objects are not modelled: `[6.9]` is truthy and `parseFloat` reads it as 6.9, while `{}` is truthy and rejected as "Invalid latitude or longitude format".
- `JsCoerce.PgIntegerCast`: reads only decimal digits. PostgreSQL 16 also accepts hexadecimal, octal and binary integer input (`0x1A`) and underscores between digits (`1_000`); with those the model answers "invalid input syntax" where such a server would cast.
- The bus and driver CRUD handlers, the authentication routes and the rest of the repository are not part of this model.
- `BookingController.GetBookingById`: states that a successful lookup returns a row that joins. It does not state that this is the first joining row in table order, because SQL gives no order without `ORDER BY`.
- `TripController.ActiveTrips`: orders the rows by the given id order rather than by start time, as above.

## Findings

| source | as written | input that shows it | evidently intended | confidence | as-written member | corrected member |
|---|---|---|---|---|---|---|
| src/controllers/bookingController.js:84-92 | the first two rows of the stop query, ordered by sequence, are taken as the pickup and the dropoff, whichever stops they are, so the "before" check compares a row with a later one and passes | trip 1 with stop 10 at sequence 1 and stop 20 at sequence 2; a booking with pickup 20 and dropoff 10 yields sequences (1, 2) and is accepted with a fare for one hop | read the pickup's sequence from the pickup's row and the dropoff's from the dropoff's row, and reject a pickup after the dropoff | high, not executed | `BookingController.ReversedBookingCreated` | `BookingController.CreateBookingCorrected` |

`CreateBooking` follows the code: it uses the stop check as written,
`StopSequencesAsWritten`. `CreateBookingCorrected` uses the corrected check,
`StopSequences`, and `CreateBookingsAgree` shows that the two handlers differ
only where the two checks do. The lemmas of `SeatAccounting` are about
`CreateBooking` as written.

The code of `createBooking` (`src/controllers/bookingController.js:16-178`)
reads neither the trip's capacity nor its booked seats, so it has no
capacity check: `SeatAccounting.OverbookingAccepted` shows a full trip
accepting a booking. The cancellation's seat release is not capped at the
bus's capacity either (`BookingController.ReleaseUncapped`).
