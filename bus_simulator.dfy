/**
 * The bus simulator (src/simulator/busSimulator.js): buses move along a
 * fixed route of eight waypoints, 2% of a segment per tick, wrapping from
 * the last segment to the first; the simulator starts one interval timer
 * per active bus and stops them all.
 */
module BusSimulator {
  import opened Wrappers
  import opened JsMath

  /** A point of the route, and a computed position. */
  datatype Waypoint = Waypoint(lat: real, lng: real, name: string)
  datatype Position = Position(lat: real, lng: real)

  /** getRouteCoordinates: Panadura to Mathugama via Horana. */
  const RouteCoordinates: seq<Waypoint> := [
    Waypoint(6.7132, 79.9033, "Panadura"),
    Waypoint(6.7145, 79.9150, "Panadura North"),
    Waypoint(6.7180, 79.9380, "Wadduwa"),
    Waypoint(6.7190, 79.9680, "Kalutara North"),
    Waypoint(6.7153, 80.0619, "Horana"),
    Waypoint(6.6200, 80.1200, "Ingiriya"),
    Waypoint(6.5500, 80.1400, "Bulathsinhala"),
    Waypoint(6.4869, 80.1589, "Mathugama")
  ]

  /** The number of segments between consecutive waypoints. */
  const Segments: int := |RouteCoordinates| - 1

  const Step: real := 0.02

  /** interpolate: the point a fraction `progress` of the way from start to end. */
  function Interpolate(start: Waypoint, end: Waypoint, progress: real): (p: Position)
    ensures progress == 0.0 ==> p == Position(start.lat, start.lng)
    ensures progress == 1.0 ==> p == Position(end.lat, end.lng)
  {
    Position(start.lat + (end.lat - start.lat) * progress, start.lng + (end.lng - start.lng) * progress)
  }

  /** x == a + (b - a) * t lies between a and b for t in [0, 1]. */
  lemma Between(a: real, b: real, t: real, x: real)
    requires 0.0 <= t <= 1.0
    requires x == a + (b - a) * t
    ensures a <= b ==> a <= x <= b
    ensures b <= a ==> b <= x <= a
  {
    assert (b - a) * (1.0 - t) == (b - a) - (b - a) * t;
    if a <= b {
      PositiveOrZeroProduct(b - a, t);
      PositiveOrZeroProduct(b - a, 1.0 - t);
    } else {
      PositiveOrZeroProduct(a - b, t);
      PositiveOrZeroProduct(a - b, 1.0 - t);
      assert (a - b) * t == -((b - a) * t);
      assert (a - b) * (1.0 - t) == -((b - a) * (1.0 - t));
    }
  }

  lemma PositiveOrZeroProduct(x: real, y: real)
    requires 0.0 <= x && 0.0 <= y
    ensures 0.0 <= x * y
  {
    if 0.0 < x && 0.0 < y {
      PositiveProduct(x, y);
    }
  }

  /** While progress is in [0, 1] the position stays inside the box spanned by the segment's two waypoints. */
  lemma InterpolateBetween(start: Waypoint, end: Waypoint, progress: real)
    requires 0.0 <= progress <= 1.0
    ensures var p := Interpolate(start, end, progress);
      && (start.lat <= end.lat ==> start.lat <= p.lat <= end.lat)
      && (end.lat <= start.lat ==> end.lat <= p.lat <= start.lat)
      && (start.lng <= end.lng ==> start.lng <= p.lng <= end.lng)
      && (end.lng <= start.lng ==> end.lng <= p.lng <= start.lng)
  {
    var p := Interpolate(start, end, progress);
    Between(start.lat, end.lat, progress, p.lat);
    Between(start.lng, end.lng, progress, p.lng);
  }

  /**
   * The heading normalisation of calculateHeading, (angle + 360) % 360 with
   * the truncating remainder: for an atan2 angle in [-180, 180] degrees it
   * is the same direction in [0, 360).
   */
  function NormalizeHeading(angle: real): (heading: real)
    ensures -180.0 <= angle <= 180.0 ==> 0.0 <= heading < 360.0
    ensures -180.0 <= angle <= 180.0 ==> heading == if angle < 0.0 then angle + 360.0 else angle
  {
    var h := Rem(angle + 360.0, 360.0);
    if -180.0 <= angle <= 180.0 then
      var q := (angle + 360.0) / 360.0;
      assert 0.5 <= q <= 1.5;
      assert Trunc(q) == (if angle < 0.0 then 0 else 1);
      h
    else h
  }

  /**
   * calculateHeading: `bearing(dLng, dLat)` stands for
   * Math.atan2(dLng, dLat) * (180 / Math.PI), which lies in [-180, 180].
   * A bearing in that range becomes a compass heading in [0, 360): west of
   * north turned into the matching angle east of north.
   */
  function CalculateHeading(start: Waypoint, end: Waypoint, bearing: (real, real) -> real): (heading: real)
    ensures var b := bearing(end.lng - start.lng, end.lat - start.lat);
      -180.0 <= b <= 180.0 ==> 0.0 <= heading < 360.0 && (heading == if b < 0.0 then b + 360.0 else b)
  {
    NormalizeHeading(bearing(end.lng - start.lng, end.lat - start.lat))
  }

  /** A movement state is valid when both waypoints of its segment exist and progress is in [0, 1). */
  predicate ValidMovement(segment: int, progress: real) {
    0 <= segment < Segments && 0.0 <= progress < 1.0
  }

  /** One tick: progress grows by 2%; on reaching the segment's end the bus starts the next segment, the first after the last. */
  function Advance(segment: int, progress: real): (next: (int, real))
    requires ValidMovement(segment, progress)
    ensures ValidMovement(next.0, next.1)
    ensures progress + Step < 1.0 ==> next == (segment, progress + Step)
    ensures 1.0 <= progress + Step ==> next == ((segment + 1) % Segments, 0.0)
  {
    var p := progress + Step;
    if p >= 1.0 then ((segment + 1) % Segments, 0.0) else (segment, p)
  }

  /** n ticks in a row. */
  function AdvanceN(segment: int, progress: real, n: nat): (next: (int, real))
    requires ValidMovement(segment, progress)
    ensures ValidMovement(next.0, next.1)
    decreases n
  {
    if n == 0 then (segment, progress)
    else
      var step := Advance(segment, progress);
      AdvanceN(step.0, step.1, n - 1)
  }

  /** From the start of the last segment the next segment is the first. */
  lemma LastSegmentWraps(progress: real)
    requires ValidMovement(Segments - 1, progress) && 1.0 <= progress + Step
    ensures Advance(Segments - 1, progress) == (0, 0.0)
  {
  }

  /** Within a segment, k ticks from progress 2%·j reach 2%·(j + k) while that stays below 1. */
  lemma {:induction false} TicksWithinSegment(segment: int, j: nat, k: nat)
    requires 0 <= segment < Segments && j + k < 50
    ensures AdvanceN(segment, Step * j as real, k) == (segment, Step * (j + k) as real)
    decreases k
  {
    if k > 0 {
      assert Step * j as real + Step == Step * (j + 1) as real;
      assert Advance(segment, Step * j as real) == (segment, Step * (j + 1) as real);
      TicksWithinSegment(segment, j + 1, k - 1);
    }
  }

  /** A bus at the start of a segment reaches the start of the next one after exactly 50 ticks. */
  lemma FiftyTicksPerSegment(segment: int)
    requires 0 <= segment < Segments
    ensures AdvanceN(segment, 0.0, 50) == ((segment + 1) % Segments, 0.0)
  {
    TicksWithinSegment(segment, 0, 49);
    assert AdvanceN(segment, 0.0, 49) == (segment, Step * 49 as real);
    assert Advance(segment, Step * 49 as real) == ((segment + 1) % Segments, 0.0);
    AdvanceNSplit(segment, 0.0, 49, 1);
  }

  /** n + m ticks are n ticks followed by m ticks. */
  lemma {:induction false} AdvanceNSplit(segment: int, progress: real, n: nat, m: nat)
    requires ValidMovement(segment, progress)
    ensures var mid := AdvanceN(segment, progress, n);
      AdvanceN(segment, progress, n + m) == AdvanceN(mid.0, mid.1, m)
    decreases n
  {
    if n > 0 {
      var step := Advance(segment, progress);
      AdvanceNSplit(step.0, step.1, n - 1, m);
    }
  }

  /** The record a tick stores in bus_locations and broadcasts. */
  datatype LocationReport = LocationReport(busId: int, position: Position, speedKmh: real, heading: int)

  /**
   * The state the interval callback of simulateBusMovement closes over. The
   * random start (segment, progress and speed) is passed in.
   */
  class BusMovement {
    const busId: int
    const speedKmh: real
    var segment: int
    var progress: real

    ghost predicate Valid()
      reads this
    {
      ValidMovement(segment, progress)
    }

    /** Math.floor(random * 7), Math.random() and 30 + Math.random() * 20 as parameters. */
    constructor(busId: int, initialSegment: int, initialProgress: real, speedKmh: real)
      requires ValidMovement(initialSegment, initialProgress)
      requires 30.0 <= speedKmh < 50.0
      ensures Valid()
      ensures this.busId == busId && this.speedKmh == speedKmh
      ensures segment == initialSegment && progress == initialProgress
    {
      this.busId := busId;
      this.speedKmh := speedKmh;
      segment := initialSegment;
      progress := initialProgress;
    }

    /**
     * One run of the interval callback: advance, then report the
     * interpolated position, the speed and the rounded heading of the
     * current segment.
     */
    method Tick(bearing: (real, real) -> real) returns (report: LocationReport)
      requires Valid()
      requires forall dLng: real, dLat: real :: -180.0 <= bearing(dLng, dLat) <= 180.0
      modifies this
      ensures Valid()
      ensures (segment, progress) == Advance(old(segment), old(progress))
      ensures report.busId == busId && report.speedKmh == speedKmh
      ensures report.position == Interpolate(RouteCoordinates[segment], RouteCoordinates[segment + 1], progress)
      ensures report.heading == Round(CalculateHeading(RouteCoordinates[segment], RouteCoordinates[segment + 1], bearing))
      ensures 0 <= report.heading <= 360
    {
      progress := progress + Step;
      if progress >= 1.0 {
        segment := (segment + 1) % Segments;
        progress := 0.0;
      }
      var start := RouteCoordinates[segment];
      var end := RouteCoordinates[segment + 1];
      var position := Interpolate(start, end, progress);
      var heading := CalculateHeading(start, end, bearing);
      assert 0.0 <= heading < 360.0 by {
        assert -180.0 <= bearing(end.lng - start.lng, end.lat - start.lat) <= 180.0;
      }
      report := LocationReport(busId, position, speedKmh, Round(heading));
    }
  }


  /** What getStatus returns. */
  datatype Status = Status(isRunning: bool, activeBuses: nat)

  /** One entry of the interval Map: a bus id and the handle of its interval. */
  datatype Entry = Entry(busId: int, handle: nat)

  /** No bus id occurs twice among the entries, as in a Map. */
  predicate DistinctKeys(entries: seq<Entry>) {
    forall i, j :: 0 <= i < j < |entries| ==> entries[i].busId != entries[j].busId
  }

  /** Map.get: the handle registered under a bus id. */
  function Lookup(entries: seq<Entry>, busId: int): (r: Option<nat>)
    ensures r.None? <==> forall k :: 0 <= k < |entries| ==> entries[k].busId != busId
    ensures r.Some? ==> Entry(busId, r.value) in entries
  {
    if entries == [] then None
    else if entries[0].busId == busId then Some(entries[0].handle)
    else
      var rest := Lookup(entries[1..], busId);
      assert forall k :: 1 <= k < |entries| ==> entries[k] == entries[1..][k - 1];
      rest
  }

  /**
   * Map.set: a bus id already present keeps its place in the insertion
   * order and gets the new handle; a new one is appended.
   */
  function MapSet(entries: seq<Entry>, busId: int, handle: nat): (r: seq<Entry>)
    ensures |entries| <= |r| <= |entries| + 1
  {
    if entries == [] then [Entry(busId, handle)]
    else if entries[0].busId == busId then [Entry(busId, handle)] + entries[1..]
    else [entries[0]] + MapSet(entries[1..], busId, handle)
  }

  /** After Map.set the bus id maps to the new handle and every other bus id to what it mapped to before. */
  lemma {:induction false} MapSetLookup(entries: seq<Entry>, busId: int, handle: nat, b: int)
    ensures Lookup(MapSet(entries, busId, handle), b) == if b == busId then Some(handle) else Lookup(entries, b)
  {
    if entries != [] && entries[0].busId != busId {
      MapSetLookup(entries[1..], busId, handle, b);
    }
  }

  /** Map.set on a new bus id appends its entry; on a present one the size stays. */
  lemma {:induction false} MapSetSize(entries: seq<Entry>, busId: int, handle: nat)
    ensures Lookup(entries, busId).None? ==> MapSet(entries, busId, handle) == entries + [Entry(busId, handle)]
    ensures Lookup(entries, busId).Some? ==> |MapSet(entries, busId, handle)| == |entries|
  {
    if entries != [] && entries[0].busId != busId {
      MapSetSize(entries[1..], busId, handle);
      assert entries == [entries[0]] + entries[1..];
    }
  }

  /** Every entry after Map.set is the new one or one from before. */
  lemma {:induction false} MapSetEntries(entries: seq<Entry>, busId: int, handle: nat)
    ensures forall e :: e in MapSet(entries, busId, handle) ==> e == Entry(busId, handle) || e in entries
  {
    if entries != [] && entries[0].busId != busId {
      MapSetEntries(entries[1..], busId, handle);
    }
  }

  /** Map.set keeps the bus ids distinct. */
  lemma {:induction false} MapSetDistinct(entries: seq<Entry>, busId: int, handle: nat)
    requires DistinctKeys(entries)
    ensures DistinctKeys(MapSet(entries, busId, handle))
  {
    if entries != [] {
      var rest := entries[1..];
      assert DistinctKeys(rest) by {
        forall i, j | 0 <= i < j < |rest|
          ensures rest[i].busId != rest[j].busId
        {
          assert rest[i] == entries[i + 1] && rest[j] == entries[j + 1];
        }
      }
      if entries[0].busId == busId {
        var r := MapSet(entries, busId, handle);
        forall i, j | 0 <= i < j < |r|
          ensures r[i].busId != r[j].busId
        {
          assert r[j] == entries[j];
          if 0 < i {
            assert r[i] == entries[i];
          }
        }
      } else {
        MapSetDistinct(rest, busId, handle);
        MapSetEntries(rest, busId, handle);
        var tail := MapSet(rest, busId, handle);
        var r := [entries[0]] + tail;
        forall i, j | 0 <= i < j < |r|
          ensures r[i].busId != r[j].busId
        {
          if i == 0 {
            assert r[j] == tail[j - 1];
            assert r[j] in tail;
            if r[j] != Entry(busId, handle) {
              assert r[j] in rest;
              var m :| 0 <= m < |rest| && rest[m] == r[j];
              assert rest[m] == entries[m + 1];
            }
          } else {
            assert r[i] == tail[i - 1] && r[j] == tail[j - 1];
          }
        }
      }
    }
  }

  /** The handles of a list of entries. */
  function HandlesOf(entries: seq<Entry>): set<nat> {
    set k | 0 <= k < |entries| :: entries[k].handle
  }

  /**
   * The Map after Map.set of each bus in turn, on an empty Map, with the
   * handles `first`, `first + 1`, ... in that order.
   */
  function Registered(buses: seq<int>, first: nat): seq<Entry>
    decreases |buses|
  {
    if buses == [] then []
    else
      var n := |buses| - 1;
      MapSet(Registered(buses[..n], first), buses[n], first + n)
  }

  /** Registering keeps the bus ids distinct. */
  lemma {:induction false} RegisteredDistinct(buses: seq<int>, first: nat)
    ensures DistinctKeys(Registered(buses, first))
    decreases |buses|
  {
    if buses != [] {
      var n := |buses| - 1;
      RegisteredDistinct(buses[..n], first);
      MapSetDistinct(Registered(buses[..n], first), buses[n], first + n);
    }
  }

  /** Every registered handle is one of the handles issued. */
  lemma {:induction false} RegisteredHandles(buses: seq<int>, first: nat)
    ensures forall e :: e in Registered(buses, first) ==> first <= e.handle < first + |buses|
    decreases |buses|
  {
    if buses != [] {
      var n := |buses| - 1;
      RegisteredHandles(buses[..n], first);
      MapSetEntries(Registered(buses[..n], first), buses[n], first + n);
    }
  }

  /** A bus id is in the Map exactly when it is one of the buses. */
  lemma {:induction false} RegisteredKeys(buses: seq<int>, first: nat, b: int)
    ensures Lookup(Registered(buses, first), b).Some? <==> b in buses
    decreases |buses|
  {
    if buses != [] {
      var n := |buses| - 1;
      RegisteredKeys(buses[..n], first, b);
      MapSetLookup(Registered(buses[..n], first), buses[n], first + n, b);
      assert buses == buses[..n] + [buses[n]];
    }
  }

  /** A repeated bus keeps the handle of its last interval. */
  lemma {:induction false} RegisteredLast(buses: seq<int>, first: nat, k: int)
    requires 0 <= k < |buses|
    requires forall j :: k < j < |buses| ==> buses[j] != buses[k]
    ensures Lookup(Registered(buses, first), buses[k]) == Some(first + k)
    decreases |buses|
  {
    var n := |buses| - 1;
    var init := buses[..n];
    assert Registered(buses, first) == MapSet(Registered(init, first), buses[n], first + n);
    MapSetLookup(Registered(init, first), buses[n], first + n, buses[k]);
    if k < n {
      assert init[k] == buses[k];
      assert forall j :: k < j < |init| ==> init[j] == buses[j];
      RegisteredLast(init, first, k);
    }
  }

  /** On bus ids without repeats the Map holds one entry per bus, in order, with consecutive handles. */
  lemma {:induction false} RegisteredInOrder(buses: seq<int>, first: nat)
    requires Distinct(buses)
    ensures |Registered(buses, first)| == |buses|
    ensures forall k :: 0 <= k < |buses| ==> Registered(buses, first)[k] == Entry(buses[k], first + k)
    decreases |buses|
  {
    if buses != [] {
      var n := |buses| - 1;
      var init := buses[..n];
      assert Distinct(init);
      RegisteredInOrder(init, first);
      RegisteredKeys(init, first, buses[n]);
      MapSetSize(Registered(init, first), buses[n], first + n);
    }
  }

  /**
   * The simulator: whether it runs, and its Map from bus id to interval
   * handle, as the list of its entries in insertion order (the order
   * Map.forEach visits them in). `liveTimers` holds the handles of the
   * intervals that have not been cleared, and `nextHandle` the handle
   * setInterval gives next.
   */
  class Simulator {
    var isRunning: bool
    var simulationIntervals: seq<Entry>
    var liveTimers: set<nat>
    var nextHandle: nat

    /** The entries form a Map, every registered interval is live, every handle was issued, and a stopped simulator holds no interval. */
    ghost predicate Valid()
      reads this
    {
      && DistinctKeys(simulationIntervals)
      && (forall k :: 0 <= k < |simulationIntervals| ==> simulationIntervals[k].handle in liveTimers)
      && (forall h :: h in liveTimers ==> h < nextHandle)
      && (!isRunning ==> simulationIntervals == [])
    }

    constructor()
      ensures Valid()
      ensures !isRunning && simulationIntervals == [] && liveTimers == {}
    {
      isRunning := false;
      simulationIntervals := [];
      liveTimers := {};
      nextHandle := 0;
    }

    /** getStatus: activeBuses is the size of the interval Map. */
    function GetStatus(): (status: Status)
      reads this
      ensures status.isRunning == isRunning
      ensures status.activeBuses == |simulationIntervals|
    {
      Status(isRunning, |simulationIntervals|)
    }

    /** simulateBusMovement: a new interval timer, registered under the bus id (a second one for the same bus replaces the first in the Map, and the first keeps running). */
    method SimulateBusMovement(busId: int) returns (handle: nat)
      modifies this
      ensures handle == old(nextHandle) && nextHandle == old(nextHandle) + 1
      ensures liveTimers == old(liveTimers) + {handle}
      ensures simulationIntervals == MapSet(old(simulationIntervals), busId, handle)
      ensures isRunning == old(isRunning)
    {
      handle := nextHandle;
      nextHandle := nextHandle + 1;
      liveTimers := liveTimers + {handle};
      simulationIntervals := MapSet(simulationIntervals, busId, handle);
    }

    /**
     * startSimulation: a no-op while running. `activeBuses` is the result of
     * the bus query, None when it fails (the error is logged and the
     * simulator stays stopped). Otherwise one new interval per bus, in the
     * order of the rows, registered with Map.set, then running.
     */
    method StartSimulation(activeBuses: Option<seq<int>>)
      requires Valid()
      modifies this
      ensures Valid()
      ensures old(isRunning) || activeBuses.None? ==>
        && isRunning == old(isRunning) && simulationIntervals == old(simulationIntervals)
        && liveTimers == old(liveTimers) && nextHandle == old(nextHandle)
      ensures !old(isRunning) && activeBuses.Some? ==>
        && isRunning
        && nextHandle == old(nextHandle) + |activeBuses.value|
        && simulationIntervals == Registered(activeBuses.value, old(nextHandle))
        && (forall h :: h in liveTimers <==> h in old(liveTimers) || old(nextHandle) <= h < nextHandle)
    {
      if isRunning || activeBuses.None? {
        return;
      }
      var buses := activeBuses.value;
      ghost var first := nextHandle;
      for i := 0 to |buses|
        invariant !isRunning
        invariant nextHandle == first + i
        invariant simulationIntervals == Registered(buses[..i], first)
        invariant forall h :: h in liveTimers <==> h in old(liveTimers) || first <= h < nextHandle
      {
        assert buses[..i + 1][..i] == buses[..i];
        var handle := SimulateBusMovement(buses[i]);
      }
      assert buses[..|buses|] == buses;
      RegisteredDistinct(buses, first);
      RegisteredHandles(buses, first);
      isRunning := true;
    }

    /** stopSimulation: every interval in the Map is cleared, in insertion order, then the Map is emptied and the simulator stopped. */
    method StopSimulation()
      requires Valid()
      modifies this
      ensures Valid()
      ensures !isRunning && simulationIntervals == []
      ensures liveTimers == old(liveTimers) - HandlesOf(old(simulationIntervals))
      ensures nextHandle == old(nextHandle)
    {
      for i := 0 to |simulationIntervals|
        invariant simulationIntervals == old(simulationIntervals) && nextHandle == old(nextHandle)
        invariant liveTimers == old(liveTimers) - HandlesOf(simulationIntervals[..i])
      {
        assert HandlesOf(simulationIntervals[..i + 1]) == HandlesOf(simulationIntervals[..i]) + {simulationIntervals[i].handle} by {
          assert forall k :: 0 <= k < i ==> simulationIntervals[..i + 1][k] == simulationIntervals[..i][k];
        }
        liveTimers := liveTimers - {simulationIntervals[i].handle};
      }
      assert simulationIntervals[..|simulationIntervals|] == simulationIntervals;
      simulationIntervals := [];
      isRunning := false;
    }
  }

  predicate Distinct(s: seq<int>) {
    forall i, j :: 0 <= i < j < |s| ==> s[i] != s[j]
  }

  /**
   * A start followed by a stop, from a stopped simulator, on bus ids without
   * repeats (they are the buses table's primary key): the status reports one
   * interval per bus while running, and afterwards every interval started
   * has been cleared and nothing else.
   */
  method StartThenStop(sim: Simulator, buses: seq<int>) returns (running: Status, stopped: Status)
    requires sim.Valid() && !sim.isRunning
    requires Distinct(buses)
    modifies sim
    ensures running == Status(true, |buses|)
    ensures stopped == Status(false, 0)
    ensures sim.liveTimers == old(sim.liveTimers)
  {
    ghost var before := sim.liveTimers;
    ghost var first := sim.nextHandle;
    sim.StartSimulation(Some(buses));
    RegisteredInOrder(buses, first);
    running := sim.GetStatus();
    ghost var intervals := sim.simulationIntervals;
    forall h | first <= h < sim.nextHandle
      ensures h in HandlesOf(intervals)
    {
      var k := h - first;
      assert intervals[k].handle == h;
    }
    sim.StopSimulation();
    stopped := sim.GetStatus();
    forall h
      ensures h in sim.liveTimers <==> h in before
    {
      if h in before {
        assert h < first;
        assert h !in HandlesOf(intervals);
      }
    }
  }
}
