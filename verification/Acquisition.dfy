/**
 * The dashboard's data layer: per-sensor distance readings merged over a
 * fixed baseline (any live reading makes the result live), and the parking
 * snapshot mapped into two four-slot zones (both requests must succeed).
 * Every network request is abstracted to its outcome: `None` for a failed,
 * timed-out or non-success request, `Some` for a parsed body.
 */
module Acquisition {
  import opened Wrappers

  datatype SensorStatus = Normal | Occupied | Error

  datatype SensorReading = SensorReading(
    id: int,
    name: string,
    location: string,
    distance: real,
    status: SensorStatus,
    zone: string,
    threshold: real,
    battery: int)

  /** The result of one sensor poll: the readings and whether any were live. */
  datatype SensorSnapshot = SensorSnapshot(sensors: seq<SensorReading>, isLiveData: bool)

  const SensorCount: nat := 4

  /** The baseline shown when no sensor answers. */
  const DummySensors: seq<SensorReading> := [
    SensorReading(1, "US-01", "A구역 입구", 45.0, Normal, "A구역", 50.0, 92),
    SensorReading(2, "US-02", "A구역 내부", 12.0, Occupied, "A구역", 50.0, 87),
    SensorReading(3, "US-03", "B구역 입구", 78.0, Normal, "B구역", 50.0, 76),
    SensorReading(4, "US-04", "B구역 내부", 8.0, Occupied, "B구역", 50.0, 65)
  ]

  /** One baseline record overlaid with a live distance, if there is one. */
  function Overlay(sensor: SensorReading, live: Option<real>): SensorReading
  {
    match live
    case None => sensor
    case Some(d) => sensor.(distance := d, status := if d < sensor.threshold then Occupied else Normal)
  }

  predicate AnyLive(results: seq<Option<real>>)
  {
    exists i :: 0 <= i < |results| && results[i].Some?
  }

  /**
   * `fetchUltrasonicSensors` once the four requests have settled: one live
   * reading is enough to report live data; sensors without a reading keep
   * their baseline record.
   */
  function FetchUltrasonicSensors(results: seq<Option<real>>): (r: SensorSnapshot)
    requires |results| == SensorCount
    ensures |r.sensors| == |DummySensors|
    ensures r.isLiveData <==> AnyLive(results)
    ensures !r.isLiveData ==> r.sensors == DummySensors
    ensures forall i :: 0 <= i < SensorCount && results[i].None? ==> r.sensors[i] == DummySensors[i]
    ensures forall i :: 0 <= i < SensorCount && results[i].Some? ==>
      && r.sensors[i].distance == results[i].value
      && (r.sensors[i].status == Occupied <==> results[i].value < DummySensors[i].threshold)
      && (r.sensors[i].status == Normal <==> !(results[i].value < DummySensors[i].threshold))
    ensures forall i :: 0 <= i < SensorCount ==>
      r.sensors[i].(distance := 0.0, status := Normal) == DummySensors[i].(distance := 0.0, status := Normal)
  {
    if AnyLive(results) then
      SensorSnapshot(seq(|DummySensors|, i requires 0 <= i < |DummySensors| => Overlay(DummySensors[i], results[i])), true)
    else
      SensorSnapshot(DummySensors, false)
  }

  /** The sensor ids of a snapshot are always 1, 2, 3, 4, in baseline order. */
  lemma SensorIdsFixed(results: seq<Option<real>>)
    requires |results| == SensorCount
    ensures forall i :: 0 <= i < SensorCount ==> FetchUltrasonicSensors(results).sensors[i].id == i + 1
  {
    var r := FetchUltrasonicSensors(results);
    forall i | 0 <= i < SensorCount
      ensures r.sensors[i].id == i + 1
    {
      assert r.sensors[i].(distance := 0.0, status := Normal).id == DummySensors[i].(distance := 0.0, status := Normal).id;
    }
  }

  // ---------------------------------------------------------------------
  // Parking snapshot

  /** The consumed fields of one record of `/api/parking_spots`. */
  datatype SpotRecord = SpotRecord(id: int, occupied: bool)

  datatype Zone = Zone(total: int, occupied: int, spaces: seq<bool>)

  datatype ParkingView = ParkingView(zoneA: Zone, zoneB: Zone)

  /** The result of a parking poll; `S` is the backend's status object, passed through untouched. */
  datatype ParkingSnapshot<S> = ParkingSnapshot(parkingData: ParkingView, isLiveData: bool, systemStatus: Option<S>)

  const ZoneSize: nat := 4

  /** The baseline shown when either parking request fails. */
  const DummyParkingData: ParkingView := ParkingView(
    Zone(4, 3, [true, true, true, false]),
    Zone(4, 2, [true, false, true, false]))

  /** The flag the last record with this id wrote, or false if none has it. */
  function SlotValue(spots: seq<SpotRecord>, id: int): bool
  {
    if spots == [] then false
    else if spots[|spots| - 1].id == id then spots[|spots| - 1].occupied
    else SlotValue(spots[..|spots| - 1], id)
  }

  /** The four slots of the zone whose first spot id is `first`. */
  function ZoneSpaces(spots: seq<SpotRecord>, first: int): (r: seq<bool>)
    ensures |r| == ZoneSize
  {
    [SlotValue(spots, first), SlotValue(spots, first + 1), SlotValue(spots, first + 2), SlotValue(spots, first + 3)]
  }

  /** The number of occupied records whose id lies in first .. first + 3. */
  function OccupiedIn(spots: seq<SpotRecord>, first: int): (c: nat)
    ensures c <= |spots|
  {
    if spots == [] then 0
    else
      var s := spots[|spots| - 1];
      OccupiedIn(spots[..|spots| - 1], first) + (if s.occupied && first <= s.id <= first + 3 then 1 else 0)
  }

  /** The zone that the mapping loop builds for ids first .. first + 3. */
  function ZoneOf(spots: seq<SpotRecord>, first: int): Zone
  {
    Zone(ZoneSize, OccupiedIn(spots, first), ZoneSpaces(spots, first))
  }

  /** One more record rewrites at most the one slot it names. */
  lemma ZoneStep(spots: seq<SpotRecord>, i: nat, first: int)
    requires i < |spots|
    ensures first <= spots[i].id <= first + 3 ==>
      ZoneSpaces(spots[..i + 1], first) == ZoneSpaces(spots[..i], first)[spots[i].id - first := spots[i].occupied]
    ensures !(first <= spots[i].id <= first + 3) ==> ZoneSpaces(spots[..i + 1], first) == ZoneSpaces(spots[..i], first)
    ensures OccupiedIn(spots[..i + 1], first) ==
      OccupiedIn(spots[..i], first) + (if spots[i].occupied && first <= spots[i].id <= first + 3 then 1 else 0)
  {
    assert spots[..i + 1][..i] == spots[..i];
  }

  /**
   * The live branch of `fetchParkingData`: start from two empty zones and let
   * each record with id 1..4 write zone A's slot id - 1, each with id 5..8
   * zone B's slot id - 5, counting the occupied ones; other ids are ignored.
   */
  method MapParkingSpots(spots: seq<SpotRecord>) returns (zoneA: Zone, zoneB: Zone)
    ensures zoneA == ZoneOf(spots, 1) && zoneB == ZoneOf(spots, 5)
  {
    var spacesA := new bool[ZoneSize](_ => false);
    var spacesB := new bool[ZoneSize](_ => false);
    var occupiedA, occupiedB := 0, 0;
    var i := 0;
    while i < |spots|
      invariant 0 <= i <= |spots|
      invariant spacesA[..] == ZoneSpaces(spots[..i], 1)
      invariant spacesB[..] == ZoneSpaces(spots[..i], 5)
      invariant occupiedA == OccupiedIn(spots[..i], 1)
      invariant occupiedB == OccupiedIn(spots[..i], 5)
    {
      var spot := spots[i];
      ZoneStep(spots, i, 1);
      ZoneStep(spots, i, 5);
      if 1 <= spot.id <= 4 {
        spacesA[spot.id - 1] := spot.occupied;
        if spot.occupied { occupiedA := occupiedA + 1; }
      } else if 5 <= spot.id <= 8 {
        spacesB[spot.id - 5] := spot.occupied;
        if spot.occupied { occupiedB := occupiedB + 1; }
      }
      i := i + 1;
    }
    assert spots[..i] == spots;
    zoneA := Zone(ZoneSize, occupiedA, spacesA[..]);
    zoneB := Zone(ZoneSize, occupiedB, spacesB[..]);
  }

  /**
   * `fetchParkingData` once both requests have settled: live only when both
   * the status object and the spot list arrived; otherwise the baseline,
   * without a status object.
   */
  method FetchParkingData<S>(systemStatus: Option<S>, parkingSpots: Option<seq<SpotRecord>>) returns (r: ParkingSnapshot<S>)
    ensures r.isLiveData <==> systemStatus.Some? && parkingSpots.Some?
    ensures !r.isLiveData ==> r.parkingData == DummyParkingData && r.systemStatus == None
    ensures r.isLiveData ==>
      && r.systemStatus == systemStatus
      && r.parkingData.zoneA == ZoneOf(parkingSpots.value, 1)
      && r.parkingData.zoneB == ZoneOf(parkingSpots.value, 5)
  {
    if systemStatus.Some? && parkingSpots.Some? {
      var zoneA, zoneB := MapParkingSpots(parkingSpots.value);
      r := ParkingSnapshot(ParkingView(zoneA, zoneB), true, systemStatus);
    } else {
      r := ParkingSnapshot(DummyParkingData, false, None);
    }
  }

  /**
   * Mapping law, one record at a time: a record with id in the zone's range
   * writes exactly slot id - first and leaves the other slots alone; a
   * record outside the range changes nothing.
   */
  lemma MappingLaw(spots: seq<SpotRecord>, s: SpotRecord, first: int)
    ensures first <= s.id <= first + 3 ==>
      ZoneSpaces(spots + [s], first) == ZoneSpaces(spots, first)[s.id - first := s.occupied]
    ensures !(first <= s.id <= first + 3) ==>
      ZoneSpaces(spots + [s], first) == ZoneSpaces(spots, first)
  {
    assert (spots + [s])[..|spots|] == spots;
  }

  /** A slot no record names stays empty. */
  lemma {:induction false} UnnamedSlotEmpty(spots: seq<SpotRecord>, id: int)
    requires forall k :: 0 <= k < |spots| ==> spots[k].id != id
    ensures !SlotValue(spots, id)
  {
    if spots != [] {
      UnnamedSlotEmpty(spots[..|spots| - 1], id);
    }
  }

  function CountTrue(bs: seq<bool>): (c: nat)
    ensures c <= |bs|
  {
    if bs == [] then 0 else CountTrue(bs[..|bs| - 1]) + (if bs[|bs| - 1] then 1 else 0)
  }

  predicate DistinctIds(spots: seq<SpotRecord>)
  {
    forall a, b :: 0 <= a < b < |spots| ==> spots[a].id != spots[b].id
  }

  /**
   * With distinct spot ids the counter kept beside the slots agrees with
   * them: `occupied` equals the number of true slots, and so lies in 0..4.
   */
  lemma {:induction false} OccupiedMatchesSpaces(spots: seq<SpotRecord>, first: int)
    requires DistinctIds(spots)
    ensures ZoneOf(spots, first).occupied == CountTrue(ZoneOf(spots, first).spaces)
    ensures ZoneOf(spots, first).occupied <= ZoneOf(spots, first).total
  {
    if spots == [] {
      AllFalseCountsZero(ZoneOf(spots, first).spaces);
    } else {
      var init := spots[..|spots| - 1];
      var s := spots[|spots| - 1];
      assert init + [s] == spots;
      assert DistinctIds(init);
      OccupiedMatchesSpaces(init, first);
      assert OccupiedIn(spots, first) == OccupiedIn(init, first) + (if s.occupied && first <= s.id <= first + 3 then 1 else 0);
      MappingLaw(init, s, first);
      if first <= s.id <= first + 3 {
        assert forall k :: 0 <= k < |init| ==> init[k].id != s.id by {
          forall k | 0 <= k < |init| ensures init[k].id != s.id {
            assert init[k] == spots[k];
          }
        }
        UnnamedSlotEmpty(init, s.id);
        var old4 := ZoneSpaces(init, first);
        assert !old4[s.id - first];
        CountTrueUpdate(old4, s.id - first, s.occupied);
        assert ZoneOf(spots, first).spaces == old4[s.id - first := s.occupied];
        assert ZoneOf(init, first).occupied == CountTrue(old4);
        assert ZoneOf(spots, first).occupied == ZoneOf(init, first).occupied + (if s.occupied then 1 else 0);
      } else {
        assert ZoneOf(spots, first).spaces == ZoneOf(init, first).spaces;
      }
    }
  }

  lemma {:induction false} AllFalseCountsZero(bs: seq<bool>)
    requires forall k :: 0 <= k < |bs| ==> !bs[k]
    ensures CountTrue(bs) == 0
  {
    if bs != [] {
      AllFalseCountsZero(bs[..|bs| - 1]);
    }
  }

  /** Setting a false slot to b adds one to the count exactly when b holds. */
  lemma {:induction false} CountTrueUpdate(bs: seq<bool>, k: nat, b: bool)
    requires k < |bs| && !bs[k]
    ensures CountTrue(bs[k := b]) == CountTrue(bs) + (if b then 1 else 0)
  {
    var n := |bs|;
    if k < n - 1 {
      CountTrueUpdate(bs[..n - 1], k, b);
      assert bs[k := b][..n - 1] == bs[..n - 1][k := b];
    } else {
      assert bs[k := b][..n - 1] == bs[..n - 1];
    }
  }

  /**
   * The mapping keeps the counter independent of the slots, so two records
   * with the same id make them disagree: the counter says one, every slot is
   * empty.
   */
  lemma DuplicateIdsDrift()
    ensures ZoneOf([SpotRecord(1, true), SpotRecord(1, false)], 1).occupied == 1
    ensures CountTrue(ZoneOf([SpotRecord(1, true), SpotRecord(1, false)], 1).spaces) == 0
  {
    var spots := [SpotRecord(1, true), SpotRecord(1, false)];
    assert spots[..1] == [SpotRecord(1, true)];
    assert spots[..1][..0] == [];
    var one := [SpotRecord(1, true)];
    assert spots[..1] == one && one[..0] == [];
    assert !SlotValue(one, 2) && !SlotValue(one, 3) && !SlotValue(one, 4);
    assert !SlotValue(spots, 1) && !SlotValue(spots, 2) && !SlotValue(spots, 3) && !SlotValue(spots, 4);
    AllFalseCountsZero(ZoneOf(spots, 1).spaces);
  }
}
