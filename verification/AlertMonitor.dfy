/**
 * The notification bell: on each poll it compares every sensor's distance
 * with the one it remembered from the previous poll and raises an alert when
 * the distance dropped by 30 cm or more. Alerts are kept newest first, at
 * most 20 of them, and can be dismissed one id at a time or all at once.
 */
module AlertMonitor {
  import opened Wrappers
  import opened Acquisition

  /** Alerts are identified by the sensor and the poll time that raised them. */
  datatype AlertId = AlertId(sensorId: int, stamp: int)

  datatype Alert = Alert(
    id: AlertId,
    timestamp: int,
    sensorId: int,
    sensorName: string,
    previousDistance: real,
    currentDistance: real,
    change: real)

  /** The drop, in centimetres, that raises an alert. */
  const AlertDrop: real := 30.0

  /** The most alerts the bell keeps. */
  const MaxAlerts: nat := 20

  /** The alert one reading raises against the remembered distances, if any. */
  function AlertFor(previous: map<int, real>, sensor: SensorReading, now: int): (r: Option<Alert>)
    ensures sensor.id !in previous ==> r == None
    ensures sensor.id in previous ==> (r.Some? <==> previous[sensor.id] - sensor.distance >= AlertDrop)
    ensures r.Some? ==>
      && r.value.id == AlertId(sensor.id, now)
      && r.value.sensorId == sensor.id && r.value.sensorName == sensor.name
      && r.value.previousDistance == previous[sensor.id]
      && r.value.currentDistance == sensor.distance
      && r.value.change == r.value.previousDistance - r.value.currentDistance
      && r.value.change >= AlertDrop
  {
    if sensor.id in previous then
      var prevDistance := previous[sensor.id];
      var distanceChange := prevDistance - sensor.distance;
      if distanceChange >= AlertDrop then
        Some(Alert(AlertId(sensor.id, now), now, sensor.id, sensor.name, prevDistance, sensor.distance, distanceChange))
      else None
    else None
  }

  /** Put an alert in front and keep the first MaxAlerts. */
  function Push(alerts: seq<Alert>, a: Alert): seq<Alert>
  {
    var grown := [a] + alerts;
    if |grown| <= MaxAlerts then grown else grown[..MaxAlerts]
  }

  /**
   * The alert list after one poll: sensors are visited in order, each one's
   * alert (judged against the distances remembered before the poll) pushed in
   * front.
   */
  function Observe(alerts: seq<Alert>, previous: map<int, real>, sensors: seq<SensorReading>, now: int): seq<Alert>
  {
    if sensors == [] then alerts
    else
      var before := Observe(alerts, previous, sensors[..|sensors| - 1], now);
      match AlertFor(previous, sensors[|sensors| - 1], now)
      case None => before
      case Some(a) => Push(before, a)
  }

  /** The alerts one poll raises, in sensor order. */
  function Raised(previous: map<int, real>, sensors: seq<SensorReading>, now: int): seq<Alert>
  {
    if sensors == [] then []
    else
      Raised(previous, sensors[..|sensors| - 1], now) +
      match AlertFor(previous, sensors[|sensors| - 1], now)
      case None => []
      case Some(a) => [a]
  }

  /** The remembered distances after one poll: each sensor's latest distance under its id. */
  function Remember(previous: map<int, real>, sensors: seq<SensorReading>): map<int, real>
  {
    if sensors == [] then previous
    else
      var s := sensors[|sensors| - 1];
      Remember(previous, sensors[..|sensors| - 1])[s.id := s.distance]
  }

  function Reverse<T>(s: seq<T>): (r: seq<T>)
    ensures |r| == |s|
  {
    if s == [] then [] else [s[|s| - 1]] + Reverse(s[..|s| - 1])
  }

  function Take<T>(s: seq<T>, n: nat): (r: seq<T>)
    ensures |r| <= n
  {
    if |s| <= n then s else s[..n]
  }

  /** Dismissing an alert removes every alert with that id. */
  function RemoveById(alerts: seq<Alert>, id: AlertId): seq<Alert>
  {
    if alerts == [] then []
    else (if alerts[0].id == id then [] else [alerts[0]]) + RemoveById(alerts[1..], id)
  }

  /** What the badge on the bell shows. */
  datatype Badge = NoBadge | Count(n: nat) | NinePlus

  /** The badge for a list of the given length: hidden when empty, '9+' above nine. */
  function BadgeFor(count: nat): (b: Badge)
    ensures b == NoBadge <==> count == 0
    ensures b == NinePlus <==> count > 9
    ensures b.Count? ==> 1 <= b.n <= 9 && b.n == count
  {
    if count == 0 then NoBadge else if count > 9 then NinePlus else Count(count)
  }

  class NotificationBell {
    var alerts: seq<Alert>
    var previousDistances: map<int, real>

    ghost predicate Valid()
      reads this
    {
      |alerts| <= MaxAlerts
    }

    constructor ()
      ensures Valid()
      ensures alerts == [] && previousDistances == map[]
    {
      alerts := [];
      previousDistances := map[];
    }

    /**
     * `checkForAlerts` on an already fetched sensor list. Distances are read
     * from the map as it was when the poll started (the effect's closure);
     * each sensor's new distance is written as it is visited.
     */
    method CheckForAlerts(sensors: seq<SensorReading>, now: int)
      requires Valid()
      modifies this
      ensures Valid()
      ensures alerts == Observe(old(alerts), old(previousDistances), sensors, now)
      ensures previousDistances == Remember(old(previousDistances), sensors)
    {
      var snapshot := previousDistances;
      var i := 0;
      while i < |sensors|
        invariant 0 <= i <= |sensors|
        invariant alerts == Observe(old(alerts), snapshot, sensors[..i], now)
        invariant previousDistances == Remember(snapshot, sensors[..i])
        invariant |alerts| <= MaxAlerts
      {
        var sensor := sensors[i];
        PollStep(old(alerts), snapshot, sensors, i, now);
        if sensor.id in snapshot {
          var prevDistance := snapshot[sensor.id];
          var distanceChange := prevDistance - sensor.distance;
          if distanceChange >= AlertDrop {
            var newAlert := Alert(AlertId(sensor.id, now), now, sensor.id, sensor.name, prevDistance, sensor.distance, distanceChange);
            assert AlertFor(snapshot, sensor, now) == Some(newAlert);
            var grown := [newAlert] + alerts;
            alerts := if |grown| <= MaxAlerts then grown else grown[..MaxAlerts];
          } else {
            assert AlertFor(snapshot, sensor, now) == None;
          }
        } else {
          assert AlertFor(snapshot, sensor, now) == None;
        }
        previousDistances := previousDistances[sensor.id := sensor.distance];
        i := i + 1;
      }
      assert sensors[..i] == sensors;
    }

    /** One timer tick: fetch the sensors (outcomes given), then check them. */
    method Tick(results: seq<Option<real>>, now: int)
      requires Valid() && |results| == SensorCount
      modifies this
      ensures Valid()
      ensures alerts == Observe(old(alerts), old(previousDistances), FetchUltrasonicSensors(results).sensors, now)
      ensures previousDistances == Remember(old(previousDistances), FetchUltrasonicSensors(results).sensors)
    {
      var snapshot := FetchUltrasonicSensors(results);
      CheckForAlerts(snapshot.sensors, now);
    }

    method RemoveAlert(id: AlertId)
      requires Valid()
      modifies this
      ensures Valid()
      ensures alerts == RemoveById(old(alerts), id)
      ensures previousDistances == old(previousDistances)
    {
      RemoveByIdShrinks(alerts, id);
      alerts := RemoveById(alerts, id);
    }

    method ClearAllAlerts()
      requires Valid()
      modifies this
      ensures Valid()
      ensures alerts == []
      ensures previousDistances == old(previousDistances)
    {
      alerts := [];
    }

    function BadgeLabel(): (b: Badge)
      reads this
      ensures b == BadgeFor(|alerts|)
    {
      BadgeFor(|alerts|)
    }
  }

  // ---------------------------------------------------------------------
  // Properties

  /** Polling one more sensor pushes its alert, if any, and remembers its distance. */
  lemma PollStep(alerts: seq<Alert>, previous: map<int, real>, sensors: seq<SensorReading>, i: nat, now: int)
    requires i < |sensors|
    ensures Observe(alerts, previous, sensors[..i + 1], now) ==
      match AlertFor(previous, sensors[i], now)
      case None => Observe(alerts, previous, sensors[..i], now)
      case Some(a) => Push(Observe(alerts, previous, sensors[..i], now), a)
    ensures Remember(previous, sensors[..i + 1]) == Remember(previous, sensors[..i])[sensors[i].id := sensors[i].distance]
  {
    assert sensors[..i + 1][..i] == sensors[..i];
  }

  /** The list never grows past MaxAlerts. */
  lemma {:induction false} ObserveBounded(alerts: seq<Alert>, previous: map<int, real>, sensors: seq<SensorReading>, now: int)
    requires |alerts| <= MaxAlerts
    ensures |Observe(alerts, previous, sensors, now)| <= MaxAlerts
  {
    if sensors != [] {
      ObserveBounded(alerts, previous, sensors[..|sensors| - 1], now);
    }
  }

  /**
   * Closed form of a poll: the raised alerts, newest first, in front of the
   * old list, cut to the first MaxAlerts, so the oldest are the ones dropped.
   */
  lemma {:induction false} ObserveIsNewestFirst(alerts: seq<Alert>, previous: map<int, real>, sensors: seq<SensorReading>, now: int)
    requires |alerts| <= MaxAlerts
    ensures Observe(alerts, previous, sensors, now) == Take(Reverse(Raised(previous, sensors, now)) + alerts, MaxAlerts)
  {
    if sensors != [] {
      var init := sensors[..|sensors| - 1];
      ObserveIsNewestFirst(alerts, previous, init, now);
      var r := Raised(previous, init, now);
      var last := AlertFor(previous, sensors[|sensors| - 1], now);
      if last.Some? {
        RaisedOneMore(alerts, previous, sensors, now, r, last.value);
      } else {
        assert Raised(previous, sensors, now) == r + [];
        assert r + [] == r;
      }
    }
  }

  /** The step of ObserveIsNewestFirst for a last sensor that raises alert a. */
  lemma RaisedOneMore(alerts: seq<Alert>, previous: map<int, real>, sensors: seq<SensorReading>, now: int, r: seq<Alert>, a: Alert)
    requires sensors != [] && r == Raised(previous, sensors[..|sensors| - 1], now)
    requires AlertFor(previous, sensors[|sensors| - 1], now) == Some(a)
    requires Observe(alerts, previous, sensors[..|sensors| - 1], now) == Take(Reverse(r) + alerts, MaxAlerts)
    ensures Observe(alerts, previous, sensors, now) == Take(Reverse(Raised(previous, sensors, now)) + alerts, MaxAlerts)
  {
    var prior := Reverse(r) + alerts;
    LastSensorRaises(alerts, previous, sensors, now, a);
    PushTake(prior, a);
    ReverseSnoc(r, a);
    AppendAssoc([a], Reverse(r), alerts);
  }

  lemma AppendAssoc<T>(x: seq<T>, y: seq<T>, z: seq<T>)
    ensures x + (y + z) == (x + y) + z
  {
  }

  /** A last sensor that raises alert a pushes it on the list and appends it to the raised alerts. */
  lemma LastSensorRaises(alerts: seq<Alert>, previous: map<int, real>, sensors: seq<SensorReading>, now: int, a: Alert)
    requires sensors != [] && AlertFor(previous, sensors[|sensors| - 1], now) == Some(a)
    ensures Observe(alerts, previous, sensors, now) == Push(Observe(alerts, previous, sensors[..|sensors| - 1], now), a)
    ensures Raised(previous, sensors, now) == Raised(previous, sensors[..|sensors| - 1], now) + [a]
  {
  }

  lemma ReverseSnoc<T>(s: seq<T>, x: T)
    ensures Reverse(s + [x]) == [x] + Reverse(s)
  {
    assert (s + [x])[..|s|] == s;
  }

  lemma PushTake(s: seq<Alert>, a: Alert)
    ensures Push(Take(s, MaxAlerts), a) == Take([a] + s, MaxAlerts)
  {
    if |s| > MaxAlerts {
      assert ([a] + s[..MaxAlerts])[..MaxAlerts] == ([a] + s)[..MaxAlerts];
    }
  }

  /** A sensor with no remembered distance raises nothing on this poll. */
  lemma {:induction false} FirstReadingSilent(previous: map<int, real>, sensors: seq<SensorReading>, now: int, a: Alert)
    requires a in Raised(previous, sensors, now)
    ensures a.sensorId in previous
    ensures exists k :: (0 <= k < |sensors| && sensors[k].id == a.sensorId &&
      previous[a.sensorId] - sensors[k].distance >= AlertDrop && a.currentDistance == sensors[k].distance)
  {
    var init := sensors[..|sensors| - 1];
    var s := sensors[|sensors| - 1];
    if a in Raised(previous, init, now) {
      FirstReadingSilent(previous, init, now, a);
      var k :| 0 <= k < |init| && init[k].id == a.sensorId &&
        previous[a.sensorId] - init[k].distance >= AlertDrop && a.currentDistance == init[k].distance;
      assert sensors[k] == init[k];
    } else {
      assert AlertFor(previous, s, now) == Some(a);
      assert sensors[|sensors| - 1] == s;
    }
  }

  /** Every reading that dropped by AlertDrop or more since the last poll raises its alert. */
  lemma {:induction false} DropRaises(previous: map<int, real>, sensors: seq<SensorReading>, now: int, k: nat)
    requires k < |sensors|
    requires sensors[k].id in previous && previous[sensors[k].id] - sensors[k].distance >= AlertDrop
    ensures AlertFor(previous, sensors[k], now).Some?
    ensures AlertFor(previous, sensors[k], now).value in Raised(previous, sensors, now)
  {
    var n := |sensors|;
    if k < n - 1 {
      DropRaises(previous, sensors[..n - 1], now, k);
    }
  }

  /** The ids of the polled sensors. */
  function PolledIds(sensors: seq<SensorReading>): (ids: set<int>)
    ensures forall id :: id in ids <==> exists k :: 0 <= k < |sensors| && sensors[k].id == id
  {
    if sensors == [] then {}
    else PolledIds(sensors[..|sensors| - 1]) + {sensors[|sensors| - 1].id}
  }

  /**
   * After a poll the remembered ids are the old ones plus the polled ones;
   * an id that was not polled keeps its distance, and each polled id
   * holds the distance of the last sensor carrying it.
   */
  lemma {:induction false} RememberLatest(previous: map<int, real>, sensors: seq<SensorReading>)
    ensures Remember(previous, sensors).Keys == previous.Keys + PolledIds(sensors)
    ensures forall id :: id in previous && id !in PolledIds(sensors) ==>
      Remember(previous, sensors)[id] == previous[id]
    ensures sensors != [] ==>
      Remember(previous, sensors)[sensors[|sensors| - 1].id] == sensors[|sensors| - 1].distance
    ensures forall k :: 0 <= k < |sensors| && (forall j :: k < j < |sensors| ==> sensors[j].id != sensors[k].id) ==>
      Remember(previous, sensors)[sensors[k].id] == sensors[k].distance
  {
    if sensors != [] {
      RememberLatest(previous, sensors[..|sensors| - 1]);
      forall k | 0 <= k < |sensors| && (forall j :: k < j < |sensors| ==> sensors[j].id != sensors[k].id)
        ensures Remember(previous, sensors)[sensors[k].id] == sensors[k].distance
      {
        RememberLastOccurrence(previous, sensors, k);
      }
    }
  }

  /** A sensor that no later sensor of the poll shares an id with leaves its distance under that id. */
  lemma {:induction false} RememberLastOccurrence(previous: map<int, real>, sensors: seq<SensorReading>, k: nat)
    requires k < |sensors| && forall j :: k < j < |sensors| ==> sensors[j].id != sensors[k].id
    ensures sensors[k].id in Remember(previous, sensors)
    ensures Remember(previous, sensors)[sensors[k].id] == sensors[k].distance
  {
    var init := sensors[..|sensors| - 1];
    if k < |init| {
      forall j | k < j < |init| ensures init[j].id != init[k].id {
        assert init[j] == sensors[j];
      }
      RememberLastOccurrence(previous, init, k);
      assert sensors[|sensors| - 1].id != init[k].id;
    }
  }

  /** RemoveById keeps exactly the alerts whose id differs, and never lengthens the list. */
  lemma {:induction false} RemoveByIdShrinks(alerts: seq<Alert>, id: AlertId)
    ensures |RemoveById(alerts, id)| <= |alerts|
    ensures forall a :: a in RemoveById(alerts, id) <==> a in alerts && a.id != id
  {
    if alerts != [] {
      RemoveByIdShrinks(alerts[1..], id);
      assert alerts == [alerts[0]] + alerts[1..];
    }
  }

  /** A single alert is kept exactly when it carries another id. */
  lemma RemoveByIdSingle(a: Alert, id: AlertId)
    ensures RemoveById([a], id) == if a.id == id then [] else [a]
  {
    assert [a][1..] == [];
  }

  /**
   * Dismissing works alert by alert and keeps the order: dismissing from a
   * concatenation is the concatenation of the dismissals. With
   * RemoveByIdSingle, this makes RemoveById the order-preserving filter
   * of the alerts with another id, duplicates included.
   */
  lemma {:induction false} RemoveByIdAppend(a: seq<Alert>, b: seq<Alert>, id: AlertId)
    ensures RemoveById(a + b, id) == RemoveById(a, id) + RemoveById(b, id)
    decreases |a|
  {
    if a == [] {
      assert a + b == b;
    } else {
      RemoveByIdAppend(a[1..], b, id);
      var ab := a + b;
      assert ab[0] == a[0] && ab[1..] == a[1..] + b;
      var head := if a[0].id == id then [] else [a[0]];
      calc {
        RemoveById(ab, id);
        head + RemoveById(a[1..] + b, id);
        head + (RemoveById(a[1..], id) + RemoveById(b, id));
        (head + RemoveById(a[1..], id)) + RemoveById(b, id);
      }
    }
  }

  /** Dismissing an id no alert carries changes nothing; dismissing twice is dismissing once. */
  lemma {:induction false} RemoveByIdIdempotent(alerts: seq<Alert>, id: AlertId)
    ensures (forall a :: a in alerts ==> a.id != id) ==> RemoveById(alerts, id) == alerts
    ensures RemoveById(RemoveById(alerts, id), id) == RemoveById(alerts, id)
  {
    if alerts != [] {
      RemoveByIdIdempotent(alerts[1..], id);
      var rest := RemoveById(alerts[1..], id);
      if alerts[0].id != id {
        var once := [alerts[0]] + rest;
        assert RemoveById(alerts, id) == once;
        assert once[0] == alerts[0] && once[1..] == rest;
        assert RemoveById(once, id) == [alerts[0]] + RemoveById(rest, id);
      } else {
        assert RemoveById(alerts, id) == rest;
      }
    }
  }

  /**
   * The documented scenario for sensor US-02: 85 cm, then 45 cm, then 40 cm.
   * The second poll raises one alert with change 40; the third raises none.
   */
  lemma UsTwoScenario(s: SensorReading)
    requires s == DummySensors[1]
    ensures Raised(map[], [s.(distance := 85.0)], 1) == []
    ensures Raised(map[2 := 85.0], [s.(distance := 45.0)], 2) ==
      [Alert(AlertId(2, 2), 2, 2, "US-02", 85.0, 45.0, 40.0)]
    ensures Raised(map[2 := 45.0], [s.(distance := 40.0)], 3) == []
  {
    assert [s.(distance := 85.0)][..0] == [];
    assert [s.(distance := 45.0)][..0] == [];
    assert [s.(distance := 40.0)][..0] == [];
  }
}
