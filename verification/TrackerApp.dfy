/**
 * The `ParkingTracker` application object: the parking-area corners set by
 * mouse clicks, the per-frame pipeline (area filter, merge, track, spot
 * occupancy, warnings) and the LED/buzzer state that `handle_warning` drives.
 */
module TrackerApp {
  import opened Wrappers
  import opened Geometry
  import opened Vehicles
  import opened Merging
  import opened Tracking
  import opened Occupancy
  import opened Warnings

  /** The four corners the tracker starts with and returns to on the 'r' key. */
  const DefaultParkingArea: seq<Point> := [Point(205, 17), Point(997, 13), Point(1031, 695), Point(209, 717)]

  // ---------------------------------------------------------------------
  // The parking area filter of `detect_cars_by_color`

  /** A center counts when the area is not a full quadrilateral, or when it lies inside it. */
  predicate InArea(area: seq<Point>, p: Point)
  {
    |area| != 4 || Inside(p, area)
  }

  /** The detections the area filter keeps, in their order. */
  function KeptInArea(area: seq<Point>, bs: seq<Blob>): (r: seq<Blob>)
    ensures |r| <= |bs|
  {
    if bs == [] then []
    else if InArea(area, bs[|bs| - 1].center) then KeptInArea(area, bs[..|bs| - 1]) + [bs[|bs| - 1]]
    else KeptInArea(area, bs[..|bs| - 1])
  }

  /**
   * The filter keeps exactly the detections whose center counts, and keeps
   * everything while fewer or more than four corners are set.
   */
  lemma {:induction false} KeptInAreaSpec(area: seq<Point>, bs: seq<Blob>)
    ensures forall k :: 0 <= k < |KeptInArea(area, bs)| ==>
      InArea(area, KeptInArea(area, bs)[k].center) && KeptInArea(area, bs)[k] in bs
    ensures forall k :: 0 <= k < |bs| && InArea(area, bs[k].center) ==> bs[k] in KeptInArea(area, bs)
    ensures |area| != 4 ==> KeptInArea(area, bs) == bs
  {
    if bs != [] {
      var init := bs[..|bs| - 1];
      KeptInAreaSpec(area, init);
      assert bs == init + [bs[|bs| - 1]];
    }
  }

  /** A single detection is kept exactly when its center counts. */
  lemma KeptInAreaSingle(area: seq<Point>, x: Blob)
    ensures KeptInArea(area, [x]) == if InArea(area, x.center) then [x] else []
  {
    assert [x][..0] == [];
  }

  /**
   * The filter is order-preserving: the filter of a concatenation is the
   * concatenation of the filters. With KeptInAreaSingle, this makes it the
   * filter that keeps each counting detection in place.
   */
  lemma {:induction false} KeptInAreaAppend(area: seq<Point>, a: seq<Blob>, b: seq<Blob>)
    ensures KeptInArea(area, a + b) == KeptInArea(area, a) + KeptInArea(area, b)
    decreases |b|
  {
    if b == [] {
      assert a + b == a;
    } else {
      var init, last := b[..|b| - 1], b[|b| - 1];
      KeptInAreaAppend(area, a, init);
      var ab := a + b;
      assert ab[..|ab| - 1] == a + init && ab[|ab| - 1] == last;
      if InArea(area, last.center) {
        calc {
          KeptInArea(area, ab);
          KeptInArea(area, a + init) + [last];
          KeptInArea(area, a) + KeptInArea(area, init) + [last];
        }
      }
    }
  }

  /** The area test inside the contour loop: skip a detection whose center is outside a four-corner area. */
  method KeepInArea(area: seq<Point>, bs: seq<Blob>) returns (kept: seq<Blob>)
    ensures kept == KeptInArea(area, bs)
  {
    kept := [];
    var i: nat := 0;
    while i < |bs|
      invariant i <= |bs|
      invariant kept == KeptInArea(area, bs[..i])
    {
      assert bs[..i + 1][..i] == bs[..i];
      var inside := true;
      if |area| == 4 {
        inside := PointInPolygon(bs[i].center, area);
      }
      if inside {
        kept := kept + [bs[i]];
      }
      i := i + 1;
    }
    assert bs[..|bs|] == bs;
  }

  // ---------------------------------------------------------------------
  // Setting the parking area with the mouse

  /** The corners clicked so far and whether setup is still taking clicks. */
  datatype AreaSetup = AreaSetup(area: seq<Point>, setting: bool)

  /** What happens in the setup window: a left click, or the 'r' or 'q' key. */
  datatype SetupEvent = LeftClick(p: Point) | ResetKey | QuitKey

  /** Setup never holds more than four corners, and fewer than four while it takes clicks. */
  predicate Bounded(s: AreaSetup)
  {
    |s.area| <= 4 && (s.setting ==> |s.area| < 4)
  }

  /** `mouse_callback` on a left click: while setting, add the corner and stop at the fourth. */
  function Click(s: AreaSetup, p: Point): (r: AreaSetup)
    ensures Bounded(s) ==> Bounded(r)
    ensures s.setting && !r.setting ==> |r.area| == 4
  {
    if s.setting then AreaSetup(s.area + [p], |s.area + [p]| != 4) else s
  }

  /**
   * The loop of `setup_parking_area` over a run of events: it stops when
   * setup is no longer taking clicks, on 'q', or when the events run out;
   * 'r' drops the corners clicked so far.
   */
  function SetupRun(s: AreaSetup, events: seq<SetupEvent>): (r: AreaSetup)
    ensures Bounded(s) ==> Bounded(r)
    ensures s.setting && !r.setting ==> |r.area| == 4
    decreases |events|
  {
    if events == [] || !s.setting then s
    else match events[0]
      case LeftClick(p) => SetupRun(Click(s, p), events[1..])
      case ResetKey => SetupRun(s.(area := []), events[1..])
      case QuitKey => s
  }

  function Clicks(ps: seq<Point>): (r: seq<SetupEvent>)
    ensures |r| == |ps|
  {
    if ps == [] then [] else [LeftClick(ps[0])] + Clicks(ps[1..])
  }

  /**
   * Clicks that bring the corners to four end setup with exactly those
   * corners, and whatever follows is ignored.
   */
  lemma {:induction false} ClicksComplete(s: AreaSetup, ps: seq<Point>, rest: seq<SetupEvent>)
    requires s.setting && |ps| > 0 && |s.area| + |ps| == 4
    ensures SetupRun(s, Clicks(ps) + rest) == AreaSetup(s.area + ps, false)
    decreases |ps|
  {
    var next := Click(s, ps[0]);
    assert SetupRun(s, Clicks(ps) + rest) == SetupRun(next, Clicks(ps[1..]) + rest) by {
      assert Clicks(ps) + rest == [LeftClick(ps[0])] + (Clicks(ps[1..]) + rest);
    }
    if |ps| == 1 {
      assert next == AreaSetup(s.area + ps, false);
    } else {
      assert next == AreaSetup(s.area + [ps[0]], true);
      ClicksComplete(next, ps[1..], rest);
      assert next.area + ps[1..] == s.area + ps;
    }
  }

  /**
   * What one analysis pass makes of the detections cur, from the vehicles,
   * the counter and the spots before it: cur tracked; the counter moved on
   * by one per unmatched detection; the spots the tracked vehicles occupy;
   * and the sensor warnings followed by the collision warnings.
   */
  predicate Analysis(prev: seq<Tracked>, nextId: int, spots: seq<Spot>, cur: seq<Blob>,
                     detected: seq<Tracked>, nextIdAfter: int, spotsAfter: seq<Spot>, warnings: seq<Warning>)
  {
    && TrackedFrom(prev, nextId, cur, detected)
    && nextIdAfter == nextId + FreshBefore(prev, cur, |cur|)
    && spotsAfter == Occupied(spots, detected)
    && warnings == SensorWarnings(detected) + Collisions(detected)
  }

  /** From a fresh setup, four clicks set the area to those four corners and end setup. */
  lemma FourClicksSetArea(ps: seq<Point>, rest: seq<SetupEvent>)
    requires |ps| == 4
    ensures SetupRun(AreaSetup([], true), Clicks(ps) + rest) == AreaSetup(ps, false)
  {
    ClicksComplete(AreaSetup([], true), ps, rest);
  }

  // ---------------------------------------------------------------------
  // The application object

  class ParkingTracker {
    var parkingArea: seq<Point>
    var settingArea: bool
    var parkingSpots: seq<Spot>
    var previousVehicles: seq<Tracked>
    var nextVehicleId: int
    var lastWarningTime: real
    var frameCount: nat
    /** The output levels of the LED and buzzer pins. */
    var led: bool
    var buzzer: bool

    /**
     * At most four corners, the eight spots keep their ids and boxes, and
     * every remembered vehicle's id is below the next fresh id.
     */
    predicate Valid()
      reads this
    {
      |parkingArea| <= 4
      && SameLayout(parkingSpots, ParkingSpots)
      && IdsBelow(previousVehicles, nextVehicleId)
    }

    constructor()
      ensures Valid()
      ensures parkingArea == DefaultParkingArea && !settingArea
      ensures parkingSpots == ParkingSpots
      ensures previousVehicles == [] && nextVehicleId == 1
      ensures lastWarningTime == 0.0 && frameCount == 0
      ensures !led && !buzzer
    {
      parkingArea := DefaultParkingArea;
      settingArea := false;
      parkingSpots := ParkingSpots;
      previousVehicles := [];
      nextVehicleId := 1;
      lastWarningTime := 0.0;
      frameCount := 0;
      led := false;
      buzzer := false;
    }

    /** `mouse_callback`: only a left button press while setting adds a corner. */
    method MouseCallback(leftButtonDown: bool, p: Point)
      modifies this`parkingArea, this`settingArea
      ensures AreaSetup(parkingArea, settingArea)
        == if leftButtonDown then Click(AreaSetup(old(parkingArea), old(settingArea)), p)
           else AreaSetup(old(parkingArea), old(settingArea))
    {
      if settingArea && leftButtonDown {
        parkingArea := parkingArea + [p];
        if |parkingArea| == 4 {
          settingArea := false;
        }
      }
    }

    /**
     * `setup_parking_area` in GUI mode: start over with no corners and take
     * events until setup ends, 'q' is pressed or the events run out.
     */
    method SetupParkingArea(events: seq<SetupEvent>)
      requires Valid()
      modifies this`parkingArea, this`settingArea
      ensures Valid()
      ensures AreaSetup(parkingArea, settingArea) == SetupRun(AreaSetup([], true), events)
    {
      settingArea := true;
      parkingArea := [];
      var i: nat := 0;
      while settingArea && i < |events|
        invariant i <= |events|
        invariant Bounded(AreaSetup(parkingArea, settingArea))
        invariant SetupRun(AreaSetup(parkingArea, settingArea), events[i..]) == SetupRun(AreaSetup([], true), events)
        decreases |events| - i
      {
        assert events[i..][0] == events[i] && events[i..][1..] == events[i + 1..];
        match events[i] {
          case LeftClick(p) =>
            MouseCallback(true, p);
          case ResetKey =>
            parkingArea := [];
          case QuitKey =>
            break;
        }
        i := i + 1;
      }
    }

    /** The 'r' key in the main loop: the default corners again, and every spot free. */
    method ResetToDefaults()
      requires Valid()
      modifies this`parkingArea, this`parkingSpots
      ensures Valid()
      ensures parkingArea == DefaultParkingArea
      ensures parkingSpots == Cleared(old(parkingSpots))
    {
      parkingArea := DefaultParkingArea;
      OccupiedKeepsLayout(parkingSpots, []);
      parkingSpots := ClearSpots(parkingSpots);
    }

    /**
     * `track_vehicles` on the tracker's own state: the tracked vehicles
     * replace the previous ones and the fresh-id counter moves past every id
     * handed out.
     */
    method TrackVehicles(current: seq<Blob>) returns (tracked: seq<Tracked>)
      requires Valid()
      modifies this`previousVehicles, this`nextVehicleId
      ensures Valid()
      ensures previousVehicles == tracked
      ensures TrackedFrom(old(previousVehicles), old(nextVehicleId), current, tracked)
      ensures nextVehicleId == old(nextVehicleId) + FreshBefore(old(previousVehicles), current, |current|)
    {
      var prev, nextId := previousVehicles, nextVehicleId;
      var after;
      tracked, after := Tracking.TrackVehicles(prev, nextId, current);
      TrackedIdsBelow(prev, nextId, current, tracked);
      previousVehicles := tracked;
      nextVehicleId := after;
    }

    /**
     * The end of `detect_cars_by_color`: the shape-filtered detections are
     * cut to the parking area, merged and tracked.
     */
    method DetectCars(candidates: seq<Blob>) returns (detected: seq<Tracked>)
      requires Valid()
      modifies this`previousVehicles, this`nextVehicleId
      ensures Valid()
      ensures previousVehicles == detected
      ensures var m := Merged(KeptInArea(parkingArea, candidates));
        && TrackedFrom(old(previousVehicles), old(nextVehicleId), m, detected)
        && nextVehicleId == old(nextVehicleId) + FreshBefore(old(previousVehicles), m, |m|)
    {
      var kept := KeepInArea(parkingArea, candidates);
      var merged := MergeNearbyVehicles(kept);
      detected := TrackVehicles(merged);
    }

    /** `check_spot_occupancy` on the tracker's spots. */
    method CheckSpotOccupancy(vehicles: seq<Tracked>)
      requires Valid()
      modifies this`parkingSpots
      ensures Valid()
      ensures parkingSpots == Occupied(old(parkingSpots), vehicles)
    {
      OccupiedKeepsLayout(parkingSpots, vehicles);
      parkingSpots := Occupancy.CheckSpotOccupancy(parkingSpots, vehicles);
    }

    /**
     * `handle_warning` at time `now`: no list counts as an empty one; fire
     * the LED and buzzer and remember the time when there are warnings and
     * the cooldown has passed, switch them off when there are none, and
     * otherwise leave them as they are.
     */
    method HandleWarning(allWarnings: Option<seq<Warning>>, now: real)
      modifies this`led, this`buzzer, this`lastWarningTime
      ensures var ws := if allWarnings.Some? then allWarnings.value else [];
        Outputs(led, buzzer, lastWarningTime)
          == HandleWarningEffect(|ws| > 0, now, Outputs(old(led), old(buzzer), old(lastWarningTime)))
    {
      var ws := if allWarnings.Some? then allWarnings.value else [];
      if |ws| > 0 && now - lastWarningTime > WarningCooldown {
        led := true;
        buzzer := true;
        lastWarningTime := now;
      } else if |ws| == 0 {
        led := false;
        buzzer := false;
      }
    }

    /** `turn_off_warnings`: both outputs low. */
    method TurnOffWarnings()
      modifies this`led, this`buzzer
      ensures !led && !buzzer
    {
      led := false;
      buzzer := false;
    }

    /**
     * The analysis half of a pass of the main loop: detect, update the spots
     * and gather the sensor and collision warnings that `draw_interface`
     * returns.
     */
    method AnalyzeFrame(candidates: seq<Blob>) returns (detected: seq<Tracked>, warnings: seq<Warning>)
      requires Valid()
      modifies this`previousVehicles, this`nextVehicleId, this`parkingSpots
      ensures Valid()
      ensures previousVehicles == detected
      ensures Analysis(old(previousVehicles), old(nextVehicleId), old(parkingSpots), Merged(KeptInArea(parkingArea, candidates)), detected, nextVehicleId, parkingSpots, warnings)
    {
      detected := DetectCars(candidates);
      CheckSpotOccupancy(detected);
      var sensorWarnings := CalculateDistanceToSensors(detected);
      var collisionWarnings := CheckVehicleCollisions(detected);
      warnings := sensorWarnings + collisionWarnings;
    }

    /**
     * One pass of the main loop at time `now`: count the frame, detect,
     * update the spots, gather sensor and collision warnings and hand them
     * to `handle_warning`.
     */
    method ProcessFrame(candidates: seq<Blob>, now: real) returns (detected: seq<Tracked>, warnings: seq<Warning>)
      requires Valid()
      modifies this`frameCount, this`previousVehicles, this`nextVehicleId, this`parkingSpots,
               this`led, this`buzzer, this`lastWarningTime
      ensures Valid()
      ensures frameCount == old(frameCount) + 1
      ensures previousVehicles == detected
      ensures Analysis(old(previousVehicles), old(nextVehicleId), old(parkingSpots), Merged(KeptInArea(parkingArea, candidates)), detected, nextVehicleId, parkingSpots, warnings)
      ensures Outputs(led, buzzer, lastWarningTime)
        == HandleWarningEffect(|warnings| > 0, now, Outputs(old(led), old(buzzer), old(lastWarningTime)))
    {
      frameCount := frameCount + 1;
      detected, warnings := AnalyzeFrame(candidates);
      HandleWarning(Some(warnings), now);
    }
  }
}
