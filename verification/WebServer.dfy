/**
 * The `ParkingTrackerWebServer` object: the frame-processing step of its
 * worker thread, its GPIO-guarded warning output and the status report the
 * `/status` endpoint serves.
 */
module WebServer {
  import opened Wrappers
  import opened Geometry
  import opened Vehicles
  import opened Tracking
  import opened Occupancy
  import opened Warnings
  import opened TrackerApp

  /** A frame counts as recent for this many seconds. */
  const ActiveWindow: real := 5.0

  /** One row of the status report's parking list. */
  datatype SpotStatus = SpotStatus(id: int, occupied: bool, vehicleId: Option<int>, vehicleColor: Option<Color>)

  /** What `get_status` reports. */
  datatype Status = Status(
    active: bool,
    width: int, height: int, fps: int,
    frameCount: nat,
    totalVehicles: nat,
    blue: nat, yellow: nat, white: nat,
    parkingStatus: seq<SpotStatus>,
    activeWarnings: nat,
    warnings: seq<Warning>,
    gpioAvailable: bool)

  function StatusOf(s: Spot): SpotStatus
  {
    SpotStatus(s.id, s.occupied, s.vehicleId, s.vehicleColor)
  }

  class ParkingTrackerWebServer {
    const width: int
    const height: int
    const fps: int
    /** Whether the GPIO library could be loaded. */
    const gpioAvailable: bool
    /** The corners of the parking area; the server never changes them. */
    const parkingArea: seq<Point>
    var parkingSpots: seq<Spot>
    var previousVehicles: seq<Tracked>
    var nextVehicleId: int
    var lastWarningTime: real
    var lastFrameTime: real
    var frameCount: nat
    var detectedVehicles: seq<Tracked>
    var currentWarnings: seq<Warning>
    /** The output levels of the LED and buzzer pins. */
    var led: bool
    var buzzer: bool

    /**
     * The spots keep their ids and boxes, remembered ids are below the next
     * fresh id, the reported vehicles are the remembered ones, and the
     * reported warnings are exactly the sensor and collision warnings for
     * them.
     */
    predicate Valid()
      reads this`parkingSpots, this`previousVehicles, this`nextVehicleId, this`detectedVehicles, this`currentWarnings
    {
      && SameLayout(parkingSpots, ParkingSpots)
      && IdsBelow(previousVehicles, nextVehicleId)
      && detectedVehicles == previousVehicles
      && currentWarnings == SensorWarnings(detectedVehicles) + Collisions(detectedVehicles)
    }

    constructor(width: int, height: int, fps: int, gpioAvailable: bool)
      ensures Valid()
      ensures this.width == width && this.height == height && this.fps == fps
      ensures this.gpioAvailable == gpioAvailable
      ensures parkingArea == DefaultParkingArea
      ensures parkingSpots == ParkingSpots
      ensures previousVehicles == [] && nextVehicleId == 1
      ensures lastWarningTime == 0.0 && lastFrameTime == 0.0 && frameCount == 0
      ensures detectedVehicles == [] && currentWarnings == []
      ensures !led && !buzzer
    {
      this.width := width;
      this.height := height;
      this.fps := fps;
      this.gpioAvailable := gpioAvailable;
      parkingArea := DefaultParkingArea;
      parkingSpots := ParkingSpots;
      previousVehicles := [];
      nextVehicleId := 1;
      lastWarningTime := 0.0;
      lastFrameTime := 0.0;
      frameCount := 0;
      detectedVehicles := [];
      currentWarnings := [];
      led := false;
      buzzer := false;
      new;
      assert SensorWarnings([]) == [] && Collisions([]) == [];
    }

    /** `track_vehicles` on the server's own state. */
    method TrackVehicles(current: seq<Blob>) returns (tracked: seq<Tracked>)
      requires IdsBelow(previousVehicles, nextVehicleId)
      modifies this`previousVehicles, this`nextVehicleId
      ensures IdsBelow(previousVehicles, nextVehicleId)
      ensures previousVehicles == tracked
      ensures TrackedFrom(old(previousVehicles), old(nextVehicleId), current, tracked)
      ensures nextVehicleId == old(nextVehicleId) + FreshBefore(old(previousVehicles), current, |current|)
    {
      var prev, nextId := previousVehicles, nextVehicleId;
      var after;
      tracked, after := Tracking.TrackVehicles(prev, nextId, current);
      TrackedIdsBelow(prev, nextId, current, tracked);
      previousVehicles := tracked;
      nextVehicleId := after;
    }

    /**
     * The end of the server's `detect_cars_by_color`: the shape-filtered
     * detections are cut to the parking area and tracked, with no
     * merging step.
     */
    method DetectCars(candidates: seq<Blob>) returns (detected: seq<Tracked>)
      requires IdsBelow(previousVehicles, nextVehicleId)
      modifies this`previousVehicles, this`nextVehicleId
      ensures IdsBelow(previousVehicles, nextVehicleId)
      ensures previousVehicles == detected
      ensures TrackedFrom(old(previousVehicles), old(nextVehicleId), KeptInArea(parkingArea, candidates), detected)
      ensures nextVehicleId == old(nextVehicleId)
        + FreshBefore(old(previousVehicles), KeptInArea(parkingArea, candidates), |KeptInArea(parkingArea, candidates)|)
    {
      var kept := KeepInArea(parkingArea, candidates);
      detected := TrackVehicles(kept);
    }

    /** `check_spot_occupancy` on the server's spots. */
    method CheckSpotOccupancy(vehicles: seq<Tracked>)
      requires SameLayout(parkingSpots, ParkingSpots)
      modifies this`parkingSpots
      ensures SameLayout(parkingSpots, ParkingSpots)
      ensures parkingSpots == Occupied(old(parkingSpots), vehicles)
    {
      OccupiedKeepsLayout(parkingSpots, vehicles);
      parkingSpots := Occupancy.CheckSpotOccupancy(parkingSpots, vehicles);
    }

    /**
     * The server's `handle_warning` at time `now`: nothing at all without
     * GPIO; otherwise the same cooldown gate as the tracker's.
     */
    method HandleWarning(allWarnings: seq<Warning>, now: real)
      modifies this`led, this`buzzer, this`lastWarningTime
      ensures !gpioAvailable ==> led == old(led) && buzzer == old(buzzer) && lastWarningTime == old(lastWarningTime)
      ensures gpioAvailable ==>
        Outputs(led, buzzer, lastWarningTime)
          == HandleWarningEffect(|allWarnings| > 0, now, Outputs(old(led), old(buzzer), old(lastWarningTime)))
    {
      if !gpioAvailable {
        return;
      }
      if |allWarnings| > 0 && now - lastWarningTime > WarningCooldown {
        led := true;
        buzzer := true;
        lastWarningTime := now;
      } else if |allWarnings| == 0 {
        led := false;
        buzzer := false;
      }
    }

    /** `turn_off_warnings`: both outputs low, when there is GPIO. */
    method TurnOffWarnings()
      modifies this`led, this`buzzer
      ensures gpioAvailable ==> !led && !buzzer
      ensures !gpioAvailable ==> led == old(led) && buzzer == old(buzzer)
    {
      if gpioAvailable {
        led := false;
        buzzer := false;
      }
    }

    /**
     * The analysis half of a pass of `_process_frames`: detect, update the
     * spots and gather the sensor and collision warnings.
     */
    method AnalyzeFrame(candidates: seq<Blob>) returns (detected: seq<Tracked>, warnings: seq<Warning>)
      requires SameLayout(parkingSpots, ParkingSpots) && IdsBelow(previousVehicles, nextVehicleId)
      modifies this`previousVehicles, this`nextVehicleId, this`parkingSpots
      ensures SameLayout(parkingSpots, ParkingSpots) && IdsBelow(previousVehicles, nextVehicleId)
      ensures previousVehicles == detected
      ensures Analysis(old(previousVehicles), old(nextVehicleId), old(parkingSpots), KeptInArea(parkingArea, candidates), detected, nextVehicleId, parkingSpots, warnings)
    {
      detected := DetectCars(candidates);
      CheckSpotOccupancy(detected);
      var sensorWarnings := CalculateDistanceToSensors(detected);
      var collisionWarnings := CheckVehicleCollisions(detected);
      warnings := sensorWarnings + collisionWarnings;
    }

    /** The tail of a pass: drive the outputs when there is GPIO and publish the frame's results. */
    method Publish(detected: seq<Tracked>, warnings: seq<Warning>, now: real)
      requires SameLayout(parkingSpots, ParkingSpots) && IdsBelow(previousVehicles, nextVehicleId)
      requires previousVehicles == detected && warnings == SensorWarnings(detected) + Collisions(detected)
      modifies this`led, this`buzzer, this`lastWarningTime, this`detectedVehicles, this`currentWarnings, this`lastFrameTime
      ensures Valid()
      ensures detectedVehicles == detected && currentWarnings == warnings && lastFrameTime == now
      ensures !gpioAvailable ==> led == old(led) && buzzer == old(buzzer) && lastWarningTime == old(lastWarningTime)
      ensures gpioAvailable ==>
        Outputs(led, buzzer, lastWarningTime)
          == HandleWarningEffect(|warnings| > 0, now, Outputs(old(led), old(buzzer), old(lastWarningTime)))
    {
      if gpioAvailable {
        HandleWarning(warnings, now);
      }
      detectedVehicles := detected;
      currentWarnings := warnings;
      lastFrameTime := now;
    }

    /**
     * One pass of `_process_frames` at time `now`: count the frame, detect,
     * update the spots, gather the warnings, drive the outputs when there
     * is GPIO, and publish the vehicles, warnings and frame time.
     */
    method ProcessFrame(candidates: seq<Blob>, now: real)
      requires Valid()
      modifies this`frameCount, this`previousVehicles, this`nextVehicleId, this`parkingSpots,
               this`led, this`buzzer, this`lastWarningTime,
               this`detectedVehicles, this`currentWarnings, this`lastFrameTime
      ensures Valid()
      ensures frameCount == old(frameCount) + 1
      ensures Analysis(old(previousVehicles), old(nextVehicleId), old(parkingSpots), KeptInArea(parkingArea, candidates),
                       detectedVehicles, nextVehicleId, parkingSpots, currentWarnings)
      ensures lastFrameTime == now
      ensures !gpioAvailable ==> led == old(led) && buzzer == old(buzzer) && lastWarningTime == old(lastWarningTime)
      ensures gpioAvailable ==>
        Outputs(led, buzzer, lastWarningTime)
          == HandleWarningEffect(|currentWarnings| > 0, now, Outputs(old(led), old(buzzer), old(lastWarningTime)))
    {
      frameCount := frameCount + 1;
      var detected, allWarnings := AnalyzeFrame(candidates);
      Publish(detected, allWarnings, now);
    }

    /**
     * `get_status` at time `now`: active exactly when a frame has been
     * published and it is less than five seconds old; the colour counts add
     * up to the vehicle total; one row per spot, in order, copying what the
     * last check recorded; and the warning count is the number of warnings
     * reported, all of them for the reported vehicles.
     */
    function GetStatus(now: real): (s: Status)
      requires Valid()
      reads this
      ensures s.active <==> lastFrameTime > 0.0 && now - lastFrameTime < ActiveWindow
      ensures s.totalVehicles == |detectedVehicles|
      ensures s.blue + s.yellow + s.white == s.totalVehicles
      ensures s.blue == CountColor(detectedVehicles, Blue)
      ensures s.yellow == CountColor(detectedVehicles, Yellow)
      ensures s.white == CountColor(detectedVehicles, White)
      ensures |s.parkingStatus| == |parkingSpots| == |ParkingSpots|
      ensures forall k :: 0 <= k < |s.parkingStatus| ==>
        s.parkingStatus[k].id == ParkingSpots[k].id
        && s.parkingStatus[k].occupied == parkingSpots[k].occupied
        && s.parkingStatus[k].vehicleId == parkingSpots[k].vehicleId
        && s.parkingStatus[k].vehicleColor == parkingSpots[k].vehicleColor
      ensures s.activeWarnings == |s.warnings|
      ensures s.warnings == SensorWarnings(detectedVehicles) + Collisions(detectedVehicles)
      ensures s.frameCount == frameCount && s.gpioAvailable == gpioAvailable
    {
      ColorCountsSum(detectedVehicles);
      Status(
        lastFrameTime > 0.0 && now - lastFrameTime < ActiveWindow,
        width, height, fps,
        frameCount,
        |detectedVehicles|,
        CountColor(detectedVehicles, Blue), CountColor(detectedVehicles, Yellow), CountColor(detectedVehicles, White),
        SpotStatuses(parkingSpots),
        |currentWarnings|,
        currentWarnings,
        gpioAvailable)
    }
  }

  /** The parking list of the status report, one row per spot. */
  function SpotStatuses(spots: seq<Spot>): (r: seq<SpotStatus>)
    ensures |r| == |spots|
    ensures forall k :: 0 <= k < |spots| ==> r[k] == StatusOf(spots[k])
  {
    if spots == [] then [] else SpotStatuses(spots[..|spots| - 1]) + [StatusOf(spots[|spots| - 1])]
  }
}
