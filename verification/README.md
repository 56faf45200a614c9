# CBNU-SafePark core, modelled in Dafny

CBNU-SafePark watches a model parking lot with a camera and four ultrasonic
sensors.

- **Python detector.** A Raspberry Pi program (`scripts/parking_tracker.py`)
  does the detection. So does its Flask variant
  (`scripts/parking_web_server.py`). The detector works in these steps:
  - it finds coloured vehicles in each frame and keeps those inside a
    four-corner parking area;
  - in the stand-alone tracker only, it merges same-colour detections that
    lie close together;
  - it tracks vehicles across frames by colour and distance, handing out
    fresh ids from a counter;
  - it marks which of eight parking spots each vehicle occupies;
  - it raises warnings for vehicles near a sensor, near a barrier, or near
    each other;
  - it drives an LED and a buzzer with a 1.5-second cooldown.
- **Status report.** The web server also reports its state to a `/status`
  endpoint.
- **Dashboard.** A Next.js dashboard (`lib/api.ts`) merges the backend's
  answers over fixed baseline data. Its notification bell
  (`components/notification-bell.tsx`) raises an alert when a sensor's
  distance drops by 30 cm or more between two polls.

The model is split into these modules:

- `Geometry`: integer points and boxes.
  - Euclidean thresholds are stated on squared distances.
  - It holds the even-odd point-in-polygon test.
- `Vehicles`: detections and tracked vehicles.
- `Merging`: `merge_nearby_vehicles` and `create_merged_vehicle`.
- `Tracking`: `track_vehicles`.
- `Occupancy`: `check_spot_occupancy`.
- `Warnings`: sensor and barrier warnings, collision warnings, and the
  cooldown gate of `handle_warning`.
- `TrackerApp`: the `ParkingTracker` object as a class.
  - Its fields are the parking area, the spots, the previous vehicles, the
    id counter, the frame counter, the LED, the buzzer and the last firing
    time.
  - It holds the mouse-driven area setup and the per-frame pipeline.
- `WebServer`: the `ParkingTrackerWebServer` object as a class.
  - It models one pass of the frame worker, including the GPIO guard.
  - It models `get_status`.
- `Acquisition`: `fetchUltrasonicSensors` and `fetchParkingData`. Every
  network request is reduced to its outcome.
- `AlertMonitor`: the bell's alert list and remembered distances, as a class.

Points that follow the code:

- **Zone counter.** The dashboard's zone counter is counted independently of
  the zone's slots.
  - The two agree only when the backend's spot ids are distinct
    (`Acquisition.OccupiedMatchesSpaces`).
  - `Acquisition.DuplicateIdsDrift` shows a record list where they disagree.
- **Dismissing an alert** removes every alert carrying that id, as the
  list filter does.
- **Merging happens only in the tracker.** The web server's detector tracks
  the area-filtered detections without merging them.

## Model

| member | source | states |
|---|---|---|
| Geometry.WithinIsEuclidean | scripts/parking_tracker.py:531-533 | For any non-negative square root d of the squared distance, `d < limit` holds exactly when the squared integer test holds. Every "closer than" test of the source is modelled by the squared test. |
| Geometry.OddCrossingsIsParity | scripts/parking_tracker.py:535-554 | The inside flag, flipped once per accepted edge, is true exactly when the number of accepted edges is odd. |
| Geometry.PointInPolygon | scripts/parking_tracker.py:535-554 | The loop over the edges, carrying the previous vertex, returns the even-odd verdict `Inside`. The x-intersection is assigned only for non-horizontal edges and is only read where assigned. |
| Geometry.OutsideVerticalRange | scripts/parking_tracker.py:535-554 | A point that is at or above every vertex, or below every vertex, has zero crossings, so it is outside. |
| Geometry.OutsideRightOfAll | scripts/parking_tracker.py:535-554 | A point to the right of every vertex has zero crossings, so it is outside. |
| Vehicles.CountColor | scripts/parking_web_server.py:588-592 | The number of vehicles of one colour is at most the number of vehicles. |
| Vehicles.ColorCountsSum | scripts/parking_tracker.py:62-66 | Every vehicle has one of the three detector colours, so the blue, yellow and white counts add up to the vehicle total. |
| Merging.MinX | scripts/parking_tracker.py:387 | The smallest left edge of the group: it is at most every member's left edge and equals one of them. |
| Merging.MinY | scripts/parking_tracker.py:388 | The smallest top edge of the group: it is at most every member's top edge and equals one of them. |
| Merging.MaxRight | scripts/parking_tracker.py:389 | The largest right edge of the group: it is at least every member's right edge and equals one of them. |
| Merging.MaxBottom | scripts/parking_tracker.py:390 | The largest bottom edge of the group: it is at least every member's bottom edge and equals one of them. |
| Merging.CreateMergedVehicle | scripts/parking_tracker.py:385-404 | The merged box covers every member's box and each of its four edges is a member's edge, so it is the union bounding box. The merged detection also has: the centre at the box's midpoint with halves rounded down; the area equal to the sum of the areas; a merged count equal to the group size; the first member's colour. |
| Merging.CandidatesExact | scripts/parking_tracker.py:367-375 | The detections an inner pass adds to seed i are exactly the unused indices other than i that have i's colour and a centre strictly within 70. Each is added once, in increasing order. |
| Merging.GrowGroup | scripts/parking_tracker.py:364-375 | The inner loop yields the seed followed by its candidates. The used set grows by exactly those indices. |
| Merging.MergeSeed | scripts/parking_tracker.py:360-381 | One outer pass keeps the result so far plus what the remaining seeds produce equal to the merge specification: a used seed is skipped, a lone seed is kept, and a larger group is merged. |
| Merging.MergeNearbyVehicles | scripts/parking_tracker.py:351-383 | Returns `Merged(vs)`: the input unchanged when it has at most one detection. Otherwise, one detection per unused seed in seed order, never more than the input; `MergedPartition` states what those detections are. |
| Merging.Groups | scripts/parking_tracker.py:360-375 | The index groups the seeds form: every group is non-empty and holds only valid indices. |
| Merging.MergeFromGroups | scripts/parking_tracker.py:360-381 | The detections the seeds produce are, one for one and in order, the combinations of the groups they form. |
| Merging.GroupFresh | scripts/parking_tracker.py:364-375 | A seed's group repeats no index and takes no index that is already used. |
| Merging.GroupsPartition | scripts/parking_tracker.py:358-375 | The groups use each index at most once and never an index already used. When every index below the seed is used, every unused index lands in some group. |
| Merging.GroupJoinsSeed | scripts/parking_tracker.py:367-375 | The group one seed forms: every member after the seed has the seed's colour and a centre strictly within 70 of it. |
| Merging.GroupsJoinSeed | scripts/parking_tracker.py:367-375 | Every member of a group after the first has the first member's colour and a centre strictly within 70 of it. |
| Merging.MergedPartition | scripts/parking_tracker.py:351-404 | With more than one detection, the groups partition the input: every detection is in exactly one group, and there is one output per group, its combination (the detection itself when alone, the merged detection otherwise). Every member after the first has the first member's colour and a centre strictly within 70 of it. |
| Tracking.BestAmongSpec | scripts/parking_tracker.py:412-423 | Among the first k previous vehicles, the chosen match has the same colour, is strictly within 100 and is the nearest such vehicle. Ties go to the earliest, because only a strictly closer candidate replaces the choice. There is no match exactly when no previous vehicle qualifies. |
| Tracking.BestMatchSpec | scripts/parking_tracker.py:412-423 | The same, for the whole previous list. |
| Tracking.FindBestMatch | scripts/parking_tracker.py:413-423 | The inner loop, keeping the best distance so far, returns exactly `BestMatch`. |
| Tracking.LastN | scripts/parking_tracker.py:429-430 | The cut history has length min(n, length of the history). |
| Tracking.TrackDetection | scripts/parking_tracker.py:425-435 | One detection becomes the tracked vehicle `TrackOne`. The fresh id is used exactly when there is no match. |
| Tracking.TrackVehicles | scripts/parking_tracker.py:407-441 | Detection k is tracked with the counter plus the number of unmatched detections before it. The counter advances by the number of unmatched detections. |
| Tracking.HistoryShape | scripts/parking_tracker.py:427-434 | Every tracked history is non-empty, at most ten long, and ends at the detection's own centre. |
| Tracking.MatchedInherits | scripts/parking_tracker.py:425-430 | A detection that has any same-colour previous vehicle within 100 takes the id of a nearest such vehicle. |
| Tracking.UnmatchedFresh | scripts/parking_tracker.py:431-434 | A detection with no qualifying previous vehicle gets exactly the fresh id and a one-entry history. |
| Tracking.FreshIdsIncreasing | scripts/parking_tracker.py:433-435 | Of two unmatched detections, the earlier one gets the smaller id. |
| Tracking.FreshIdsInRange | scripts/parking_tracker.py:433-435 | Every fresh id lies between the counter before tracking and the counter after it. |
| Tracking.IdsStayBelow | scripts/parking_tracker.py:425-435 | When the previous ids are below the counter, each tracked id is below the counter after tracking. |
| Tracking.TrackedIdsBelow | scripts/parking_tracker.py:407-441 | Tracking preserves "every remembered id is below the counter". |
| Tracking.FreshIdIsNew | scripts/parking_tracker.py:433-435 | A fresh id differs from every previous id, so a new vehicle never reuses a live id. |
| Tracking.TrackedIdSource | scripts/parking_tracker.py:425-435 | A tracked id is a previous id, which is below the counter, or else the fresh id. |
| Occupancy.Cleared | scripts/parking_tracker.py:485-489 | Every spot is freed and forgets its vehicle. The list keeps its length. |
| Occupancy.FirstSpotFromSpec | scripts/parking_tracker.py:491-504 | The spot searched for from index k is the first spot at or after k whose closed box holds the point. There is none exactly when no such box holds it. |
| Occupancy.FirstSpotSpec | scripts/parking_tracker.py:491-504 | The same, from the first spot. |
| Occupancy.PlaceVehicle | scripts/parking_tracker.py:491-504 | The inner loop marks the first spot holding the vehicle's centre with its id and colour, and stops there. |
| Occupancy.ClearSpots | scripts/parking_tracker.py:485-489 | The first loop returns every spot cleared. |
| Occupancy.CheckSpotOccupancy | scripts/parking_tracker.py:483-504 | The whole check returns `Occupied(spots, vehicles)`. |
| Occupancy.OccupiedKeepsLayout | scripts/parking_tracker.py:483-504 | Clearing and a whole check change no spot's id or box. |
| Occupancy.LastOccupantSpec | scripts/parking_tracker.py:491-504 | The last occupant of spot s lands first in s, and no later vehicle does. There is none exactly when no vehicle lands first in s. |
| Occupancy.OccupiedLaw | scripts/parking_tracker.py:483-504 | After a check, each spot keeps its id and box. It is occupied exactly when some vehicle's centre lands first in it, and then it records the last such vehicle's id and colour. Otherwise it records nothing. |
| Occupancy.SharedEdgeGoesToFirst | scripts/parking_tracker.py:69-78 | Spots 1 and 2 share the edge x = 480. A centre on that edge is inside both boxes but is assigned to spot 1 only. |
| Warnings.WarnNearFixtures | scripts/parking_tracker.py:453-481 | One fixture loop returns the warnings of `NearFixtures`, in fixture order. |
| Warnings.CalculateDistanceToSensors | scripts/parking_tracker.py:443-481 | Returns, vehicle by vehicle, its sensor warnings and then its barrier warnings. |
| Warnings.NearFixturesSound | scripts/parking_tracker.py:453-481 | Every warning is for a fixture strictly within 80 of the vehicle. It carries that fixture's 1-based id and position and the vehicle's id, colour and centre. |
| Warnings.NearFixturesComplete | scripts/parking_tracker.py:453-481 | Every fixture strictly within 80 of the vehicle has its warning. |
| Warnings.NearFixturesSorted | scripts/parking_tracker.py:453-481 | Fixture ids increase strictly along the warnings, so no fixture warns twice for one vehicle. |
| Warnings.UltrasonicBeforeBarrier | scripts/parking_tracker.py:453-481 | A vehicle's warnings are all fixture warnings, and all its ultrasonic warnings come before all its barrier warnings. |
| Warnings.CheckVehicleCollisions | scripts/parking_tracker.py:506-530 | The two loops return `Collisions(vs)`. |
| Warnings.CollisionLoops | scripts/parking_tracker.py:508-529 | The loops, run against any pair set that agrees with the distance test, return the collisions of every row. |
| Warnings.RowLoop | scripts/parking_tracker.py:510-528 | The inner loop for vehicle i appends a warning for each later vehicle, in order, whose centre is strictly within 100. |
| Warnings.RowWarningsStep | scripts/parking_tracker.py:510-528 | Column j appends the warning for (i, j) exactly when i < j and the two centres are strictly within 100. |
| Warnings.PairsBelowSound | scripts/parking_tracker.py:508-529 | Every enumerated pair (a, b) has a < b < n and is accepted by the test. |
| Warnings.PairsBelowComplete | scripts/parking_tracker.py:508-529 | Every accepted pair a < b < n is enumerated. |
| Warnings.PairsBelowSorted | scripts/parking_tracker.py:508-529 | The pairs come in strictly increasing lexicographic order, so each is warned about once. |
| Warnings.CollisionPairsExact | scripts/parking_tracker.py:506-530 | There is one collision warning per index pair a < b whose centres are strictly within 100, and none for any other pair. The warnings come in lexicographic order, and each records both vehicles' ids, colours and centres. |
| Warnings.Gate | scripts/parking_tracker.py:610-646 | `handle_warning` fires exactly when there are warnings and more than 1.5 s have passed since the last firing. It switches off exactly when there are none. Otherwise it holds. |
| Warnings.FiringsSpaced | scripts/parking_tracker.py:610-638 | Over any run of frames, consecutive firings are more than the cooldown apart. The first firing is more than the cooldown after the start. The remembered time is the last firing, or the start if nothing fired. |
| Warnings.RunOutputsRemembersLastFiring | scripts/parking_tracker.py:602-646 | After a run of `handle_warning` calls, the remembered time is the run's last firing. After a frame with no warnings, both outputs are low. |
| TrackerApp.KeptInAreaSpec | scripts/parking_tracker.py:318-321 | Every kept detection is an input detection whose centre counts, and every input detection whose centre counts is kept. Everything is kept while the area has other than four corners. |
| TrackerApp.KeptInAreaSingle | scripts/parking_tracker.py:318-321 | A single detection is kept exactly when its centre is inside the four-corner area (or the area has other than four corners). |
| TrackerApp.KeptInAreaAppend | scripts/parking_tracker.py:318-321 | The filter of a concatenation is the concatenation of the filters. With `KeptInAreaSingle`, the filter keeps each counting detection in place, in order and with repeats, and drops the rest. |
| TrackerApp.KeepInArea | scripts/parking_tracker.py:318-321 | The filter inside the contour loop returns `KeptInArea`. |
| TrackerApp.Click | scripts/parking_tracker.py:160-168 | A left click keeps setup within four corners. Setup ends only with exactly four corners. |
| TrackerApp.SetupRun | scripts/parking_tracker.py:203-247 | The setup loop over a run of events ('r' drops the corners, 'q' stops) keeps setup within four corners. It ends only with exactly four. |
| TrackerApp.ClicksComplete | scripts/parking_tracker.py:160-168 | Clicks that bring the corners to four end setup with exactly those corners, in click order. Later events are ignored. |
| TrackerApp.FourClicksSetArea | scripts/parking_tracker.py:203-247 | From a fresh setup, four clicks set the area to those four corners and end setup. |
| TrackerApp.ParkingTracker.constructor | scripts/parking_tracker.py:16-99 | Initial state: the default area, not setting, the eight spots, no previous vehicles, counter 1, last firing 0, frame count 0, both outputs low. |
| TrackerApp.ParkingTracker.MouseCallback | scripts/parking_tracker.py:160-168 | A left-button press follows `Click`. Any other event changes nothing. |
| TrackerApp.ParkingTracker.SetupParkingArea | scripts/parking_tracker.py:198-250 | GUI setup clears the corners, takes events until setup ends, 'q' is pressed or the events run out, and reaches the state `SetupRun` gives. |
| TrackerApp.ParkingTracker.ResetToDefaults | scripts/parking_tracker.py:884-893 | The 'r' key restores the default corners and clears every spot. |
| TrackerApp.ParkingTracker.TrackVehicles | scripts/parking_tracker.py:407-441 | Tracking on the object's state: the result replaces the previous vehicles and the counter advances by the number of unmatched detections. It keeps every remembered id below the counter. |
| TrackerApp.ParkingTracker.DetectCars | scripts/parking_tracker.py:318-349 | Detections are filtered to the area, merged and tracked, in that order. |
| TrackerApp.ParkingTracker.CheckSpotOccupancy | scripts/parking_tracker.py:483-504 | The spots become `Occupied(old spots, vehicles)`, with the layout unchanged. |
| TrackerApp.ParkingTracker.HandleWarning | scripts/parking_tracker.py:602-646 | No list counts as an empty one. The LED, the buzzer and the last firing time then follow the cooldown gate. |
| TrackerApp.ParkingTracker.TurnOffWarnings | scripts/parking_tracker.py:648-651 | Both outputs go low. |
| TrackerApp.ParkingTracker.AnalyzeFrame | scripts/parking_tracker.py:839-846 | Detect, check occupancy, then gather the sensor warnings followed by the collision warnings. `Analysis` relates all of it to the old state: the merged, area-filtered detections are tracked, the id counter moves on by one per unmatched detection, the spots are those the tracked vehicles occupy, and the warnings are theirs. |
| TrackerApp.ParkingTracker.ProcessFrame | scripts/parking_tracker.py:836-849 | One main-loop pass: the frame count goes up by one; the analysis above runs, with the tracked vehicles, the new id counter, the spots and the warnings all stated; and the outputs follow the cooldown gate for this frame's warnings. The object invariant is kept. |
| WebServer.ParkingTrackerWebServer.constructor | scripts/parking_web_server.py:46-129 | Initial state: the default area, the eight spots, counter 1, no vehicles or warnings, frame time and firing time 0, outputs low, and the GPIO flag as given. |
| WebServer.ParkingTrackerWebServer.TrackVehicles | scripts/parking_web_server.py:288-317 | The server's tracking: the same law as the tracker's, on the server's state. |
| WebServer.ParkingTrackerWebServer.DetectCars | scripts/parking_web_server.py:266-286 | Area-filtered detections are tracked, with no merging step. |
| WebServer.ParkingTrackerWebServer.CheckSpotOccupancy | scripts/parking_web_server.py:319-337 | The spots become `Occupied(old spots, vehicles)`, with the layout unchanged. |
| WebServer.ParkingTrackerWebServer.HandleWarning | scripts/parking_web_server.py:426-443 | Without GPIO nothing changes. With GPIO the outputs follow the same cooldown gate as the tracker's. |
| WebServer.ParkingTrackerWebServer.TurnOffWarnings | scripts/parking_web_server.py:445-449 | Both outputs go low when there is GPIO. Otherwise nothing changes. |
| WebServer.ParkingTrackerWebServer.AnalyzeFrame | scripts/parking_web_server.py:179-185 | Detect, check occupancy, then gather the sensor warnings followed by the collision warnings. `Analysis` relates all of it to the old state: the area-filtered detections are tracked, the id counter moves on by one per unmatched detection, the spots are those the tracked vehicles occupy, and the warnings are theirs. |
| WebServer.ParkingTrackerWebServer.Publish | scripts/parking_web_server.py:190-203 | Drives the outputs only when there is GPIO. Publishes the vehicles, the warnings and the frame time, and re-establishes the invariant that the published warnings are the published vehicles' warnings. |
| WebServer.ParkingTrackerWebServer.ProcessFrame | scripts/parking_web_server.py:165-210 | One worker pass: the frame count goes up by one; the analysis runs, with the published vehicles, the new id counter, the spots and the published warnings all stated; the outputs are GPIO-guarded; and the frame time is published. |
| WebServer.ParkingTrackerWebServer.GetStatus | scripts/parking_web_server.py:580-616 | The report is active exactly when a frame was published less than 5 s ago. The colour counts count the published vehicles and add up to their total. The parking list has one row per spot, in order, copying the last check. The warning count equals the number of published warnings, which are exactly the published vehicles' sensor and collision warnings. |
| WebServer.SpotStatuses | scripts/parking_web_server.py:594-602 | One row per spot, in spot order, with that spot's id, flag, vehicle id and colour. |
| Acquisition.FetchUltrasonicSensors | lib/api.ts:215-267 | The result is live exactly when at least one sensor answered, and is the baseline when none did. A sensor that did not answer keeps its baseline record. One that did carries its distance, and its status is occupied exactly when the distance is below its threshold. Ids, names and thresholds never change. |
| Acquisition.SensorIdsFixed | lib/api.ts:235-247 | Sensor ids are always 1 to 4, in order. |
| Acquisition.MapParkingSpots | lib/api.ts:284-307 | The mapping loop builds exactly the zones `ZoneOf(spots, 1)` and `ZoneOf(spots, 5)`. |
| Acquisition.FetchParkingData | lib/api.ts:270-328 | The result is live exactly when both requests succeed, and then carries the status object and the mapped zones. Otherwise it is the baseline data with no status object. |
| Acquisition.MappingLaw | lib/api.ts:297-307 | A record with an id in the zone's range rewrites exactly slot id − first and counts once if occupied. A record outside the range changes nothing. |
| Acquisition.UnnamedSlotEmpty | lib/api.ts:284-307 | A slot that no record names stays empty. |
| Acquisition.OccupiedMatchesSpaces | lib/api.ts:284-307 | With distinct ids, the zone counter equals the number of occupied slots, so it is at most the zone size. |
| Acquisition.DuplicateIdsDrift | lib/api.ts:297-307 | Two records with the same id make the counter and the slots disagree: the counter says 1 while every slot is empty. |
| AlertMonitor.AlertFor | components/notification-bell.tsx:47-63 | A sensor with no remembered distance raises nothing. Otherwise it raises an alert exactly when the distance dropped by 30 or more, and the alert records the sensor, both distances and the drop. |
| AlertMonitor.BadgeFor | components/notification-bell.tsx:115-120 | The badge is hidden exactly when there are no alerts, shows "9+" exactly above nine, and otherwise shows the count. |
| AlertMonitor.PolledIds | components/notification-bell.tsx:69-72 | An id is polled exactly when some sensor of the poll carries it. |
| AlertMonitor.NotificationBell.constructor | components/notification-bell.tsx:20-21 | The bell starts with no alerts and no remembered distances. |
| AlertMonitor.NotificationBell.CheckForAlerts | components/notification-bell.tsx:42-78 | The alert list becomes `Observe` of the old list against the distances remembered before the poll. The remembered distances become `Remember`. |
| AlertMonitor.NotificationBell.Tick | components/notification-bell.tsx:41-88 | A timer tick checks the sensors that `fetchUltrasonicSensors` makes of the request outcomes. |
| AlertMonitor.NotificationBell.RemoveAlert | components/notification-bell.tsx:90-92 | Dismissing drops the alerts with that id and keeps the remembered distances. |
| AlertMonitor.NotificationBell.ClearAllAlerts | components/notification-bell.tsx:94-96 | Clearing leaves no alerts and keeps the remembered distances. |
| AlertMonitor.NotificationBell.BadgeLabel | components/notification-bell.tsx:115-120 | The badge for the current number of alerts. |
| AlertMonitor.PollStep | components/notification-bell.tsx:46-73 | Polling one more sensor pushes its alert, if any, in front. It also remembers that sensor's distance. |
| AlertMonitor.ObserveBounded | components/notification-bell.tsx:65 | A poll never grows the list past 20. |
| AlertMonitor.ObserveIsNewestFirst | components/notification-bell.tsx:42-78 | After a poll, the list is this poll's alerts, newest first, in front of the old list, cut to 20. The oldest alerts are the ones dropped. |
| AlertMonitor.FirstReadingSilent | components/notification-bell.tsx:47-53 | Every raised alert comes from a polled sensor that had a remembered distance. |
| AlertMonitor.DropRaises | components/notification-bell.tsx:50-63 | Every polled sensor whose distance dropped by 30 or more since its remembered distance raises its alert. |
| AlertMonitor.RememberLatest | components/notification-bell.tsx:69-72 | After a poll, the remembered ids are the old ones plus the polled ones. Unpolled ids keep their distance. Each polled id holds the distance of the last sensor of the poll carrying it, so with the distinct ids of `SensorIdsFixed` every sensor's reading is remembered. |
| AlertMonitor.RememberLastOccurrence | components/notification-bell.tsx:69-72 | A sensor whose id no later sensor of the poll carries leaves its own distance remembered under that id. |
| AlertMonitor.RemoveByIdShrinks | components/notification-bell.tsx:90-92 | Dismissing keeps exactly the alerts whose id differs and never lengthens the list. |
| AlertMonitor.RemoveByIdSingle | components/notification-bell.tsx:90-92 | A single alert is kept exactly when it carries another id. |
| AlertMonitor.RemoveByIdAppend | components/notification-bell.tsx:90-92 | Dismissing from a concatenation is the concatenation of the dismissals. With `RemoveByIdSingle`, this makes dismissal the order-preserving filter, duplicates included. |
| AlertMonitor.RemoveByIdIdempotent | components/notification-bell.tsx:90-92 | Dismissing an id that no alert carries changes nothing. Dismissing twice is the same as dismissing once. |
| AlertMonitor.UsTwoScenario | components/notification-bell.tsx:42-78 | Sensor US-02 reads 85, then 45, then 40. The first poll raises nothing, the second raises one alert with change 40, and the third raises nothing. |

## Left out

- Network requests, timeouts and JSON parsing in `lib/api.ts` are reduced to
  their outcomes: `None` for a failed request, `Some` for a parsed body.
  Logging is not modelled.
- React rendering, `useEffect` and the 3-second `setInterval` are not
  modelled. Each tick is `NotificationBell.Tick`, with the poll time as a
  parameter.
- Alert ids are the pair (sensor id, poll time) rather than the
  `${id}-${Date.now()}` string. The `timestamp` is kept as the poll time,
  not a `Date`. The formatted `message` is not kept.
- The effect lists `previousDistances` as a dependency, so React restarts
  the interval and polls again each time the map changes. The model has one
  `Tick` per poll; when the polls happen is not modelled.
- Camera capture and the OpenCV stages of `detect_cars_by_color` are not
  modelled: the HSV masks, morphology, contours, and the area, aspect-ratio,
  extent and perimeter filters. The shape-filtered detections are an input.
- Float-valued fields are not carried: `aspect_ratio`, `extent`, the HSV
  means, and the `distance` stored in each warning. Contour areas are
  `real`.
- `draw_interface`, `calculate_distance_to_boundary`, `trigger_ultrasonic`,
  the console messages and the periodic frame saving are not modelled.
  These are drawing and I/O.
- GPIO pins are modelled as two booleans. The `threading.Timer(0.8)` that
  later calls `turn_off_warnings` is not modelled. `TurnOffWarnings` is the
  call it would make.
- Threads, the lock, Flask routes, the MJPEG stream and
  `scripts/camera_server.py` are not modelled.
- `time.time()` is the parameter `now`. `handle_warning` reads the clock
  separately from the frame; the model gives both the same `now`.
- The headless branch of `setup_parking_area`, which reads corners from
  standard input, is not modelled. `run` only reaches the GUI branch.
- AlertMonitor.AlertFor: computes the drop `previous - current` and compares
  it with 30 in exact `real` arithmetic, not IEEE doubles. Near the boundary
  the two can differ. For example, 45.3 followed by 15.3 is a drop of exactly
  30 here and raises an alert, while in doubles the drop is just below 30 and
  raises none.
- Geometry.PointInPolygon: computes the x-intersection with exact `real`
  division, not floating point.
- TrackerApp.ParkingTracker.SetupParkingArea: also stops when the event
  sequence runs out, where the source waits for more input. After 'q',
  `setting_area` stays as it was, as in the source.
- WebServer.ParkingTrackerWebServer.GetStatus: omits the `status` string
  (it keeps only the boolean it is derived from), the `resolution` string
  (it keeps width and height) and `current_time`.
- WebServer.ParkingTrackerWebServer.HandleWarning: takes a list, not an
  optional one. The server has no `None` guard, and its only caller always
  passes a list.
