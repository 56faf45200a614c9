/**
 * The warnings of the parking tracker and its web server: a vehicle near an
 * ultrasonic sensor or a barrier, two vehicles near each other, and the
 * cooldown that decides when the LED and buzzer fire.
 */
module Warnings {
  import opened Geometry
  import opened Vehicles

  /** Where the four ultrasonic sensors and the two barriers sit in the camera image. */
  const UltrasonicPositions: seq<Point> := [Point(237, 671), Point(267, 60), Point(1025, 109), Point(940, 54)]
  const BarrierPositions: seq<Point> := [Point(1062, 654), Point(959, 386)]

  const WarningDistance: nat := 80
  const CollisionDistance: nat := 100

  datatype Fixture = UltrasonicSensor | Barrier

  /**
   * A warning as the source's dictionaries record it, without the float
   * distance. Fixture ids count from 1.
   */
  datatype Warning =
    | FixtureWarning(kind: Fixture, fixtureId: nat, vehicleId: int, vehicleColor: Color, vehiclePos: Point, fixturePos: Point)
    | CollisionWarning(vehicle1Id: int, vehicle1Color: Color, vehicle1Pos: Point,
                       vehicle2Id: int, vehicle2Color: Color, vehicle2Pos: Point)

  function FixtureWarningFor(v: Tracked, kind: Fixture, positions: seq<Point>, k: nat): Warning
    requires k < |positions|
  {
    FixtureWarning(kind, k + 1, v.id, v.Color(), v.Center(), positions[k])
  }

  // ---------------------------------------------------------------------
  // calculate_distance_to_sensors

  /** The warnings for vehicle v from the first k fixtures of one kind, in fixture order. */
  function NearFixtures(v: Tracked, kind: Fixture, positions: seq<Point>, k: nat): seq<Warning>
    requires k <= |positions|
  {
    if k == 0 then []
    else NearFixtures(v, kind, positions, k - 1)
         + (if Within(v.Center(), positions[k - 1], WarningDistance) then [FixtureWarningFor(v, kind, positions, k - 1)] else [])
  }

  /** The warnings for one vehicle: ultrasonic sensors first, then barriers. */
  function VehicleWarnings(v: Tracked): seq<Warning>
  {
    NearFixtures(v, UltrasonicSensor, UltrasonicPositions, |UltrasonicPositions|)
    + NearFixtures(v, Barrier, BarrierPositions, |BarrierPositions|)
  }

  function SensorWarnings(vs: seq<Tracked>): seq<Warning>
  {
    if vs == [] then [] else SensorWarnings(vs[..|vs| - 1]) + VehicleWarnings(vs[|vs| - 1])
  }

  /** One fixture loop: appends a warning for each fixture strictly within 80 of v, in order. */
  method WarnNearFixtures(v: Tracked, kind: Fixture, positions: seq<Point>) returns (warnings: seq<Warning>)
    ensures warnings == NearFixtures(v, kind, positions, |positions|)
  {
    warnings := [];
    var k: nat := 0;
    while k < |positions|
      invariant k <= |positions|
      invariant warnings == NearFixtures(v, kind, positions, k)
    {
      if DistSq(v.Center(), positions[k]) < WarningDistance * WarningDistance {
        warnings := warnings + [FixtureWarning(kind, k + 1, v.id, v.Color(), v.Center(), positions[k])];
      }
      k := k + 1;
    }
  }

  /** `calculate_distance_to_sensors`: for each vehicle, its sensor warnings, then its barrier warnings. */
  method CalculateDistanceToSensors(vehicles: seq<Tracked>) returns (warnings: seq<Warning>)
    ensures warnings == SensorWarnings(vehicles)
  {
    warnings := [];
    var i: nat := 0;
    while i < |vehicles|
      invariant i <= |vehicles|
      invariant warnings == SensorWarnings(vehicles[..i])
    {
      assert vehicles[..i + 1][..i] == vehicles[..i];
      var near := WarnNearFixtures(vehicles[i], UltrasonicSensor, UltrasonicPositions);
      var atBarrier := WarnNearFixtures(vehicles[i], Barrier, BarrierPositions);
      warnings := warnings + near + atBarrier;
      i := i + 1;
    }
    assert vehicles[..|vehicles|] == vehicles;
  }

  /**
   * Each warning from the first k fixtures is for a fixture among them
   * strictly within 80 of the vehicle, and records the vehicle and the
   * fixture.
   */
  lemma {:induction false} NearFixturesSound(v: Tracked, kind: Fixture, positions: seq<Point>, k: nat)
    requires k <= |positions|
    ensures forall n :: 0 <= n < |NearFixtures(v, kind, positions, k)| ==>
      var w := NearFixtures(v, kind, positions, k)[n];
      && w.FixtureWarning? && 1 <= w.fixtureId <= k
      && w == FixtureWarningFor(v, kind, positions, w.fixtureId - 1)
      && Within(v.Center(), positions[w.fixtureId - 1], WarningDistance)
  {
    if k > 0 {
      NearFixturesSound(v, kind, positions, k - 1);
    }
  }

  /** Every fixture among the first k strictly within 80 of the vehicle has its warning. */
  lemma {:induction false} NearFixturesComplete(v: Tracked, kind: Fixture, positions: seq<Point>, k: nat)
    requires k <= |positions|
    ensures forall j :: 0 <= j < k && Within(v.Center(), positions[j], WarningDistance) ==>
      FixtureWarningFor(v, kind, positions, j) in NearFixtures(v, kind, positions, k)
  {
    if k > 0 {
      NearFixturesComplete(v, kind, positions, k - 1);
    }
  }

  /** The warnings come in strictly increasing fixture id, so no fixture warns twice. */
  lemma {:induction false} NearFixturesSorted(v: Tracked, kind: Fixture, positions: seq<Point>, k: nat)
    requires k <= |positions|
    ensures forall a, b :: 0 <= a < b < |NearFixtures(v, kind, positions, k)| ==>
      var wa, wb := NearFixtures(v, kind, positions, k)[a], NearFixtures(v, kind, positions, k)[b];
      wa.FixtureWarning? && wb.FixtureWarning? && wa.fixtureId < wb.fixtureId
  {
    if k > 0 {
      NearFixturesSorted(v, kind, positions, k - 1);
      NearFixturesSound(v, kind, positions, k - 1);
      var before, after := NearFixtures(v, kind, positions, k - 1), NearFixtures(v, kind, positions, k);
      forall a, b | 0 <= a < b < |after|
        ensures after[a].FixtureWarning? && after[b].FixtureWarning? && after[a].fixtureId < after[b].fixtureId
      {
        assert after[a] == before[a];
        if b < |before| {
          assert after[b] == before[b];
        } else {
          assert after[b] == FixtureWarningFor(v, kind, positions, k - 1);
        }
      }
    }
  }

  predicate IsUltrasonic(w: Warning)
  {
    w.FixtureWarning? && w.kind == UltrasonicSensor
  }

  /** Within one vehicle's warnings, every ultrasonic warning comes before every barrier warning. */
  lemma UltrasonicBeforeBarrier(v: Tracked)
    ensures forall n :: 0 <= n < |VehicleWarnings(v)| ==> VehicleWarnings(v)[n].FixtureWarning?
    ensures forall a, b :: 0 <= a < b < |VehicleWarnings(v)| && IsUltrasonic(VehicleWarnings(v)[b]) ==>
      IsUltrasonic(VehicleWarnings(v)[a])
  {
    NearFixturesSound(v, UltrasonicSensor, UltrasonicPositions, |UltrasonicPositions|);
    NearFixturesSound(v, Barrier, BarrierPositions, |BarrierPositions|);
  }

  // ---------------------------------------------------------------------
  // check_vehicle_collisions

  /** The centers of vehicles a and b are strictly within 100 of each other. */
  predicate TooClose(vs: seq<Tracked>, a: nat, b: nat)
    requires a < |vs| && b < |vs|
  {
    Within(vs[a].Center(), vs[b].Center(), CollisionDistance)
  }

  /**
   * The collision test as the set of index pairs it accepts. The enumeration
   * of pairs below is stated for any set `near` of pairs, so that its proofs
   * never see the distance arithmetic.
   */
  function CloseTest(vs: seq<Tracked>): set<(nat, nat)>
  {
    set a: nat, b: nat | a < |vs| && b < |vs| && TooClose(vs, a, b) :: (a, b)
  }

  /** The pairs (i, b) with i < b < j in near, by increasing b. */
  function Row(near: set<(nat, nat)>, i: nat, j: nat): seq<(nat, nat)>
  {
    if j == 0 then []
    else if i < j - 1 && (i, j - 1) in near then Row(near, i, j - 1) + [(i, j - 1)]
    else Row(near, i, j - 1)
  }

  /** The pairs (a, b) with a < i and a < b < n in near, in lexicographic order. */
  function PairsBelow(near: set<(nat, nat)>, n: nat, i: nat): seq<(nat, nat)>
  {
    if i == 0 then [] else PairsBelow(near, n, i - 1) + Row(near, i - 1, n)
  }

  /** The index pairs of the vehicles that are too close, in the order they are warned about. */
  function ClosePairs(vs: seq<Tracked>): seq<(nat, nat)>
  {
    PairsBelow(CloseTest(vs), |vs|, |vs|)
  }

  function CollisionOf(vs: seq<Tracked>, i: nat, j: nat): Warning
    requires i < |vs| && j < |vs|
  {
    CollisionWarning(vs[i].id, vs[i].Color(), vs[i].Center(), vs[j].id, vs[j].Color(), vs[j].Center())
  }

  /** The warnings of row i for columns below j, one per pair of Row(near, i, j). */
  function RowWarnings(vs: seq<Tracked>, near: set<(nat, nat)>, i: nat, j: nat): (r: seq<Warning>)
    requires i < |vs| && j <= |vs|
    ensures |r| == |Row(near, i, j)|
  {
    if j == 0 then []
    else if i < j - 1 && (i, j - 1) in near then RowWarnings(vs, near, i, j - 1) + [CollisionOf(vs, i, j - 1)]
    else RowWarnings(vs, near, i, j - 1)
  }

  /** The warnings of the rows below i, one per pair of PairsBelow(near, |vs|, i). */
  function CollisionsBelow(vs: seq<Tracked>, near: set<(nat, nat)>, i: nat): (r: seq<Warning>)
    requires i <= |vs|
    ensures |r| == |PairsBelow(near, |vs|, i)|
  {
    if i == 0 then [] else CollisionsBelow(vs, near, i - 1) + RowWarnings(vs, near, i - 1, |vs|)
  }

  /** The warnings `check_vehicle_collisions` returns. */
  function Collisions(vs: seq<Tracked>): seq<Warning>
  {
    CollisionsBelow(vs, CloseTest(vs), |vs|)
  }

  /** near holds exactly the index pairs of vs that the collision test accepts. */
  predicate Agrees(vs: seq<Tracked>, near: set<(nat, nat)>)
  {
    forall a: nat, b: nat {:trigger TooClose(vs, a, b)} :: a < |vs| && b < |vs| ==> ((a, b) in near <==> TooClose(vs, a, b))
  }

  /** `check_vehicle_collisions`: every ordered pair i < j, rows by i, columns by j. */
  method CheckVehicleCollisions(vs: seq<Tracked>) returns (warnings: seq<Warning>)
    ensures warnings == Collisions(vs)
  {
    warnings := CollisionLoops(vs, CloseTest(vs));
  }

  /** The two loops of `check_vehicle_collisions`, proved for any set of pairs that agrees with the distance test. */
  method CollisionLoops(vs: seq<Tracked>, ghost near: set<(nat, nat)>) returns (warnings: seq<Warning>)
    requires Agrees(vs, near)
    ensures warnings == CollisionsBelow(vs, near, |vs|)
  {
    warnings := [];
    var i: nat := 0;
    while i < |vs|
      invariant i <= |vs|
      invariant warnings == CollisionsBelow(vs, near, i)
    {
      NextRow(vs, near, i);
      warnings := RowLoop(vs, near, i, warnings);
      i := i + 1;
    }
  }

  /** The inner loop for vehicle i: every later vehicle j, in order, that is too close to it. */
  method RowLoop(vs: seq<Tracked>, ghost near: set<(nat, nat)>, i: nat, done: seq<Warning>) returns (warnings: seq<Warning>)
    requires i < |vs| && Agrees(vs, near)
    ensures warnings == done + RowWarnings(vs, near, i, |vs|)
  {
    warnings := done;
    var j: nat := 0;
    assert done + [] == done;
    while j < |vs|
      invariant j <= |vs|
      invariant warnings == done + RowWarnings(vs, near, i, j)
    {
      RowWarningsStep(vs, near, done, warnings, i, j);
      if i < j && Within(vs[i].Center(), vs[j].Center(), CollisionDistance) {
        warnings := warnings + [CollisionOf(vs, i, j)];
      }
      j := j + 1;
    }
  }

  /** The rows below i + 1 are the rows below i followed by row i. */
  lemma NextRow(vs: seq<Tracked>, near: set<(nat, nat)>, i: nat)
    requires i < |vs|
    ensures CollisionsBelow(vs, near, i + 1) == CollisionsBelow(vs, near, i) + RowWarnings(vs, near, i, |vs|)
  {
  }

  /**
   * One step of the inner loop: column j appends the warning for (i, j) to
   * the warnings so far exactly when i < j and the two are too close.
   */
  lemma RowWarningsStep(vs: seq<Tracked>, near: set<(nat, nat)>, done: seq<Warning>, warnings: seq<Warning>, i: nat, j: nat)
    requires i < |vs| && j < |vs| && Agrees(vs, near)
    requires warnings == done + RowWarnings(vs, near, i, j)
    ensures i < j && Within(vs[i].Center(), vs[j].Center(), CollisionDistance) ==>
      warnings + [CollisionOf(vs, i, j)] == done + RowWarnings(vs, near, i, j + 1)
    ensures !(i < j && Within(vs[i].Center(), vs[j].Center(), CollisionDistance)) ==>
      warnings == done + RowWarnings(vs, near, i, j + 1)
  {
    var row := RowWarnings(vs, near, i, j);
    assert (i, j) in near <==> TooClose(vs, i, j);
    assert row + [] == row;
    assert (done + row) + [CollisionOf(vs, i, j)] == done + (row + [CollisionOf(vs, i, j)]);
  }

  /** Warning w is the collision warning for index pair p. */
  predicate WarnsAbout(vs: seq<Tracked>, p: (nat, nat), w: Warning)
  {
    p.0 < |vs| && p.1 < |vs| && w == CollisionOf(vs, p.0, p.1)
  }

  /** The n-th warning of row i is the warning of row i's n-th pair. */
  lemma {:induction false} RowWarningsAt(vs: seq<Tracked>, near: set<(nat, nat)>, i: nat, j: nat, n: nat)
    requires i < |vs| && j <= |vs| && n < |Row(near, i, j)|
    ensures WarnsAbout(vs, Row(near, i, j)[n], RowWarnings(vs, near, i, j)[n])
  {
    if n < |Row(near, i, j - 1)| {
      RowWarningsAt(vs, near, i, j - 1, n);
    }
  }

  /** The n-th warning below row i is the warning of the n-th pair below row i. */
  lemma {:induction false} CollisionsBelowAt(vs: seq<Tracked>, near: set<(nat, nat)>, i: nat, n: nat)
    requires i <= |vs| && n < |PairsBelow(near, |vs|, i)|
    ensures WarnsAbout(vs, PairsBelow(near, |vs|, i)[n], CollisionsBelow(vs, near, i)[n])
  {
    assert i > 0;
    var pairs, row := PairsBelow(near, |vs|, i - 1), Row(near, i - 1, |vs|);
    var before, rowWarnings := CollisionsBelow(vs, near, i - 1), RowWarnings(vs, near, i - 1, |vs|);
    assert PairsBelow(near, |vs|, i) == pairs + row;
    assert CollisionsBelow(vs, near, i) == before + rowWarnings;
    if n < |pairs| {
      CollisionsBelowAt(vs, near, i - 1, n);
      WarnsAboutAppend(vs, pairs, row, before, rowWarnings, n);
    } else {
      RowWarningsAt(vs, near, i - 1, |vs|, n - |pairs|);
      WarnsAboutAppend(vs, pairs, row, before, rowWarnings, n);
    }
  }

  /** Pointwise warning of two pair lists carries over to their concatenation. */
  lemma WarnsAboutAppend(vs: seq<Tracked>, pairs: seq<(nat, nat)>, row: seq<(nat, nat)>,
                         before: seq<Warning>, rowWarnings: seq<Warning>, n: nat)
    requires |before| == |pairs| && |rowWarnings| == |row| && n < |pairs| + |row|
    ensures n < |pairs| && WarnsAbout(vs, pairs[n], before[n]) ==> WarnsAbout(vs, (pairs + row)[n], (before + rowWarnings)[n])
    ensures n >= |pairs| && WarnsAbout(vs, row[n - |pairs|], rowWarnings[n - |pairs|]) ==>
      WarnsAbout(vs, (pairs + row)[n], (before + rowWarnings)[n])
  {
  }

  /** The pairs below row i are pairs a < b < n with a < i in near. */
  lemma {:induction false} PairsBelowSound(near: set<(nat, nat)>, n: nat, i: nat)
    ensures forall m :: 0 <= m < |PairsBelow(near, n, i)| ==>
      var p := PairsBelow(near, n, i)[m];
      p.0 < i && p.0 < p.1 < n && (p.0, p.1) in near
  {
    if i > 0 {
      PairsBelowSound(near, n, i - 1);
      RowSound(near, i - 1, n);
    }
  }

  /** Every pair a < b < n with a < i in near is among the pairs below row i. */
  lemma {:induction false} PairsBelowComplete(near: set<(nat, nat)>, n: nat, i: nat, a: nat, b: nat)
    requires a < i && a < b < n && (a, b) in near
    ensures (a, b) in PairsBelow(near, n, i)
  {
    var before, row := PairsBelow(near, n, i - 1), Row(near, i - 1, n);
    assert PairsBelow(near, n, i) == before + row;
    if a < i - 1 {
      PairsBelowComplete(near, n, i - 1, a, b);
      assert (a, b) in before;
    } else {
      RowComplete(near, a, n, b);
      assert (a, b) in row;
    }
  }

  predicate LexLess(p: (nat, nat), q: (nat, nat))
  {
    p.0 < q.0 || (p.0 == q.0 && p.1 < q.1)
  }

  /** The pairs below row i are in strictly increasing lexicographic order, hence distinct. */
  lemma {:induction false} PairsBelowSorted(near: set<(nat, nat)>, n: nat, i: nat)
    ensures forall l, m :: 0 <= l < m < |PairsBelow(near, n, i)| ==> LexLess(PairsBelow(near, n, i)[l], PairsBelow(near, n, i)[m])
  {
    if i > 0 {
      PairsBelowSorted(near, n, i - 1);
      PairsBelowSound(near, n, i - 1);
      RowSound(near, i - 1, n);
      RowSorted(near, i - 1, n);
    }
  }

  lemma {:induction false} RowSound(near: set<(nat, nat)>, i: nat, j: nat)
    ensures forall m :: 0 <= m < |Row(near, i, j)| ==>
      var p := Row(near, i, j)[m];
      p.0 == i < p.1 < j && (i, p.1) in near
  {
    if j > 0 {
      RowSound(near, i, j - 1);
    }
  }

  lemma {:induction false} RowComplete(near: set<(nat, nat)>, i: nat, j: nat, b: nat)
    requires i < b < j && (i, b) in near
    ensures (i, b) in Row(near, i, j)
  {
    if b < j - 1 {
      RowComplete(near, i, j - 1, b);
    }
  }

  lemma {:induction false} RowSorted(near: set<(nat, nat)>, i: nat, j: nat)
    ensures forall l, m :: 0 <= l < m < |Row(near, i, j)| ==> Row(near, i, j)[l].1 < Row(near, i, j)[m].1
  {
    if j > 0 {
      RowSorted(near, i, j - 1);
      RowSound(near, i, j - 1);
    }
  }

  /**
   * `check_vehicle_collisions` warns once for each index pair a < b whose
   * centers are strictly within 100 and for no other pair, in lexicographic
   * order of the pairs, each warning recording both vehicles.
   */
  lemma CollisionPairsExact(vs: seq<Tracked>)
    ensures |Collisions(vs)| == |ClosePairs(vs)|
    ensures forall m :: 0 <= m < |ClosePairs(vs)| ==>
      var p := ClosePairs(vs)[m];
      && p.0 < p.1 < |vs| && TooClose(vs, p.0, p.1)
      && Collisions(vs)[m] == CollisionOf(vs, p.0, p.1)
    ensures forall a, b :: 0 <= a < b < |vs| && TooClose(vs, a, b) ==> (a, b) in ClosePairs(vs)
    ensures forall l, m :: 0 <= l < m < |ClosePairs(vs)| ==> LexLess(ClosePairs(vs)[l], ClosePairs(vs)[m])
  {
    var near := CloseTest(vs);
    PairsBelowSound(near, |vs|, |vs|);
    forall a, b | 0 <= a < b < |vs| && TooClose(vs, a, b)
      ensures (a, b) in ClosePairs(vs)
    {
      PairsBelowComplete(near, |vs|, |vs|, a, b);
    }
    PairsBelowSorted(near, |vs|, |vs|);
    forall m | 0 <= m < |ClosePairs(vs)|
      ensures WarnsAbout(vs, ClosePairs(vs)[m], Collisions(vs)[m])
    {
      CollisionsBelowAt(vs, near, |vs|, m);
    }
  }

  // ---------------------------------------------------------------------
  // handle_warning's cooldown

  /** Seconds that must pass after firing before the LED and buzzer fire again. */
  const WarningCooldown: real := 1.5

  datatype GateAction = Fire | SwitchOff | Hold

  /**
   * What `handle_warning` does: fire when there are warnings and more than
   * the cooldown has passed since the last firing, switch off when there
   * are none, and otherwise leave everything as it is.
   */
  function Gate(hasWarnings: bool, now: real, lastWarningTime: real): (a: GateAction)
    ensures a == Fire <==> hasWarnings && now - lastWarningTime > WarningCooldown
    ensures a == SwitchOff <==> !hasWarnings
  {
    if hasWarnings && now - lastWarningTime > WarningCooldown then Fire
    else if !hasWarnings then SwitchOff
    else Hold
  }

  /** The LED and buzzer levels and the remembered firing time. */
  datatype Outputs = Outputs(led: bool, buzzer: bool, lastWarningTime: real)

  /** What one call of `handle_warning` does to the outputs. */
  function HandleWarningEffect(hasWarnings: bool, now: real, o: Outputs): Outputs
  {
    match Gate(hasWarnings, now, o.lastWarningTime)
    case Fire => Outputs(true, true, now)
    case SwitchOff => o.(led := false, buzzer := false)
    case Hold => o
  }

  /** A frame's outcome as the gate sees it: whether it had warnings, and when. */
  datatype Frame = Frame(hasWarnings: bool, now: real)

  /** The firing time left after a run of frames. */
  function LastFiring(frames: seq<Frame>, start: real): real
  {
    if frames == [] then start
    else
      var last := LastFiring(frames[..|frames| - 1], start);
      var f := frames[|frames| - 1];
      if Gate(f.hasWarnings, f.now, last) == Fire then f.now else last
  }

  /** The times at which a run of frames fires. */
  function Firings(frames: seq<Frame>, start: real): seq<real>
  {
    if frames == [] then []
    else
      var f := frames[|frames| - 1];
      Firings(frames[..|frames| - 1], start)
      + (if Gate(f.hasWarnings, f.now, LastFiring(frames[..|frames| - 1], start)) == Fire then [f.now] else [])
  }

  /**
   * Whatever the frame times, consecutive firings are more than the
   * cooldown apart, the first is more than the cooldown after the starting
   * time, and the last one is the remembered firing time.
   */
  lemma {:induction false} FiringsSpaced(frames: seq<Frame>, start: real)
    ensures var fs := Firings(frames, start);
      && (fs != [] ==> fs[0] - start > WarningCooldown && LastFiring(frames, start) == fs[|fs| - 1])
      && (fs == [] ==> LastFiring(frames, start) == start)
      && forall k :: 0 <= k < |fs| - 1 ==> fs[k + 1] - fs[k] > WarningCooldown
  {
    if frames != [] {
      var init := frames[..|frames| - 1];
      var f := frames[|frames| - 1];
      FiringsSpaced(init, start);
      var before := Firings(init, start);
      var last := LastFiring(init, start);
      if Gate(f.hasWarnings, f.now, last) == Fire {
        var fs := before + [f.now];
        assert Firings(frames, start) == fs;
        assert LastFiring(frames, start) == f.now == fs[|fs| - 1];
        assert f.now - last > WarningCooldown;
        assert forall k :: 0 <= k < |before| ==> fs[k] == before[k];
        if before == [] {
          assert fs[0] - start > WarningCooldown;
        } else {
          assert fs[0] == before[0];
          assert fs[|fs| - 1] - fs[|fs| - 2] > WarningCooldown;
        }
      } else {
        assert Firings(frames, start) == before + [] == before;
        assert LastFiring(frames, start) == last;
      }
    }
  }

  /** The outputs after `handle_warning` has run on each frame in turn. */
  function RunOutputs(frames: seq<Frame>, o: Outputs): Outputs
  {
    if frames == [] then o
    else
      var f := frames[|frames| - 1];
      HandleWarningEffect(f.hasWarnings, f.now, RunOutputs(frames[..|frames| - 1], o))
  }

  /**
   * The firing time `handle_warning` remembers after a run of frames is the
   * last firing of the run, so the spacing of firings applies to the
   * remembered time; and after a frame without warnings both outputs are low.
   */
  lemma {:induction false} RunOutputsRemembersLastFiring(frames: seq<Frame>, o: Outputs)
    ensures RunOutputs(frames, o).lastWarningTime == LastFiring(frames, o.lastWarningTime)
    ensures frames != [] && !frames[|frames| - 1].hasWarnings ==> !RunOutputs(frames, o).led && !RunOutputs(frames, o).buzzer
  {
    if frames != [] {
      RunOutputsRemembersLastFiring(frames[..|frames| - 1], o);
    }
  }
}
