/**
 * `check_spot_occupancy` of the parking tracker and its web server: every
 * spot is first cleared, then each vehicle in turn marks the first spot
 * whose closed bounding box holds its center.
 */
module Occupancy {
  import opened Wrappers
  import opened Geometry
  import opened Vehicles

  /** One parking spot and what the last occupancy check recorded for it. */
  datatype Spot = Spot(id: int, bbox: Box, occupied: bool, vehicleId: Option<int>, vehicleColor: Option<Color>)

  /** The eight spots, two rows of four, as the tracker and the web server define them. */
  const ParkingSpots: seq<Spot> := [
    Spot(1, Box(366, 125, 114, 126), false, None, None),
    Spot(2, Box(480, 125, 141, 126), false, None, None),
    Spot(3, Box(621, 125, 112, 126), false, None, None),
    Spot(4, Box(733, 125, 118, 126), false, None, None),
    Spot(5, Box(372, 389, 121, 148), false, None, None),
    Spot(6, Box(493, 389, 125, 148), false, None, None),
    Spot(7, Box(618, 389, 115, 148), false, None, None),
    Spot(8, Box(733, 389, 126, 148), false, None, None)
  ]

  function Clear(s: Spot): Spot
  {
    s.(occupied := false, vehicleId := None, vehicleColor := None)
  }

  /** Every spot cleared. */
  function Cleared(spots: seq<Spot>): (r: seq<Spot>)
    ensures |r| == |spots|
    ensures forall k :: 0 <= k < |r| ==> r[k] == Clear(spots[k])
  {
    if spots == [] then [] else Cleared(spots[..|spots| - 1]) + [Clear(spots[|spots| - 1])]
  }

  /** The first spot at index k or later whose box holds p. */
  function FirstSpotFrom(spots: seq<Spot>, p: Point, k: nat): (r: Option<nat>)
    requires k <= |spots|
    ensures r.Some? ==> k <= r.value < |spots|
    decreases |spots| - k
  {
    if k == |spots| then None
    else if InBox(p, spots[k].bbox) then Some(k)
    else FirstSpotFrom(spots, p, k + 1)
  }

  function FirstSpot(spots: seq<Spot>, p: Point): (r: Option<nat>)
    ensures r.Some? ==> r.value < |spots|
  {
    FirstSpotFrom(spots, p, 0)
  }

  /** What one vehicle does to the spots: it marks the first spot holding its center, if any. */
  function Place(spots: seq<Spot>, v: Tracked): (r: seq<Spot>)
    ensures |r| == |spots|
  {
    match FirstSpot(spots, v.Center())
    case None => spots
    case Some(s) => spots[s := spots[s].(occupied := true, vehicleId := Some(v.id), vehicleColor := Some(v.Color()))]
  }

  /** The spots after every vehicle, in order, has been placed. */
  function PlaceAll(spots: seq<Spot>, vs: seq<Tracked>): (r: seq<Spot>)
    ensures |r| == |spots|
  {
    if vs == [] then spots else Place(PlaceAll(spots, vs[..|vs| - 1]), vs[|vs| - 1])
  }

  /** The spots after a whole occupancy check. */
  function Occupied(spots: seq<Spot>, vs: seq<Tracked>): (r: seq<Spot>)
    ensures |r| == |spots|
  {
    PlaceAll(Cleared(spots), vs)
  }

  // ---------------------------------------------------------------------
  // The occupancy check as the source runs it

  /** The inner loop: try the spots in order and stop at the first holding the center. */
  method PlaceVehicle(spots: seq<Spot>, v: Tracked) returns (r: seq<Spot>)
    ensures r == Place(spots, v)
  {
    r := spots;
    var center := v.Center();
    var s: nat := 0;
    while s < |r|
      invariant s <= |r| && r == spots
      invariant FirstSpot(spots, center) == FirstSpotFrom(spots, center, s)
    {
      var b := r[s].bbox;
      if b.x <= center.x <= b.x + b.w && b.y <= center.y <= b.y + b.h {
        r := r[s := r[s].(occupied := true, vehicleId := Some(v.id), vehicleColor := Some(v.Color()))];
        return;
      }
      s := s + 1;
    }
  }

  /** The first loop of `check_spot_occupancy`: mark every spot free and forget its vehicle. */
  method ClearSpots(spots: seq<Spot>) returns (r: seq<Spot>)
    ensures r == Cleared(spots)
  {
    r := spots;
    var k: nat := 0;
    while k < |r|
      invariant k <= |r| == |spots|
      invariant forall t :: 0 <= t < k ==> r[t] == Clear(spots[t])
      invariant forall t :: k <= t < |r| ==> r[t] == spots[t]
    {
      r := r[k := Clear(r[k])];
      k := k + 1;
    }
  }

  /** `check_spot_occupancy`: clear every spot, then place each vehicle in turn. */
  method CheckSpotOccupancy(spots: seq<Spot>, vehicles: seq<Tracked>) returns (r: seq<Spot>)
    ensures r == Occupied(spots, vehicles)
  {
    r := ClearSpots(spots);
    var i: nat := 0;
    while i < |vehicles|
      invariant i <= |vehicles|
      invariant r == PlaceAll(Cleared(spots), vehicles[..i])
    {
      assert vehicles[..i + 1][..i] == vehicles[..i];
      r := PlaceVehicle(r, vehicles[i]);
      i := i + 1;
    }
    assert vehicles[..|vehicles|] == vehicles;
  }

  // ---------------------------------------------------------------------
  // What the check records

  /**
   * The first spot holding p is one whose box holds p with no box before it
   * holding p, and there is none exactly when no box holds p.
   */
  lemma {:induction false} FirstSpotFromSpec(spots: seq<Spot>, p: Point, k: nat)
    requires k <= |spots|
    ensures FirstSpotFrom(spots, p, k).None? <==> forall t :: k <= t < |spots| ==> !InBox(p, spots[t].bbox)
    ensures FirstSpotFrom(spots, p, k).Some? ==>
      var s := FirstSpotFrom(spots, p, k).value;
      InBox(p, spots[s].bbox) && forall t :: k <= t < s ==> !InBox(p, spots[t].bbox)
    decreases |spots| - k
  {
    if k < |spots| {
      FirstSpotFromSpec(spots, p, k + 1);
    }
  }

  lemma FirstSpotSpec(spots: seq<Spot>, p: Point)
    ensures FirstSpot(spots, p).None? <==> forall t :: 0 <= t < |spots| ==> !InBox(p, spots[t].bbox)
    ensures FirstSpot(spots, p).Some? ==>
      var s := FirstSpot(spots, p).value;
      InBox(p, spots[s].bbox) && forall t :: 0 <= t < s ==> !InBox(p, spots[t].bbox)
  {
    FirstSpotFromSpec(spots, p, 0);
  }

  /** Two spot lists with the same ids and boxes. */
  predicate SameLayout(a: seq<Spot>, b: seq<Spot>)
  {
    |a| == |b| && forall k :: 0 <= k < |a| ==> a[k].id == b[k].id && a[k].bbox == b[k].bbox
  }

  lemma {:induction false} FirstSpotFromLayout(a: seq<Spot>, b: seq<Spot>, p: Point, k: nat)
    requires SameLayout(a, b) && k <= |a|
    ensures FirstSpotFrom(a, p, k) == FirstSpotFrom(b, p, k)
    decreases |a| - k
  {
    if k < |a| {
      FirstSpotFromLayout(a, b, p, k + 1);
    }
  }

  /** An occupancy check changes no spot's id or box. */
  lemma {:induction false} PlaceAllKeepsLayout(spots: seq<Spot>, vs: seq<Tracked>)
    ensures SameLayout(PlaceAll(spots, vs), spots)
  {
    if vs != [] {
      PlaceAllKeepsLayout(spots, vs[..|vs| - 1]);
    }
  }

  /** Clearing and a whole occupancy check change no spot's id or box. */
  lemma OccupiedKeepsLayout(spots: seq<Spot>, vs: seq<Tracked>)
    ensures SameLayout(Cleared(spots), spots)
    ensures SameLayout(Occupied(spots, vs), spots)
  {
    PlaceAllKeepsLayout(Cleared(spots), vs);
  }

  /** The last of the vehicles whose center lands first in spot s. */
  function LastOccupant(spots: seq<Spot>, vs: seq<Tracked>, s: nat): (r: Option<nat>)
    ensures r.Some? ==> r.value < |vs|
  {
    if vs == [] then None
    else if FirstSpot(spots, vs[|vs| - 1].Center()) == Some(s) then Some(|vs| - 1)
    else LastOccupant(spots, vs[..|vs| - 1], s)
  }

  /**
   * The last occupant of spot s lands first in s and no later vehicle does,
   * and there is none exactly when no vehicle lands first in s.
   */
  lemma {:induction false} LastOccupantSpec(spots: seq<Spot>, vs: seq<Tracked>, s: nat)
    ensures LastOccupant(spots, vs, s).None? <==> forall v :: 0 <= v < |vs| ==> FirstSpot(spots, vs[v].Center()) != Some(s)
    ensures LastOccupant(spots, vs, s).Some? ==>
      var v := LastOccupant(spots, vs, s).value;
      FirstSpot(spots, vs[v].Center()) == Some(s) && forall w :: v < w < |vs| ==> FirstSpot(spots, vs[w].Center()) != Some(s)
  {
    if vs != [] {
      var init := vs[..|vs| - 1];
      LastOccupantSpec(spots, init, s);
      assert forall v :: 0 <= v < |init| ==> init[v] == vs[v];
    }
  }

  /**
   * After a check, spot s keeps its id and box; it is occupied exactly when
   * some vehicle lands first in it, and then it records the id and colour of
   * the last such vehicle; otherwise it records nothing.
   */
  lemma {:induction false} OccupiedLaw(spots: seq<Spot>, vs: seq<Tracked>, s: nat)
    requires s < |spots|
    ensures var r := Occupied(spots, vs)[s];
      && r.id == spots[s].id && r.bbox == spots[s].bbox
      && r.occupied == LastOccupant(spots, vs, s).Some?
      && r.vehicleId == (if r.occupied then Some(vs[LastOccupant(spots, vs, s).value].id) else None)
      && r.vehicleColor == (if r.occupied then Some(vs[LastOccupant(spots, vs, s).value].Color()) else None)
  {
    if vs != [] {
      var init := vs[..|vs| - 1];
      OccupiedLaw(spots, init, s);
      var before := PlaceAll(Cleared(spots), init);
      PlaceAllKeepsLayout(Cleared(spots), init);
      FirstSpotFromLayout(before, spots, vs[|vs| - 1].Center(), 0);
    }
  }

  /**
   * Spots 1 and 2 share the edge x = 480, so a center on it lands in spot 1
   * only: the first containing box wins.
   */
  lemma SharedEdgeGoesToFirst()
    ensures InBox(Point(480, 188), ParkingSpots[0].bbox) && InBox(Point(480, 188), ParkingSpots[1].bbox)
    ensures FirstSpot(ParkingSpots, Point(480, 188)) == Some(0)
  {
  }
}
