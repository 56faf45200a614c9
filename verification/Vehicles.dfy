/**
 * The vehicle records the parking tracker and its web server pass between
 * their stages: colour detections, merged detections and tracked vehicles.
 */
module Vehicles {
  import opened Wrappers
  import opened Geometry

  /** The three colours the detector has HSV ranges for. */
  datatype Color = Blue | Yellow | White

  /**
   * One detection: its colour, integer center and bounding box, contour
   * area, and for a merged detection the number of detections it joins.
   */
  datatype Blob = Blob(color: Color, center: Point, bbox: Box, area: real, mergedCount: Option<nat>)

  /** A detection after tracking: the id it was given and its recent centers. */
  datatype Tracked = Tracked(blob: Blob, id: int, history: seq<Point>)
  {
    function Center(): Point { blob.center }
    function Color(): Color { blob.color }
  }

  /** The number of vehicles of one colour. */
  function CountColor(vs: seq<Tracked>, c: Color): (n: nat)
    ensures n <= |vs|
  {
    if vs == [] then 0
    else CountColor(vs[..|vs| - 1], c) + (if vs[|vs| - 1].Color() == c then 1 else 0)
  }

  /** Every vehicle has one of the three colours, so the three counts add up to the total. */
  lemma {:induction false} ColorCountsSum(vs: seq<Tracked>)
    ensures CountColor(vs, Blue) + CountColor(vs, Yellow) + CountColor(vs, White) == |vs|
  {
    if vs != [] {
      ColorCountsSum(vs[..|vs| - 1]);
    }
  }
}
