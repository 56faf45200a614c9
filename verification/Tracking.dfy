/**
 * `track_vehicles` of the parking tracker and its web server: each new
 * detection takes the id of the nearest previous vehicle of its colour
 * strictly within 100 pixels, or else a fresh id from a counter, and keeps
 * the last ten centers it was seen at.
 */
module Tracking {
  import opened Wrappers
  import opened Geometry
  import opened Vehicles

  const TrackingDistance: nat := 100
  const HistoryLength: nat := 10

  /** Previous vehicle t is a match candidate for detection b. */
  predicate Close(t: Tracked, b: Blob)
  {
    t.Color() == b.color && Within(b.center, t.Center(), TrackingDistance)
  }

  /** The squared distance from detection b to previous vehicle t. */
  function Gap(b: Blob, t: Tracked): int
  {
    DistSq(b.center, t.Center())
  }

  /**
   * The match chosen among the first k previous vehicles: a candidate
   * replaces the current choice only when it is strictly closer, so the
   * first of equally close candidates wins.
   */
  function BestAmong(prev: seq<Tracked>, b: Blob, k: nat): (r: Option<nat>)
    requires k <= |prev|
    ensures r.Some? ==> r.value < k
  {
    if k == 0 then None
    else
      var r := BestAmong(prev, b, k - 1);
      if Close(prev[k - 1], b) && (r.None? || Gap(b, prev[k - 1]) < Gap(b, prev[r.value])) then Some(k - 1)
      else r
  }

  function BestMatch(prev: seq<Tracked>, b: Blob): (r: Option<nat>)
    ensures r.Some? ==> r.value < |prev|
  {
    BestAmong(prev, b, |prev|)
  }

  /**
   * The choice among the first k previous vehicles is the nearest candidate
   * and the first among equally near ones, and there is none exactly when no
   * previous vehicle is a candidate.
   */
  lemma {:induction false} BestAmongSpec(prev: seq<Tracked>, b: Blob, k: nat)
    requires k <= |prev|
    ensures BestAmong(prev, b, k).None? <==> forall n :: 0 <= n < k ==> !Close(prev[n], b)
    ensures BestAmong(prev, b, k).Some? ==>
      var m := BestAmong(prev, b, k).value;
      && Close(prev[m], b)
      && (forall n :: 0 <= n < k && Close(prev[n], b) ==> Gap(b, prev[m]) <= Gap(b, prev[n]))
      && (forall n :: 0 <= n < m && Close(prev[n], b) ==> Gap(b, prev[m]) < Gap(b, prev[n]))
  {
    if k > 0 {
      BestAmongSpec(prev, b, k - 1);
    }
  }

  lemma BestMatchSpec(prev: seq<Tracked>, b: Blob)
    ensures BestMatch(prev, b).None? <==> forall n :: 0 <= n < |prev| ==> !Close(prev[n], b)
    ensures BestMatch(prev, b).Some? ==>
      var m := BestMatch(prev, b).value;
      && Close(prev[m], b)
      && (forall n :: 0 <= n < |prev| && Close(prev[n], b) ==> Gap(b, prev[m]) <= Gap(b, prev[n]))
      && (forall n :: 0 <= n < m && Close(prev[n], b) ==> Gap(b, prev[m]) < Gap(b, prev[n]))
  {
    BestAmongSpec(prev, b, |prev|);
  }

  /**
   * The inner loop of `track_vehicles`: scans the previous vehicles in
   * order, keeping the nearest candidate found so far and its distance.
   */
  method FindBestMatch(prev: seq<Tracked>, b: Blob) returns (best: Option<nat>)
    ensures best == BestMatch(prev, b)
  {
    best := None;
    var minDistance := 0;
    var j: nat := 0;
    while j < |prev|
      invariant j <= |prev|
      invariant best == BestAmong(prev, b, j)
      invariant best.Some? ==> minDistance == Gap(b, prev[best.value])
    {
      if prev[j].Color() == b.color {
        var distance := DistSq(b.center, prev[j].Center());
        if distance < TrackingDistance * TrackingDistance && (best.None? || distance < minDistance) {
          minDistance := distance;
          best := Some(j);
        }
      }
      j := j + 1;
    }
  }

  /** The last n entries of s, or all of s when it is no longer. */
  function LastN<T>(s: seq<T>, n: nat): (r: seq<T>)
    ensures |r| == if |s| > n then n else |s|
  {
    if |s| > n then s[|s| - n..] else s
  }

  /**
   * The tracked vehicle for detection b: the matched vehicle's id and its
   * history extended by b's center and cut to the last ten entries, or the
   * given fresh id and a one-entry history.
   */
  function TrackOne(prev: seq<Tracked>, freshId: int, b: Blob): Tracked
  {
    match BestMatch(prev, b)
    case Some(m) => Tracked(b, prev[m].id, LastN(prev[m].history + [b.center], HistoryLength))
    case None => Tracked(b, freshId, [b.center])
  }

  /** The number of the first k detections that match no previous vehicle. */
  function FreshBefore(prev: seq<Tracked>, cur: seq<Blob>, k: nat): (c: nat)
    requires k <= |cur|
    ensures c <= k
  {
    if k == 0 then 0
    else FreshBefore(prev, cur, k - 1) + (if BestMatch(prev, cur[k - 1]).None? then 1 else 0)
  }

  /**
   * The body of the outer loop of `track_vehicles` for one detection: the
   * tracked vehicle and whether the fresh id was used.
   */
  method TrackDetection(prev: seq<Tracked>, freshId: int, b: Blob) returns (vehicle: Tracked, issued: bool)
    ensures vehicle == TrackOne(prev, freshId, b)
    ensures issued <==> BestMatch(prev, b).None?
  {
    var best := FindBestMatch(prev, b);
    if best.Some? {
      var m := prev[best.value];
      var history := m.history + [b.center];
      if |history| > HistoryLength {
        history := history[|history| - HistoryLength..];
      }
      vehicle := Tracked(b, m.id, history);
      issued := false;
    } else {
      vehicle := Tracked(b, freshId, [b.center]);
      issued := true;
    }
  }

  /**
   * The tracked list for detections cur: one entry per detection, detection
   * k tracked with the fresh id left after the unmatched detections before it.
   */
  predicate TrackedFrom(prev: seq<Tracked>, nextId: int, cur: seq<Blob>, tracked: seq<Tracked>)
  {
    |tracked| == |cur|
    && forall k {:trigger TrackOne(prev, nextId + FreshBefore(prev, cur, k), cur[k])} :: 0 <= k < |cur| ==> tracked[k] == TrackOne(prev, nextId + FreshBefore(prev, cur, k), cur[k])
  }

  /**
   * `track_vehicles` on the state it reads and writes: the previous
   * vehicles and the next fresh id. Detection k gets the fresh id left after
   * the unmatched detections before it; the counter grows by one for each
   * unmatched detection.
   */
  method TrackVehicles(prev: seq<Tracked>, nextId: int, cur: seq<Blob>) returns (tracked: seq<Tracked>, nextIdAfter: int)
    ensures TrackedFrom(prev, nextId, cur, tracked)
    ensures nextIdAfter == nextId + FreshBefore(prev, cur, |cur|)
  {
    tracked := [];
    nextIdAfter := nextId;
    var i: nat := 0;
    while i < |cur|
      invariant i <= |cur|
      invariant |tracked| == i
      invariant forall k {:trigger tracked[k]} :: 0 <= k < i ==> tracked[k] == TrackOne(prev, nextId + FreshBefore(prev, cur, k), cur[k])
      invariant nextIdAfter == nextId + FreshBefore(prev, cur, i)
    {
      var vehicle, issued := TrackDetection(prev, nextIdAfter, cur[i]);
      if issued {
        nextIdAfter := nextIdAfter + 1;
      }
      tracked := tracked + [vehicle];
      i := i + 1;
    }
  }

  // ---------------------------------------------------------------------
  // Properties of tracking

  /** Every tracked vehicle's history is non-empty, at most ten long and ends at its current center. */
  lemma HistoryShape(prev: seq<Tracked>, freshId: int, b: Blob)
    ensures var t := TrackOne(prev, freshId, b);
      && 0 < |t.history| <= HistoryLength
      && t.history[|t.history| - 1] == b.center
      && t.blob == b
  {
  }

  /** A matched detection inherits the id of the nearest previous vehicle of its colour within 100. */
  lemma MatchedInherits(prev: seq<Tracked>, freshId: int, b: Blob, n: nat)
    requires n < |prev| && Close(prev[n], b)
    ensures exists m :: 0 <= m < |prev| && Close(prev[m], b) && Gap(b, prev[m]) <= Gap(b, prev[n])
                        && TrackOne(prev, freshId, b).id == prev[m].id
  {
    BestMatchSpec(prev, b);
  }

  /** An unmatched detection gets exactly the fresh id. */
  lemma UnmatchedFresh(prev: seq<Tracked>, freshId: int, b: Blob)
    requires forall n :: 0 <= n < |prev| ==> !Close(prev[n], b)
    ensures TrackOne(prev, freshId, b).id == freshId && TrackOne(prev, freshId, b).history == [b.center]
  {
    BestMatchSpec(prev, b);
  }

  lemma {:induction false} FreshBeforeMonotone(prev: seq<Tracked>, cur: seq<Blob>, j: nat, k: nat)
    requires j <= k <= |cur|
    ensures FreshBefore(prev, cur, j) <= FreshBefore(prev, cur, k)
    decreases k - j
  {
    if j < k {
      FreshBeforeMonotone(prev, cur, j, k - 1);
    }
  }

  /**
   * Fresh ids are handed out in increasing order: of two unmatched
   * detections, the earlier gets the smaller id, and every fresh id lies
   * between the counter before and the counter after.
   */
  lemma FreshIdsIncreasing(prev: seq<Tracked>, nextId: int, cur: seq<Blob>, j: nat, k: nat)
    requires j < k < |cur|
    requires BestMatch(prev, cur[j]).None? && BestMatch(prev, cur[k]).None?
    ensures TrackOne(prev, nextId + FreshBefore(prev, cur, j), cur[j]).id
          < TrackOne(prev, nextId + FreshBefore(prev, cur, k), cur[k]).id
  {
    FreshBeforeMonotone(prev, cur, j + 1, k);
  }

  /** Every fresh id lies between the counter before and the counter after. */
  lemma FreshIdsInRange(prev: seq<Tracked>, nextId: int, cur: seq<Blob>, k: nat)
    requires k < |cur|
    requires BestMatch(prev, cur[k]).None?
    ensures nextId <= TrackOne(prev, nextId + FreshBefore(prev, cur, k), cur[k]).id
                    < nextId + FreshBefore(prev, cur, |cur|)
  {
    FreshBeforeMonotone(prev, cur, k + 1, |cur|);
  }

  /** Every id is below the counter. */
  predicate IdsBelow(vs: seq<Tracked>, nextId: int)
  {
    forall k :: 0 <= k < |vs| ==> vs[k].id < nextId
  }

  /**
   * When every previous id is below the counter, so is every id after
   * tracking, against the new counter.
   */
  lemma IdsStayBelow(prev: seq<Tracked>, nextId: int, cur: seq<Blob>, k: nat)
    requires IdsBelow(prev, nextId)
    requires k < |cur|
    ensures TrackOne(prev, nextId + FreshBefore(prev, cur, k), cur[k]).id < nextId + FreshBefore(prev, cur, |cur|)
  {
    FreshBeforeMonotone(prev, cur, k + 1, |cur|);
    TrackedIdBelow(prev, nextId, nextId + FreshBefore(prev, cur, k), nextId + FreshBefore(prev, cur, |cur|), cur[k]);
  }

  /** The id tracked for b is below total when the previous ids are and, should b be unmatched, the fresh id is. */
  lemma TrackedIdBelow(prev: seq<Tracked>, nextId: int, freshId: int, total: int, b: Blob)
    requires IdsBelow(prev, nextId) && nextId <= total
    requires BestMatch(prev, b).None? ==> freshId < total
    ensures TrackOne(prev, freshId, b).id < total
  {
    TrackedIdSource(prev, nextId, freshId, b);
  }

  /**
   * Tracking keeps every id below the counter: when the previous ids are,
   * all tracked ids are below the counter after tracking.
   */
  lemma TrackedIdsBelow(prev: seq<Tracked>, nextId: int, cur: seq<Blob>, tracked: seq<Tracked>)
    requires IdsBelow(prev, nextId) && TrackedFrom(prev, nextId, cur, tracked)
    ensures IdsBelow(tracked, nextId + FreshBefore(prev, cur, |cur|))
  {
    forall k | 0 <= k < |tracked|
      ensures tracked[k].id < nextId + FreshBefore(prev, cur, |cur|)
    {
      IdsStayBelow(prev, nextId, cur, k);
    }
  }

  /** A fresh id is none of the previous ids, when those are all below the counter. */
  lemma FreshIdIsNew(prev: seq<Tracked>, nextId: int, cur: seq<Blob>, k: nat)
    requires IdsBelow(prev, nextId)
    requires k < |cur| && BestMatch(prev, cur[k]).None?
    ensures forall n :: 0 <= n < |prev| ==> prev[n].id != TrackOne(prev, nextId + FreshBefore(prev, cur, k), cur[k]).id
  {
    TrackedIdSource(prev, nextId, nextId + FreshBefore(prev, cur, k), cur[k]);
  }

  /** A tracked id is either a previous id, hence below the counter, or the fresh id. */
  lemma TrackedIdSource(prev: seq<Tracked>, nextId: int, freshId: int, b: Blob)
    requires IdsBelow(prev, nextId)
    ensures BestMatch(prev, b).Some? ==> TrackOne(prev, freshId, b).id < nextId
    ensures BestMatch(prev, b).None? ==> TrackOne(prev, freshId, b).id == freshId
  {
  }
}
