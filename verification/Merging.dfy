/**
 * `merge_nearby_vehicles` and `create_merged_vehicle` of the parking
 * tracker: detections of one colour whose centers lie strictly within 70
 * pixels of a group's first member are joined into one detection covering
 * their union bounding box.
 */
module Merging {
  import opened Wrappers
  import opened Geometry
  import opened Vehicles

  const MergeDistance: nat := 70

  // ---------------------------------------------------------------------
  // create_merged_vehicle

  function MinX(g: seq<Blob>): (m: int)
    requires |g| > 0
    ensures forall k :: 0 <= k < |g| ==> m <= g[k].bbox.x
    ensures exists k :: 0 <= k < |g| && m == g[k].bbox.x
  {
    if |g| == 1 then g[0].bbox.x else Min(MinX(g[..|g| - 1]), g[|g| - 1].bbox.x)
  }

  function MinY(g: seq<Blob>): (m: int)
    requires |g| > 0
    ensures forall k :: 0 <= k < |g| ==> m <= g[k].bbox.y
    ensures exists k :: 0 <= k < |g| && m == g[k].bbox.y
  {
    if |g| == 1 then g[0].bbox.y else Min(MinY(g[..|g| - 1]), g[|g| - 1].bbox.y)
  }

  function MaxRight(g: seq<Blob>): (m: int)
    requires |g| > 0
    ensures forall k :: 0 <= k < |g| ==> g[k].bbox.x + g[k].bbox.w <= m
    ensures exists k :: 0 <= k < |g| && m == g[k].bbox.x + g[k].bbox.w
  {
    if |g| == 1 then g[0].bbox.x + g[0].bbox.w
    else Max(MaxRight(g[..|g| - 1]), g[|g| - 1].bbox.x + g[|g| - 1].bbox.w)
  }

  function MaxBottom(g: seq<Blob>): (m: int)
    requires |g| > 0
    ensures forall k :: 0 <= k < |g| ==> g[k].bbox.y + g[k].bbox.h <= m
    ensures exists k :: 0 <= k < |g| && m == g[k].bbox.y + g[k].bbox.h
  {
    if |g| == 1 then g[0].bbox.y + g[0].bbox.h
    else Max(MaxBottom(g[..|g| - 1]), g[|g| - 1].bbox.y + g[|g| - 1].bbox.h)
  }

  function SumArea(g: seq<Blob>): real
  {
    if g == [] then 0.0 else SumArea(g[..|g| - 1]) + g[|g| - 1].area
  }

  /** The box from (minX, minY) to (maxX, maxY) contains box b. */
  predicate Covers(outer: Box, b: Box)
  {
    outer.x <= b.x && outer.y <= b.y && b.x + b.w <= outer.x + outer.w && b.y + b.h <= outer.y + outer.h
  }

  /**
   * The detection standing for a whole group: the union bounding box, its
   * center (halves rounded down), the summed area, the group's size and the
   * first member's colour.
   */
  function CreateMergedVehicle(g: seq<Blob>): (r: Blob)
    requires |g| > 0
    ensures forall k :: 0 <= k < |g| ==> Covers(r.bbox, g[k].bbox)
    ensures exists k :: 0 <= k < |g| && r.bbox.x == g[k].bbox.x
    ensures exists k :: 0 <= k < |g| && r.bbox.y == g[k].bbox.y
    ensures exists k :: 0 <= k < |g| && r.bbox.x + r.bbox.w == g[k].bbox.x + g[k].bbox.w
    ensures exists k :: 0 <= k < |g| && r.bbox.y + r.bbox.h == g[k].bbox.y + g[k].bbox.h
    ensures r.center == Point(r.bbox.x + r.bbox.w / 2, r.bbox.y + r.bbox.h / 2)
    ensures r.area == SumArea(g) && r.mergedCount == Some(|g|) && r.color == g[0].color
  {
    var minX, minY := MinX(g), MinY(g);
    var w, h := MaxRight(g) - minX, MaxBottom(g) - minY;
    Blob(g[0].color, Point(minX + w / 2, minY + h / 2), Box(minX, minY, w, h), SumArea(g), Some(|g|))
  }

  // ---------------------------------------------------------------------
  // merge_nearby_vehicles, as a specification over indices

  /** Detection j may join the group seeded by detection i. */
  predicate Joins(vs: seq<Blob>, i: nat, j: nat)
    requires i < |vs| && j < |vs|
  {
    vs[i].color == vs[j].color && Within(vs[i].center, vs[j].center, MergeDistance)
  }

  /** The indices below j, in order, that join seed i and are not yet used. */
  function Candidates(vs: seq<Blob>, i: nat, used: set<nat>, j: nat): (r: seq<nat>)
    requires i < |vs| && j <= |vs|
    ensures forall k :: 0 <= k < |r| ==> r[k] < j
  {
    if j == 0 then []
    else
      var before := Candidates(vs, i, used, j - 1);
      if j - 1 !in used && j - 1 != i && Joins(vs, i, j - 1) then before + [j - 1] else before
  }

  /**
   * The candidates of seed i below j are exactly the unused indices other
   * than i that join i, each once, in increasing order.
   */
  lemma {:induction false} CandidatesExact(vs: seq<Blob>, i: nat, used: set<nat>, j: nat)
    requires i < |vs| && j <= |vs|
    ensures forall k :: 0 <= k < |Candidates(vs, i, used, j)| ==>
      var c := Candidates(vs, i, used, j)[k]; c !in used && c != i && Joins(vs, i, c)
    ensures forall a, b :: 0 <= a < b < |Candidates(vs, i, used, j)| ==>
      Candidates(vs, i, used, j)[a] < Candidates(vs, i, used, j)[b]
    ensures forall k :: 0 <= k < j && k !in used && k != i && Joins(vs, i, k) ==> k in Candidates(vs, i, used, j)
  {
    if j > 0 {
      CandidatesExact(vs, i, used, j - 1);
    }
  }

  /** The group seeded by i: the seed, then its candidates. */
  function Group(vs: seq<Blob>, i: nat, used: set<nat>): (g: seq<nat>)
    requires i < |vs|
    ensures |g| > 0 && g[0] == i
    ensures forall k :: 0 <= k < |g| ==> g[k] < |vs|
    ensures IsGroup(vs, g)
  {
    [i] + Candidates(vs, i, used, |vs|)
  }

  function Elems(s: seq<nat>): set<nat>
  {
    set k | k in s
  }

  function Pick(vs: seq<Blob>, idx: seq<nat>): (r: seq<Blob>)
    requires forall k :: 0 <= k < |idx| ==> idx[k] < |vs|
    ensures |r| == |idx|
  {
    if idx == [] then [] else Pick(vs, idx[..|idx| - 1]) + [vs[idx[|idx| - 1]]]
  }

  /** A singleton group keeps its detection unchanged; a larger one is merged. */
  /** A non-empty sequence of indices of vs. */
  predicate IsGroup(vs: seq<Blob>, g: seq<nat>)
  {
    |g| > 0 && forall k :: 0 <= k < |g| ==> g[k] < |vs|
  }

  function Combine(vs: seq<Blob>, g: seq<nat>): Blob
    requires IsGroup(vs, g)
  {
    if |g| == 1 then vs[g[0]] else CreateMergedVehicle(Pick(vs, g))
  }

  /**
   * The detections produced by seeds i, i + 1, ... given the indices
   * already used: each unused seed contributes its group's combination.
   */
  function MergeFrom(vs: seq<Blob>, i: nat, used: set<nat>): (r: seq<Blob>)
    requires i <= |vs|
    ensures |r| <= |vs| - i
    decreases |vs| - i
  {
    if i == |vs| then []
    else if i in used then MergeFrom(vs, i + 1, used)
    else
      var g := Group(vs, i, used);
      [Combine(vs, g)] + MergeFrom(vs, i + 1, used + Elems(g))
  }

  /** What merge_nearby_vehicles returns. */
  function Merged(vs: seq<Blob>): (r: seq<Blob>)
    ensures |r| <= |vs|
  {
    if |vs| <= 1 then vs else MergeFrom(vs, 0, {})
  }

  // ---------------------------------------------------------------------
  // The groups of merge_nearby_vehicles: a partition of the indices

  /** Index groups that are non-empty and hold only indices of vs. */
  predicate GroupsOf(vs: seq<Blob>, gs: seq<seq<nat>>)
  {
    forall t :: 0 <= t < |gs| ==> IsGroup(vs, gs[t])
  }

  /** The index groups the seeds i, i + 1, ... form, given the indices already used. */
  function Groups(vs: seq<Blob>, i: nat, used: set<nat>): (gs: seq<seq<nat>>)
    requires i <= |vs|
    ensures GroupsOf(vs, gs)
    decreases |vs| - i
  {
    if i == |vs| then []
    else if i in used then Groups(vs, i + 1, used)
    else
      var g := Group(vs, i, used);
      [g] + Groups(vs, i + 1, used + Elems(g))
  }

  /** The groups one after the other. */
  function Flat(gs: seq<seq<nat>>): seq<nat>
  {
    if gs == [] then [] else gs[0] + Flat(gs[1..])
  }

  predicate NoDup(s: seq<nat>)
  {
    forall a, b :: 0 <= a < b < |s| ==> s[a] != s[b]
  }

  /** The combination of each group, in order. */
  function Combined(vs: seq<Blob>, gs: seq<seq<nat>>): (r: seq<Blob>)
    requires GroupsOf(vs, gs)
    ensures |r| == |gs|
  {
    if gs == [] then [] else [Combine(vs, gs[0])] + Combined(vs, gs[1..])
  }

  /** Entry t of Combined is the combination of group t. */
  lemma {:induction false} CombinedAt(vs: seq<Blob>, gs: seq<seq<nat>>, t: nat)
    requires GroupsOf(vs, gs) && t < |gs|
    ensures Combined(vs, gs)[t] == Combine(vs, gs[t])
  {
    if t > 0 {
      var tail := gs[1..];
      assert GroupsOf(vs, tail);
      CombinedAt(vs, tail, t - 1);
      assert gs[t] == tail[t - 1];
    }
  }

  /** The indices used once seed i has been handled. */
  function UsedAfter(vs: seq<Blob>, i: nat, used: set<nat>): set<nat>
    requires i < |vs|
  {
    if i in used then used else used + Elems(Group(vs, i, used))
  }

  /** The detections the seeds from i produce are the combinations of the groups they form. */
  lemma {:induction false} MergeFromGroups(vs: seq<Blob>, i: nat, used: set<nat>)
    requires i <= |vs|
    ensures MergeFrom(vs, i, used) == Combined(vs, Groups(vs, i, used))
    decreases |vs| - i
  {
    if i < |vs| {
      MergeFromGroups(vs, i + 1, UsedAfter(vs, i, used));
    }
    SeedStep(vs, i, used);
  }

  /**
   * One seed of MergeFromGroups: with nothing left both sides are empty; a
   * used seed adds nothing to either; an unused one adds its group and that
   * group's combination.
   */
  lemma SeedStep(vs: seq<Blob>, i: nat, used: set<nat>)
    requires i <= |vs|
    requires i < |vs| ==>
      MergeFrom(vs, i + 1, UsedAfter(vs, i, used)) == Combined(vs, Groups(vs, i + 1, UsedAfter(vs, i, used)))
    ensures MergeFrom(vs, i, used) == Combined(vs, Groups(vs, i, used))
  {
    if i < |vs| {
      if i in used {
        assert Groups(vs, i, used) == Groups(vs, i + 1, used);
      } else {
        var g := Group(vs, i, used);
        var restGroups := Groups(vs, i + 1, used + Elems(g));
        assert Groups(vs, i, used) == [g] + restGroups;
        CombinedCons(vs, g, restGroups);
      }
    }
  }

  /** Combined of a group followed by more groups. */
  lemma CombinedCons(vs: seq<Blob>, g: seq<nat>, gs: seq<seq<nat>>)
    requires IsGroup(vs, g) && GroupsOf(vs, gs)
    ensures GroupsOf(vs, [g] + gs)
    ensures Combined(vs, [g] + gs) == [Combine(vs, g)] + Combined(vs, gs)
  {
    var all := [g] + gs;
    assert all[0] == g && all[1..] == gs;
  }

  /** A group has no repeated index and none of the indices already used. */
  lemma GroupFresh(vs: seq<Blob>, i: nat, used: set<nat>)
    requires i < |vs| && i !in used
    ensures NoDup(Group(vs, i, used))
    ensures forall m :: 0 <= m < |Group(vs, i, used)| ==> Group(vs, i, used)[m] !in used
  {
    CandidatesExact(vs, i, used, |vs|);
    var cands := Candidates(vs, i, used, |vs|);
    var g := Group(vs, i, used);
    forall a, b | 0 <= a < b < |g| ensures g[a] != g[b] {
      assert g[b] == cands[b - 1];
      if a > 0 {
        assert g[a] == cands[a - 1];
      }
    }
    forall m | 0 <= m < |g| ensures g[m] !in used {
      if m > 0 {
        assert g[m] == cands[m - 1];
      }
    }
  }

  /** Two index lists without repeats and without a common index concatenate without repeats. */
  lemma NoDupAppend(g: seq<nat>, rest: seq<nat>)
    requires NoDup(g) && NoDup(rest)
    requires forall m :: 0 <= m < |g| ==> g[m] !in rest
    ensures NoDup(g + rest)
  {
    var s := g + rest;
    forall a, b | 0 <= a < b < |s| ensures s[a] != s[b] {
      if b >= |g| && a < |g| {
        assert s[b] == rest[b - |g|];
        assert s[a] == g[a];
      }
    }
  }

  /**
   * The groups formed from seed i on use every index at most once and none
   * already used, and, when every index below i is used, every index not
   * used lands in some group.
   */
  lemma {:induction false} GroupsPartition(vs: seq<Blob>, i: nat, used: set<nat>)
    requires i <= |vs|
    requires forall k: nat :: k < i ==> k in used
    ensures forall x :: x in Flat(Groups(vs, i, used)) ==> x < |vs| && x !in used
    ensures NoDup(Flat(Groups(vs, i, used)))
    ensures forall k: nat :: k < |vs| && k !in used ==> k in Flat(Groups(vs, i, used))
    decreases |vs| - i
  {
    if i < |vs| {
      if i in used {
        GroupsPartition(vs, i + 1, used);
      } else {
        var g := Group(vs, i, used);
        var nowUsed := used + Elems(g);
        GroupsPartition(vs, i + 1, nowUsed);
        GroupFresh(vs, i, used);
        var gs, rest := Groups(vs, i, used), Groups(vs, i + 1, nowUsed);
        assert gs == [g] + rest;
        assert Flat(gs) == g + Flat(rest) by {
          assert gs[0] == g && gs[1..] == rest;
        }
        forall m | 0 <= m < |g| ensures g[m] !in Flat(rest) {
          assert g[m] in Elems(g);
        }
        NoDupAppend(g, Flat(rest));
        forall k: nat | k < |vs| && k !in used ensures k in Flat(gs) {
          if k in Elems(g) {
            assert k in g;
          } else {
            assert k in Flat(rest);
          }
        }
      }
    }
  }

  /** Every member of group g after the first joins the first. */
  predicate SeedJoined(vs: seq<Blob>, g: seq<nat>)
    requires IsGroup(vs, g)
  {
    forall m :: 0 < m < |g| ==> Joins(vs, g[0], g[m])
  }

  /** The group a seed forms joins that seed. */
  lemma GroupJoinsSeed(vs: seq<Blob>, i: nat, used: set<nat>)
    requires i < |vs|
    ensures SeedJoined(vs, Group(vs, i, used))
  {
    var g := Group(vs, i, used);
    CandidatesExact(vs, i, used, |vs|);
    forall m | 0 < m < |g| ensures Joins(vs, g[0], g[m]) {
      assert g[m] == Candidates(vs, i, used, |vs|)[m - 1];
    }
  }

  /** Every group of gs joins its first member. */
  predicate AllSeedJoined(vs: seq<Blob>, gs: seq<seq<nat>>)
    requires GroupsOf(vs, gs)
  {
    forall t :: 0 <= t < |gs| ==> SeedJoined(vs, gs[t])
  }

  /** Every group the seeds from i form joins its first member. */
  lemma {:induction false} GroupsJoinSeed(vs: seq<Blob>, i: nat, used: set<nat>)
    requires i <= |vs|
    ensures AllSeedJoined(vs, Groups(vs, i, used))
    decreases |vs| - i
  {
    if i < |vs| {
      GroupsJoinSeed(vs, i + 1, UsedAfter(vs, i, used));
    }
    JoinSeedStep(vs, i, used);
  }

  /** One seed of GroupsJoinSeed. */
  lemma JoinSeedStep(vs: seq<Blob>, i: nat, used: set<nat>)
    requires i <= |vs|
    requires i < |vs| ==> AllSeedJoined(vs, Groups(vs, i + 1, UsedAfter(vs, i, used)))
    ensures AllSeedJoined(vs, Groups(vs, i, used))
  {
    if i < |vs| {
      if i in used {
        assert Groups(vs, i, used) == Groups(vs, i + 1, used);
      } else {
        var g := Group(vs, i, used);
        var rest := Groups(vs, i + 1, used + Elems(g));
        GroupJoinsSeed(vs, i, used);
        assert Groups(vs, i, used) == [g] + rest;
        AllSeedJoinedCons(vs, g, rest);
      }
    }
  }

  /** Groups that each join their first member, after one more such group. */
  lemma AllSeedJoinedCons(vs: seq<Blob>, g: seq<nat>, gs: seq<seq<nat>>)
    requires IsGroup(vs, g) && GroupsOf(vs, gs)
    requires SeedJoined(vs, g) && AllSeedJoined(vs, gs)
    ensures GroupsOf(vs, [g] + gs) && AllSeedJoined(vs, [g] + gs)
  {
    var all := [g] + gs;
    assert forall t :: 0 < t < |all| ==> all[t] == gs[t - 1];
  }

  /**
   * merge_nearby_vehicles partitions the detections: with more than one
   * detection, the result has one entry per group, the combination of that
   * group; every detection lies in exactly one group; and every member of a
   * group after the first has the first member's colour and a center
   * strictly within 70 of it.
   */
  lemma MergedPartition(vs: seq<Blob>)
    requires |vs| > 1
    ensures |Merged(vs)| == |Groups(vs, 0, {})|
    ensures forall t :: 0 <= t < |Groups(vs, 0, {})| ==> Merged(vs)[t] == Combine(vs, Groups(vs, 0, {})[t])
    ensures forall k :: 0 <= k < |vs| ==> k in Flat(Groups(vs, 0, {}))
    ensures forall x :: x in Flat(Groups(vs, 0, {})) ==> x < |vs|
    ensures NoDup(Flat(Groups(vs, 0, {})))
    ensures AllSeedJoined(vs, Groups(vs, 0, {}))
  {
    MergeFromGroups(vs, 0, {});
    var gs := Groups(vs, 0, {});
    forall t | 0 <= t < |gs| ensures Merged(vs)[t] == Combine(vs, gs[t]) {
      CombinedAt(vs, gs, t);
    }
    GroupsPartition(vs, 0, {});
    GroupsJoinSeed(vs, 0, {});
  }

  /**
   * The inner loop of merge_nearby_vehicles for seed i: walks every index,
   * skipping used ones and the seed, and appends each detection that joins
   * the seed, marking it used.
   */
  method GrowGroup(vs: seq<Blob>, i: nat, used: set<nat>) returns (group: seq<Blob>, nowUsed: set<nat>)
    requires i < |vs| && i !in used
    ensures group == Pick(vs, Group(vs, i, used))
    ensures nowUsed == used + Elems(Group(vs, i, used))
  {
    group := [vs[i]];
    nowUsed := used + {i};
    ghost var idx: seq<nat> := [i];
    assert Elems(idx) == {i};
    var j: nat := 0;
    while j < |vs|
      invariant j <= |vs|
      invariant idx == [i] + Candidates(vs, i, used, j)
      invariant group == Pick(vs, idx)
      invariant nowUsed == used + Elems(idx)
    {
      GrowStep(vs, i, used, j, idx);
      if j !in nowUsed && i != j {
        if vs[i].color == vs[j].color && Within(vs[i].center, vs[j].center, MergeDistance) {
          group := group + [vs[j]];
          nowUsed := nowUsed + {j};
          idx := idx + [j];
        }
      }
      j := j + 1;
    }
  }

  /**
   * One step of the inner loop: index j is free exactly when it is neither
   * used nor the seed, and the group grows by j exactly when j joins.
   */
  lemma GrowStep(vs: seq<Blob>, i: nat, used: set<nat>, j: nat, idx: seq<nat>)
    requires i < |vs| && j < |vs|
    requires idx == [i] + Candidates(vs, i, used, j)
    ensures j in used + Elems(idx) <==> j in used || j == i
    ensures j !in used && j != i && Joins(vs, i, j) ==>
      && idx + [j] == [i] + Candidates(vs, i, used, j + 1)
      && Pick(vs, idx + [j]) == Pick(vs, idx) + [vs[j]]
      && used + Elems(idx + [j]) == used + Elems(idx) + {j}
    ensures !(j !in used && j != i && Joins(vs, i, j)) ==> idx == [i] + Candidates(vs, i, used, j + 1)
  {
    var cands := Candidates(vs, i, used, j);
    NotYetCandidate(vs, i, used, j);
    ElemsCons(i, cands);
    if j !in used && j != i && Joins(vs, i, j) {
      assert idx + [j] == [i] + (cands + [j]);
      PickSnoc(vs, idx, j);
      ElemsSnoc(idx, j);
    }
  }

  /** Index j is not among the candidates below j. */
  lemma NotYetCandidate(vs: seq<Blob>, i: nat, used: set<nat>, j: nat)
    requires i < |vs| && j <= |vs|
    ensures j !in Elems(Candidates(vs, i, used, j))
  {
  }

  lemma ElemsSnoc(s: seq<nat>, j: nat)
    ensures Elems(s + [j]) == Elems(s) + {j}
  {
  }

  lemma PickSnoc(vs: seq<Blob>, idx: seq<nat>, j: nat)
    requires j < |vs| && forall k :: 0 <= k < |idx| ==> idx[k] < |vs|
    ensures Pick(vs, idx + [j]) == Pick(vs, idx) + [vs[j]]
  {
    assert (idx + [j])[..|idx|] == idx;
  }

  lemma ElemsCons(i: nat, s: seq<nat>)
    ensures Elems([i] + s) == {i} + Elems(s)
  {
  }

  /**
   * One pass of the outer loop of merge_nearby_vehicles, for seed i: an
   * unused seed grows its group, which is kept as a lone detection or
   * merged, and appended; a used seed is skipped. What is produced so far
   * followed by what the remaining seeds produce stays the same.
   */
  method MergeSeed(vs: seq<Blob>, i: nat, used: set<nat>, merged: seq<Blob>)
    returns (nowMerged: seq<Blob>, nowUsed: set<nat>)
    requires i < |vs|
    ensures nowMerged + MergeFrom(vs, i + 1, nowUsed) == merged + MergeFrom(vs, i, used)
  {
    if i !in used {
      var group;
      group, nowUsed := GrowGroup(vs, i, used);
      var combined;
      if |group| == 1 {
        combined := group[0];
      } else {
        combined := CreateMergedVehicle(group);
      }
      assert MergeFrom(vs, i, used) == [combined] + MergeFrom(vs, i + 1, nowUsed);
      AppendShift(merged, combined, MergeFrom(vs, i + 1, nowUsed));
      nowMerged := merged + [combined];
    } else {
      nowMerged, nowUsed := merged, used;
    }
  }

  lemma AppendShift<T>(done: seq<T>, x: T, rest: seq<T>)
    ensures (done + [x]) + rest == done + ([x] + rest)
  {
    assert (done + [x]) + rest == done + ([x] + rest);
  }

  /**
   * merge_nearby_vehicles: each detection not yet used seeds a group, which
   * takes every other unused detection of the same colour strictly within
   * MergeDistance of the seed.
   */
  method MergeNearbyVehicles(vs: seq<Blob>) returns (merged: seq<Blob>)
    ensures merged == Merged(vs)
  {
    if |vs| <= 1 {
      return vs;
    }
    merged := [];
    var used: set<nat> := {};
    var i := 0;
    while i < |vs|
      invariant i <= |vs|
      invariant merged + MergeFrom(vs, i, used) == Merged(vs)
    {
      merged, used := MergeSeed(vs, i, used, merged);
      i := i + 1;
    }
  }
}
