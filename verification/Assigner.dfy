/** A camera's assignment to the nearest targets it sees, read from its observation. */
module Assigner {
  import opened Observations
  import opened FiniteSets

  /** An order that sorts some distances, with ties in any order. */
  predicate IsArgsort(distances: seq<real>, order: seq<nat>) {
    && IsPermutation(order, |distances|)
    && (forall j, k :: 0 <= j <= k < |order| ==> distances[order[j]] <= distances[order[k]])
  }

  /** The positions whose flag is not zero, ascending. */
  function Nonzero(mask: seq<real>): (r: seq<nat>)
    ensures forall k :: 0 <= k < |r| ==> r[k] < |mask| && mask[r[k]] != 0.0
    ensures forall j, k :: 0 <= j < k < |r| ==> r[j] < r[k]
    ensures forall i :: 0 <= i < |mask| && mask[i] != 0.0 ==> i in r
  {
    if mask == [] then []
    else
      var n := |mask| - 1;
      Nonzero(mask[..n]) + if mask[n] != 0.0 then [n] else []
  }

  /** The first position of a least distance. */
  function Argmin(distances: seq<real>): (i: nat)
    requires distances != []
    ensures i < |distances|
    ensures forall j :: 0 <= j < |distances| ==> distances[i] <= distances[j]
    ensures forall j :: 0 <= j < i ==> distances[i] < distances[j]
  {
    if |distances| == 1 then 0
    else
      var n := |distances| - 1;
      var i := Argmin(distances[..n]);
      if distances[n] < distances[i] then n else i
  }

  /** The positions that hold true. */
  function TrueAt(b: seq<bool>): set<nat> {
    set t: nat | t < |b| && b[t]
  }

  /** What one camera is assigned: as many of the visible targets as allowed, none farther
      than a visible one that is left out; without a visible target the first nearest of all. */
  ghost predicate RightChoice(seen: seq<bool>, distances: seq<real>, limit: int, row: seq<bool>)
    requires |seen| == |distances| == |row|
  {
    var visible, chosen := TrueAt(seen), TrueAt(row);
    if visible == {} then exists t: nat :: t < |row| && chosen == {t} && IsFirstNearest(distances, t)
    else
      && chosen <= visible
      && |chosen| == (if limit <= 0 then 0 else if limit < |visible| then limit else |visible|)
      && NoneNearer(distances, chosen, visible - chosen)
  }

  /** How many times a loop bounded by a limit and a length runs. */
  function UpTo(limit: int, length: nat): nat {
    if limit <= 0 then 0 else if limit <= length then limit else length
  }

  ghost predicate NoneNearer(distances: seq<real>, chosen: set<nat>, others: set<nat>)
    requires forall t :: t in chosen ==> t < |distances|
    requires forall t :: t in others ==> t < |distances|
  {
    forall t, u :: t in chosen && u in others ==> distances[t] <= distances[u]
  }

  ghost predicate IsFirstNearest(distances: seq<real>, t: nat)
    requires t < |distances|
  {
    && (forall u :: 0 <= u < |distances| ==> distances[t] <= distances[u])
    && (forall u :: 0 <= u < t ==> distances[t] < distances[u])
  }

  /** The choice for one camera.  The sorter stands for a sort that may order ties in any way. */
  method AssignOne(mask: seq<real>, distances: seq<real>, limit: int, sorter: seq<real> -> seq<nat>, ghost seen: seq<bool>)
      returns (row: seq<bool>)
    requires mask == Flags(seen) && |distances| == |seen| > 0
    requires forall d :: IsArgsort(d, sorter(d))
    ensures |row| == |seen| && RightChoice(seen, distances, limit, row)
  {
    hide Nonzero, Argmin, IsArgsort;
    var visible := Nonzero(mask);
    VisibleIs(seen, mask, visible);
    if visible == [] {
      var closest := Argmin(distances);
      row := seq(|mask|, _ => false);
      row := row[closest := true];
      assert TrueAt(row) == {closest};
      assert IsFirstNearest(distances, closest);
    } else {
      var visibleDistances := seq(|visible|, k requires 0 <= k < |visible| => distances[visible[k]]);
      var order := sorter(visibleDistances);
      assert IsArgsort(visibleDistances, order);
      ArgsortOrders(visibleDistances, order);
      row := Mark(|mask|, visible, order, limit);
      ChosenAreRight(seen, distances, visible, visibleDistances, order, UpTo(limit, |order|));
    }
  }

  lemma ArgsortOrders(distances: seq<real>, order: seq<nat>)
    requires IsArgsort(distances, order)
    ensures IsPermutation(order, |distances|)
  {
  }

  /** Marks the targets of the first places of an order, up to the limit. */
  method Mark(n: nat, visible: seq<nat>, order: seq<nat>, limit: int) returns (row: seq<bool>)
    requires IsPermutation(order, |visible|) && forall k :: 0 <= k < |visible| ==> visible[k] < n
    ensures |row| == n && TrueAt(row) == Places(visible, order, UpTo(limit, |order|))
  {
    row := seq(n, _ => false);
    var count := if limit <= |order| then limit else |order|;
    var i := 0;
    while i < count
      invariant 0 <= i <= UpTo(limit, |order|)
      invariant |row| == n && TrueAt(row) == Places(visible, order, i)
      decreases count - i
    {
      var target := visible[order[i]];
      assert TrueAt(row[target := true]) == TrueAt(row) + {target};
      assert Places(visible, order, i + 1) == Places(visible, order, i) + {target};
      row := row[target := true];
      i := i + 1;
    }
  }

  /** The nonzero flags are those of the visible targets. */
  lemma VisibleIs(seen: seq<bool>, mask: seq<real>, visible: seq<nat>)
    requires mask == Flags(seen) && visible == Nonzero(mask)
    ensures forall t :: t in visible <==> t in TrueAt(seen)
    ensures visible == [] <==> TrueAt(seen) == {}
  {
    hide Nonzero;
    assert forall t :: 0 <= t < |seen| ==> mask[t] == Flag(seen[t]);
    if visible != [] {
      assert visible[0] in TrueAt(seen);
    }
  }

  /** The targets of the first n places of the order. */
  function Places(visible: seq<nat>, order: seq<nat>, n: nat): set<nat>
    requires n <= |order| && forall k :: 0 <= k < |order| ==> order[k] < |visible|
  {
    set k | 0 <= k < n :: visible[order[k]]
  }

  lemma {:induction false} PlacesSize(visible: seq<nat>, order: seq<nat>, n: nat)
    requires IsPermutation(order, |visible|) && n <= |order|
    requires forall j, k :: 0 <= j < k < |visible| ==> visible[j] < visible[k]
    ensures |Places(visible, order, n)| == n
  {
    if n > 0 {
      PlacesSize(visible, order, n - 1);
      var before, last := Places(visible, order, n - 1), visible[order[n - 1]];
      forall k | 0 <= k < n - 1
        ensures visible[order[k]] != last
      {
        assert order[k] != order[n - 1];
      }
      assert last !in before;
      assert Places(visible, order, n) == before + {last};
    }
  }

  lemma AllPlaces(visible: seq<nat>, order: seq<nat>, all: set<nat>)
    requires IsPermutation(order, |visible|) && forall t :: t in visible <==> t in all
    ensures Places(visible, order, |order|) == all
  {
    forall t: nat
      ensures t in all <==> t in Places(visible, order, |order|)
    {
      if t in all {
        var i :| 0 <= i < |visible| && visible[i] == t;
        var k := PermutationIsOnto(order, |visible|, i);
        assert visible[order[k]] == t;
      }
    }
  }

  /** The first places of a sorted order are a right choice among the visible targets. */
  lemma ChosenAreRight(seen: seq<bool>, distances: seq<real>, visible: seq<nat>, visibleDistances: seq<real>, order: seq<nat>, n: nat)
    requires |distances| == |seen| && visible != []
    requires forall t :: t in visible <==> t in TrueAt(seen)
    requires forall j, k :: 0 <= j < k < |visible| ==> visible[j] < visible[k]
    requires |visibleDistances| == |visible| && forall k :: 0 <= k < |visible| ==> visible[k] < |distances| && visibleDistances[k] == distances[visible[k]]
    requires IsArgsort(visibleDistances, order) && n <= |order|
    ensures var chosen := Places(visible, order, n);
      && chosen <= TrueAt(seen) && |chosen| == n && |TrueAt(seen)| == |visible| == |order|
      && NoneNearer(distances, chosen, TrueAt(seen) - chosen)
  {
    hide TrueAt;
    var chosen, all := Places(visible, order, n), TrueAt(seen);
    PlacesSize(visible, order, n);
    PlacesSize(visible, order, |order|);
    AllPlaces(visible, order, all);
    forall t | t in all
      ensures t < |distances|
    {
      assert t in visible;
    }
    forall t, u | t in chosen && u in all - chosen
      ensures distances[t] <= distances[u]
    {
      var j :| 0 <= j < n && visible[order[j]] == t;
      var k :| 0 <= k < |order| && visible[order[k]] == u;
      assert n <= k;
      assert visibleDistances[order[j]] <= visibleDistances[order[k]];
    }
  }

  /** Slices made without any obstacles still read the true mask. */
  lemma MaskIsRead(v: View, index: nat, numCameras: nat)
    requires ValidView(v, CAMERA_LAYOUT)
    ensures var slice := SlicesOf(CAMERA_LAYOUT, |v.opponents|, 0, numCameras).opponentMask;
      0 < slice.step && Apply(Pack(v, CAMERA_LAYOUT, index), slice) == Flags(v.opponentMask)
  {
    hide SlicesOf, Pack, Take, Flags, Indices;
    MaskStep(CAMERA_LAYOUT, |v.opponents|, 0, numCameras);
    MaskStep(CAMERA_LAYOUT, |v.opponents|, |v.obstacles|, |v.teammates|);
    SlicesReadBack(v, CAMERA_LAYOUT, index);
    OpponentMaskIgnoresTheRest(CAMERA_LAYOUT, |v.opponents|, 0, numCameras, |v.obstacles|, |v.teammates|);
  }

  /** All cameras: each reads its own mask with slices made without any obstacles, which
      gives the same mask as the full layout. */
  method Assign(views: seq<View>, distances: seq<seq<real>>, limit: int, numTargets: nat, sorter: seq<real> -> seq<nat>)
      returns (assignments: seq<seq<bool>>)
    requires |distances| == |views| && 0 < numTargets
    requires forall c :: 0 <= c < |views| ==> ValidView(views[c], CAMERA_LAYOUT)
    requires forall c :: 0 <= c < |views| ==> |views[c].opponents| == |distances[c]| == numTargets
    requires forall d :: IsArgsort(d, sorter(d))
    ensures |assignments| == |views|
    ensures forall c :: 0 <= c < |views| ==> |assignments[c]| == |views[c].opponentMask| == numTargets && RightChoice(views[c].opponentMask, distances[c], limit, assignments[c])
  {
    hide RightChoice, SlicesOf, Pack, Take, Apply, Flags, IsArgsort;
    assignments := [];
    var slices := SlicesOf(CAMERA_LAYOUT, numTargets, 0, |views|);
    MaskStep(CAMERA_LAYOUT, numTargets, 0, |views|);
    for c := 0 to |views|
      invariant |assignments| == c
      invariant forall k :: 0 <= k < c ==> |assignments[k]| == numTargets
      invariant forall k :: 0 <= k < c ==> RightChoice(views[k].opponentMask, distances[k], limit, assignments[k])
    {
      var v := views[c];
      var observation := Pack(v, CAMERA_LAYOUT, c);
      MaskIsRead(v, c, |views|);
      var mask := Apply(observation, slices.opponentMask);
      var row := AssignOne(mask, distances[c], limit, sorter, v.opponentMask);
      assignments := assignments + [row];
    }
  }

  lemma MaskStep(layout: Layout, opponents: nat, obstacles: nat, teammates: nat)
    ensures SlicesOf(layout, opponents, obstacles, teammates).opponentMask.step == layout.opponentDim + 1
  {
  }
}
