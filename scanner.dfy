/**
 * DistanceScanner: sweeps the vertical centre line of the screen, measures
 * every row with a copy of a DistanceNode, and keeps for each target of 1
 * to 6 feet the row whose distance is closest to it; then answers, for a
 * screen height, the target whose row is nearest.
 */
module Scanner {
  import opened Geometry
  import opened HitTesting
  import opened Scene
  import opened Text
  import opened Coordinates
  import SingleNode

  /** `initCoordinates()`: fresh coordinates for 1, 2, ..., 6 feet, in that order. */
  function InitCoordinates(): (cs: seq<DistanceCoordinates>)
    ensures |cs| == 6
    ensures forall i :: 0 <= i < 6 ==> cs[i] == Fresh(i + 1)
  {
    [Fresh(1), Fresh(2), Fresh(3), Fresh(4), Fresh(5), Fresh(6)]
  }

  /** The screen point of row `y` on the line `x == mid`. */
  function Row(mid: real, y: nat): ScreenPoint {
    ScreenPoint(mid, y as real)
  }

  /** What the sweep measures at each row: the inches, or nothing without a hit. */
  type Sampler = nat -> Option<nat>

  /** The sampler `scan` uses: `distanceTo` at each row of the line `x == mid`. */
  function RowSampler(world: World, metric: Metric, mid: real): Sampler {
    (y: nat) => SingleNode.Measure(world, metric, Row(mid, y))
  }

  /** The inner loop's step for one bucket: update only on a measurement. */
  function Observe(c: DistanceCoordinates, sample: Option<nat>, point: ScreenPoint): (r: DistanceCoordinates)
    ensures sample.None? ==> r == c
    ensures r.closestTo == c.closestTo && AtMost(r.distanceToPoint, c.distanceToPoint)
  {
    if sample.None? then c else UpdateIfClose(c, sample.value, point)
  }

  /**
   * A bucket after rows 0, 1, ..., rows - 1 have been swept: its target is
   * the one it started with, and its gap is no larger.
   */
  function Scanned(c: DistanceCoordinates, sample: Sampler, mid: real, rows: nat): (r: DistanceCoordinates)
    ensures r.closestTo == c.closestTo && AtMost(r.distanceToPoint, c.distanceToPoint)
  {
    if rows == 0 then c
    else Observe(Scanned(c, sample, mid, rows - 1), sample(rows - 1), Row(mid, rows - 1))
  }

  /** All six buckets after sweeping `rows` rows. */
  function ScanResult(sample: Sampler, mid: real, rows: nat): (cs: seq<DistanceCoordinates>)
    ensures |cs| == 6
  {
    seq(6, i requires 0 <= i < 6 => Scanned(Fresh(i + 1), sample, mid, rows))
  }

  /** The gap of row `y`'s measurement to `target` feet, in inches. */
  function RowDelta(sample: Sampler, target: nat, y: nat): nat
    requires sample(y).Some?
  {
    Delta(sample(y).value, target)
  }

  /**
   * Row `best` is the first of rows 0 .. rows - 1 closest to `target`: it
   * has a measurement, no row's gap is smaller, and every earlier row with
   * a measurement is strictly farther.
   */
  ghost predicate IsFirstClosest(sample: Sampler, target: nat, rows: nat, best: nat) {
    best < rows && sample(best).Some? &&
    forall y :: 0 <= y < rows && sample(y).Some? ==>
      RowDelta(sample, target, best) <= RowDelta(sample, target, y) &&
      (y < best ==> RowDelta(sample, target, best) < RowDelta(sample, target, y))
  }

  /** No row among 0 .. rows - 1 has a measurement. */
  ghost predicate NoHit(sample: Sampler, rows: nat) {
    forall y :: 0 <= y < rows ==> sample(y).None?
  }

  /**
   * What a sweep of `rows` rows should leave in the bucket for `target`:
   * the target itself; the sentinel, with the point still (0, 0), exactly
   * when no row had a measurement; otherwise the gap and the point of the
   * first row closest to the target.
   */
  ghost predicate Summarizes(c: DistanceCoordinates, target: nat, sample: Sampler, mid: real, rows: nat) {
    c.closestTo == target &&
    (c.distanceToPoint.Unresolved? <==> NoHit(sample, rows)) &&
    (c.distanceToPoint.Unresolved? ==> c == Fresh(target)) &&
    (c.distanceToPoint.Resolved? ==>
      exists best :: IsFirstClosest(sample, target, rows, best) &&
        c.point == Row(mid, best) && c.distanceToPoint.inches == RowDelta(sample, target, best))
  }

  /** A row without a measurement leaves a summary valid one row further. */
  lemma MissStep(c: DistanceCoordinates, target: nat, sample: Sampler, mid: real, n: nat)
    requires Summarizes(c, target, sample, mid, n)
    requires sample(n).None?
    ensures Summarizes(c, target, sample, mid, n + 1)
  {
    if c.distanceToPoint.Resolved? {
      var b :| IsFirstClosest(sample, target, n, b) && c.point == Row(mid, b) &&
        c.distanceToPoint.inches == RowDelta(sample, target, b);
      assert IsFirstClosest(sample, target, n + 1, b);
    }
  }

  /** A measured row that strictly improves becomes the first closest row. */
  lemma ImprovingStep(c: DistanceCoordinates, target: nat, sample: Sampler, mid: real, n: nat)
    requires Summarizes(c, target, sample, mid, n)
    requires sample(n).Some?
    requires Improves(RowDelta(sample, target, n), c.distanceToPoint)
    ensures Summarizes(UpdateIfClose(c, sample(n).value, Row(mid, n)), target, sample, mid, n + 1)
  {
    if c.distanceToPoint.Resolved? {
      var b :| IsFirstClosest(sample, target, n, b) && c.point == Row(mid, b) &&
        c.distanceToPoint.inches == RowDelta(sample, target, b);
    }
    assert IsFirstClosest(sample, target, n + 1, n);
  }

  /** A measured row that does not improve leaves the first closest row as it was. */
  lemma KeepingStep(c: DistanceCoordinates, target: nat, sample: Sampler, mid: real, n: nat)
    requires Summarizes(c, target, sample, mid, n)
    requires sample(n).Some?
    requires !Improves(RowDelta(sample, target, n), c.distanceToPoint)
    ensures Summarizes(c, target, sample, mid, n + 1)
  {
    var b :| IsFirstClosest(sample, target, n, b) && c.point == Row(mid, b) &&
      c.distanceToPoint.inches == RowDelta(sample, target, b);
    assert IsFirstClosest(sample, target, n + 1, b);
  }

  /**
   * After any sweep the bucket for `target` holds the smallest gap over
   * all measured rows and the earliest row attaining it, or the fresh
   * coordinates when no row was measured.
   */
  lemma {:induction false} ScannedIsFirstClosest(target: nat, sample: Sampler, mid: real, rows: nat)
    ensures Summarizes(Scanned(Fresh(target), sample, mid, rows), target, sample, mid, rows)
  {
    if rows > 0 {
      var n := rows - 1;
      ScannedIsFirstClosest(target, sample, mid, n);
      var prev := Scanned(Fresh(target), sample, mid, n);
      if sample(n).None? {
        MissStep(prev, target, sample, mid, n);
      } else if Improves(RowDelta(sample, target, n), prev.distanceToPoint) {
        ImprovingStep(prev, target, sample, mid, n);
      } else {
        KeepingStep(prev, target, sample, mid, n);
      }
    } else {
      assert NoHit(sample, 0);
    }
  }

  /**
   * The buckets a scan installs: bucket `i` is for `i + 1` feet and holds
   * the smallest gap to it over the measured rows with the earliest row
   * attaining it, or is fresh when no row was measured.
   */
  lemma ScanResultSummarizes(sample: Sampler, mid: real, rows: nat, i: nat)
    requires i < 6
    ensures Summarizes(ScanResult(sample, mid, rows)[i], i + 1, sample, mid, rows)
  {
    ScannedIsFirstClosest(i + 1, sample, mid, rows);
  }

  /** `abs(Int(c.y) - height)`, the comparator's key in `distanceText`. */
  function Offset(c: DistanceCoordinates, height: int): nat {
    Abs(Truncate(c.Y()) - height)
  }

  /** Index `k` is the first element of `ds` whose `y` is nearest `height`. */
  predicate IsFirstNearest(ds: seq<DistanceCoordinates>, height: int, k: nat) {
    k < |ds| &&
    (forall j :: 0 <= j < |ds| ==> Offset(ds[k], height) <= Offset(ds[j], height)) &&
    (forall j :: 0 <= j < k ==> Offset(ds[k], height) < Offset(ds[j], height))
  }

  /**
   * `min(by:)`: walks the elements from the front and replaces the
   * current minimum only by a strictly smaller one, so it ends with the
   * first nearest element.
   */
  function MinBy(ds: seq<DistanceCoordinates>, height: int, i: nat, best: nat): (k: nat)
    requires best < i <= |ds|
    requires forall j :: 0 <= j < i ==> Offset(ds[best], height) <= Offset(ds[j], height)
    requires forall j :: 0 <= j < best ==> Offset(ds[best], height) < Offset(ds[j], height)
    ensures IsFirstNearest(ds, height, k)
    decreases |ds| - i
  {
    if i == |ds| then best
    else if Offset(ds[i], height) < Offset(ds[best], height) then MinBy(ds, height, i + 1, i)
    else MinBy(ds, height, i + 1, best)
  }

  /** There is only one first nearest element. */
  lemma FirstNearestUnique(ds: seq<DistanceCoordinates>, height: int, k: nat, m: nat)
    requires IsFirstNearest(ds, height, k) && IsFirstNearest(ds, height, m)
    ensures k == m
  {
    assert Offset(ds[k], height) == Offset(ds[m], height);
  }

  /**
   * A sweep in which no row had a measurement leaves every bucket fresh:
   * all six points are (0, 0), so every height is nearest the first
   * bucket.
   */
  lemma NoHitScanIsFresh(sample: Sampler, mid: real, rows: nat, height: int)
    requires NoHit(sample, rows)
    ensures ScanResult(sample, mid, rows) == InitCoordinates()
    ensures IsFirstNearest(ScanResult(sample, mid, rows), height, 0)
  {
    forall i | 0 <= i < 6
      ensures ScanResult(sample, mid, rows)[i] == Fresh(i + 1)
    {
      ScannedIsFirstClosest(i + 1, sample, mid, rows);
    }
  }

  /**
   * One row of the sweep in terms of whole bucket sequences: without a
   * measurement the buckets stay, with one every bucket is updated.
   */
  lemma BucketStep(before: seq<DistanceCoordinates>, after: seq<DistanceCoordinates>,
                   sample: Sampler, mid: real, y: nat)
    requires before == ScanResult(sample, mid, y)
    requires sample(y).None? ==> after == before
    requires sample(y).Some? ==> (|after| == 6 &&
      forall i :: 0 <= i < 6 ==> after[i] == UpdateIfClose(before[i], sample(y).value, Row(mid, y)))
    ensures after == ScanResult(sample, mid, y + 1)
  {
  }

  /**
   * The inner loop of `scan`: `updateIfClose` on every bucket in turn,
   * each written back to its own index.
   */
  method UpdateEach(distances: seq<DistanceCoordinates>, inches: nat, point: ScreenPoint)
    returns (updated: seq<DistanceCoordinates>)
    ensures |updated| == |distances|
    ensures forall i :: 0 <= i < |distances| ==> updated[i] == UpdateIfClose(distances[i], inches, point)
  {
    updated := distances;
    var index := 0;
    while index < |updated|
      invariant 0 <= index <= |updated| == |distances|
      invariant forall i :: 0 <= i < index ==> updated[i] == UpdateIfClose(distances[i], inches, point)
      invariant forall i :: index <= i < |updated| ==> updated[i] == distances[i]
    {
      updated := updated[index := UpdateIfClose(updated[index], inches, point)];
      index := index + 1;
    }
  }

  /**
   * The scene holds the nodes in `base` and the copy's marker `shown`, if
   * any; the copy refers to `shown` when there is one and never to a node
   * of `base`.
   */
  ghost predicate Shows(children: set<SceneNode>, base: set<SceneNode>, copy: SingleNode.DistanceNode,
                        shown: Option<SceneNode>) {
    children == base + Members(shown) &&
    (shown.Some? ==> copy.tappedSceneKitNode == shown) &&
    Members(copy.tappedSceneKitNode) !! base
  }

  /** `shown` is a marker sphere exactly when row `y` had a hit, and then it sits at that hit. */
  ghost predicate MarksRow(shown: Option<SceneNode>, world: World, mid: real, y: nat) {
    (shown.Some? <==> SingleNode.Resolve(world, Row(mid, y)).Some?) &&
    (shown.Some? ==> shown.value.shape == Sphere(SingleNode.MarkerRadius) &&
                     Some(shown.value.position) == SingleNode.Resolve(world, Row(mid, y)))
  }

  /**
   * One row of the sweep: `distanceTo` on the copy. The previous marker
   * leaves the scene and the row's marker, if the row had a hit, takes
   * its place.
   */
  method SweepRow(copy: SingleNode.DistanceNode, mid: real, y: nat, world: World, metric: Metric,
                  ghost base: set<SceneNode>, ghost shown: Option<SceneNode>)
    returns (next: SingleNode.DistanceNode, inches: Option<nat>, ghost marker: Option<SceneNode>)
    requires Shows(copy.sceneView.children, base, copy, shown)
    modifies copy.sceneView
    ensures next.sceneView == copy.sceneView
    ensures inches == RowSampler(world, metric, mid)(y)
    ensures Shows(copy.sceneView.children, base, next, marker)
    ensures MarksRow(marker, world, mid, y)
    ensures marker.Some? ==> fresh(marker.value)
  {
    next, inches := SingleNode.DistanceTo(copy, Row(mid, y), world, metric);
    marker := if inches.Some? then next.tappedSceneKitNode else None;
  }

  class DistanceScanner {
    var distances: seq<DistanceCoordinates>

    /** A scanner that has not scanned: no buckets. */
    constructor ()
      ensures distances == []
    {
      distances := [];
    }

    /**
     * `distanceText(forHeight:)`: the target of the first bucket whose row
     * is nearest `height`, printed as a floating-point number ("3.0"), or
     * "" when there are no buckets (before any scan).
     */
    function DistanceText(height: int): (r: string)
      reads this
      ensures distances == [] ==> r == ""
      ensures distances != [] ==> exists k: nat :: IsFirstNearest(distances, height, k) &&
                                              r == WholeFloatText(distances[k].closestTo)
    {
      if distances == [] then ""
      else WholeFloatText(distances[MinBy(distances, height, 1, 0)].closestTo)
    }

    /**
     * With the buckets of a scan that found nothing, every height gets
     * the 1-foot label "1.0", not "".
     */
    lemma NoHitText(height: int)
      requires distances == InitCoordinates()
      ensures DistanceText(height) == "1.0"
    {
      var k: nat :| IsFirstNearest(distances, height, k) && DistanceText(height) == WholeFloatText(distances[k].closestTo);
      assert IsFirstNearest(distances, height, 0);
      FirstNearestUnique(distances, height, k, 0);
    }

    /**
     * `scan(onSurfaceSize:distanceNode:)`. Rebuilds the six buckets from
     * the rows 0 ... Int(height) of the line `x == width / 2`, measuring
     * each row with a private copy of `node`. The caller's struct cannot
     * change, but the scene it shares does: the caller's marker is
     * removed, and every row's marker is removed by the next row, so the
     * scene keeps a marker (`marker`) exactly when the last row had a hit.
     */
    method Scan(size: Size, node: SingleNode.DistanceNode, world: World, metric: Metric)
      returns (ghost marker: Option<SceneNode>)
      requires size.height > -1.0
      modifies this, node.sceneView
      ensures distances == ScanResult(RowSampler(world, metric, size.width / 2.0), size.width / 2.0, Truncate(size.height) + 1)
      ensures marker.Some? <==> SingleNode.Resolve(world, Row(size.width / 2.0, Truncate(size.height))).Some?
      ensures marker.Some? ==> fresh(marker.value) && marker.value.shape == Sphere(SingleNode.MarkerRadius) &&
                               Some(marker.value.position) == SingleNode.Resolve(world, Row(size.width / 2.0, Truncate(size.height)))
      ensures node.sceneView.children ==
              old(node.sceneView.children) - Members(node.tappedSceneKitNode) + Members(marker)
    {
      var copy := node;
      var scanned := InitCoordinates();
      var middleX := size.width / 2.0;
      var last := Truncate(size.height);
      ghost var sample := RowSampler(world, metric, middleX);
      ghost var base := node.sceneView.children - Members(node.tappedSceneKitNode);
      // The copy's marker while it is in the scene: at first the caller's.
      marker := if node.tappedSceneKitNode.Some? && node.tappedSceneKitNode.value in node.sceneView.children
                then node.tappedSceneKitNode else None;
      var y := 0;
      while y <= last
        invariant 0 <= y <= last + 1
        invariant scanned == ScanResult(sample, middleX, y)
        invariant copy.sceneView == node.sceneView
        invariant Shows(node.sceneView.children, base, copy, marker)
        invariant y > 0 ==> MarksRow(marker, world, middleX, y - 1)
        invariant y > 0 && marker.Some? ==> fresh(marker.value)
      {
        var point := Row(middleX, y);
        var inches;
        copy, inches, marker := SweepRow(copy, middleX, y, world, metric, base, marker);
        ghost var before := scanned;
        if inches.Some? {
          scanned := UpdateEach(scanned, inches.value, point);
        }
        BucketStep(before, scanned, sample, middleX, y);
        y := y + 1;
      }
      distances := scanned;
    }
  }

  /**
   * A scan depends only on the surface size and on what the world and the
   * metric report, not on earlier scans or on the caller's marker (which
   * the scan cannot change): scanning twice gives the same buckets.
   */
  method ScanTwice(scanner: DistanceScanner, size: Size, node: SingleNode.DistanceNode, world: World, metric: Metric)
    returns (first: seq<DistanceCoordinates>, second: seq<DistanceCoordinates>)
    requires size.height > -1.0
    modifies scanner, node.sceneView
    ensures first == second == scanner.distances
    ensures |second| == 6
  {
    var _ := scanner.Scan(size, node, world, metric);
    first := scanner.distances;
    var _ := scanner.Scan(size, node, world, metric);
    second := scanner.distances;
  }
}
