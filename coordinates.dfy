/**
 * DistanceCoordinates: the best screen point found so far for one target
 * distance.
 *
 * The source compares feet, `|inches / 12 - closestTo|`. The model keeps
 * the same quantity multiplied by twelve, `|inches - 12 * closestTo|`, so
 * every comparison is between whole numbers of inches and, in exact
 * arithmetic, orders as the feet do. The sentinel
 * `CGFloat.greatestFiniteMagnitude` is the distinguished gap
 * `Unresolved`, greater than every measured gap.
 */
module Coordinates {
  import opened Geometry

  /** `distanceToPoint`, in inches (twelfths of the source's feet). */
  datatype Gap = Unresolved | Resolved(inches: nat)

  /** A measured gap `delta` beats `g` (the source's `delta < distanceToPoint`). */
  predicate Improves(delta: nat, g: Gap) {
    g.Unresolved? || delta < g.inches
  }

  /** Gap `a` is no larger than gap `b`. */
  predicate AtMost(a: Gap, b: Gap) {
    b.Unresolved? || (a.Resolved? && a.inches <= b.inches)
  }

  /** `abs(feet - closestTo)`, scaled to inches. */
  function Delta(inches: nat, closestTo: nat): nat {
    Abs(inches - 12 * closestTo)
  }

  /** `abs(feet - closestTo)` with `feet == inches / 12` in exact arithmetic. */
  function FeetGap(inches: nat, closestTo: nat): real {
    var feet := inches as real / 12.0;
    if feet >= closestTo as real then feet - closestTo as real else closestTo as real - feet
  }

  /**
   * The gap in inches is exactly twelve times the gap in feet, so
   * comparing gaps in inches orders samples as comparing them in feet.
   */
  lemma DeltaIsTwelveFeetGaps(a: nat, b: nat, closestTo: nat)
    ensures Delta(a, closestTo) as real == 12.0 * FeetGap(a, closestTo)
    ensures Delta(a, closestTo) < Delta(b, closestTo) <==> FeetGap(a, closestTo) < FeetGap(b, closestTo)
  {
  }

  datatype DistanceCoordinates = DistanceCoordinates(point: ScreenPoint, distanceToPoint: Gap, closestTo: nat)
  {
    /** The computed property `y`. */
    function Y(): real {
      point.y
    }
  }

  /**
   * `init(closestTo:)`: the given target, `y` 0, and the sentinel gap,
   * so that the first measured reading always moves the bucket.
   */
  function Fresh(closestTo: nat): (c: DistanceCoordinates)
    ensures c.closestTo == closestTo && c.Y() == 0.0 && c.distanceToPoint.Unresolved?
    ensures forall inches: nat, point :: UpdateIfClose(c, inches, point).point == point
  {
    DistanceCoordinates(ScreenPoint(0.0, 0.0), Unresolved, closestTo)
  }

  /**
   * `mutating updateIfClose(feet:point:)`, as the value after the call.
   * The coordinates change exactly when the new sample strictly improves
   * on the stored gap (a tie does not); then they hold the new gap and
   * point, otherwise nothing changes. The target never changes and the
   * gap never grows.
   */
  function UpdateIfClose(c: DistanceCoordinates, inches: nat, point: ScreenPoint): (r: DistanceCoordinates)
    ensures r.closestTo == c.closestTo
    ensures r != c <==> Improves(Delta(inches, c.closestTo), c.distanceToPoint)
    ensures Improves(Delta(inches, c.closestTo), c.distanceToPoint) ==>
      r.distanceToPoint == Resolved(Delta(inches, c.closestTo)) && r.point == point
    ensures !Improves(Delta(inches, c.closestTo), c.distanceToPoint) ==> r == c
    ensures AtMost(r.distanceToPoint, c.distanceToPoint)
  {
    var delta := Delta(inches, c.closestTo);
    if Improves(delta, c.distanceToPoint) then c.(distanceToPoint := Resolved(delta), point := point) else c
  }

  /** One call `updateIfClose(feet: inches / 12, point: point)`. */
  datatype Sample = Sample(inches: nat, point: ScreenPoint)

  /** The coordinates after a sequence of `updateIfClose` calls, in order. */
  function Replay(c: DistanceCoordinates, samples: seq<Sample>): DistanceCoordinates {
    if samples == [] then c
    else
      var last := samples[|samples| - 1];
      UpdateIfClose(Replay(c, samples[..|samples| - 1]), last.inches, last.point)
  }

  /**
   * Across any sequence of calls the target stays fixed and the gap never
   * increases: after more calls it is at most what it was after fewer.
   */
  lemma {:induction false} ReplayNeverWorsens(c: DistanceCoordinates, samples: seq<Sample>, i: nat, j: nat)
    requires i <= j <= |samples|
    ensures Replay(c, samples[..j]).closestTo == c.closestTo
    ensures AtMost(Replay(c, samples[..j]).distanceToPoint, Replay(c, samples[..i]).distanceToPoint)
  {
    if j > 0 {
      assert samples[..j][..j - 1] == samples[..j - 1];
    }
    if i < j {
      ReplayNeverWorsens(c, samples, i, j - 1);
    } else if j > 0 {
      ReplayNeverWorsens(c, samples, j - 1, j - 1);
    }
  }
}
