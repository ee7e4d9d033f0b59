/**
 * `Int.distanceText`: the label the view shows for a whole-number reading.
 * The source is a `switch` over ranges whose first matching case wins; it
 * is written below case by case, with the `default` branch kept. An
 * independent description by thresholds shows that the cases cover every
 * integer, partition it into seven bands in increasing order, and never
 * reach the `default`.
 */
module Bands {
  /** The switch as written: `...36`, `36 ..< 44`, ..., `64...`, `default`. */
  function DistanceText(n: int): (r: string)
    ensures r in BandLabels
  {
    if n <= 36 then "Less than 1"
    else if 36 <= n < 44 then "1"
    else if 44 <= n < 52 then "2"
    else if 52 <= n < 57 then "3"
    else if 57 <= n < 60 then "4"
    else if 60 <= n < 64 then "5"
    else if 64 <= n then "Over six"
    else ""
  }

  /** The first value of each band after the lowest. */
  const Thresholds: seq<int> := [37, 44, 52, 57, 60, 64]

  /** The labels of the seven bands, lowest first. */
  const BandLabels: seq<string> := ["Less than 1", "1", "2", "3", "4", "5", "Over six"]

  /** How many of the thresholds `ts` the value `n` has reached. */
  function Reached(ts: seq<int>, n: int): (k: nat)
    ensures k <= |ts|
  {
    if ts == [] then 0 else (if ts[0] <= n then 1 else 0) + Reached(ts[1..], n)
  }

  /** The band of `n`: 0 for the lowest, 6 for the highest. */
  function BandIndex(n: int): (k: nat)
    ensures k < |BandLabels|
  {
    Reached(Thresholds, n)
  }

  /** Reaching thresholds is monotone: a larger value reaches at least as many. */
  lemma {:induction false} ReachedMonotone(ts: seq<int>, m: int, n: int)
    requires m <= n
    ensures Reached(ts, m) <= Reached(ts, n)
  {
    if ts != [] {
      ReachedMonotone(ts[1..], m, n);
    }
  }

  /** The band index never decreases as the value grows. */
  lemma BandIndexMonotone(m: int, n: int)
    requires m <= n
    ensures BandIndex(m) <= BandIndex(n)
  {
    ReachedMonotone(Thresholds, m, n);
  }

  /**
   * On increasing thresholds, the ones `n` has reached are exactly a
   * prefix: every threshold before the count is at most `n`, every one
   * from the count on is above it.
   */
  lemma {:induction false} ReachedIsPrefix(ts: seq<int>, n: int)
    requires forall i, j :: 0 <= i < j < |ts| ==> ts[i] < ts[j]
    ensures forall i :: 0 <= i < Reached(ts, n) ==> ts[i] <= n
    ensures forall i :: Reached(ts, n) <= i < |ts| ==> n < ts[i]
  {
    if ts != [] {
      ReachedIsPrefix(ts[1..], n);
      if ts[0] <= n {
        forall i | 0 < i < Reached(ts, n) ensures ts[i] <= n {
          assert ts[i] == ts[1..][i - 1];
        }
        forall i | Reached(ts, n) <= i < |ts| ensures n < ts[i] {
          assert ts[i] == ts[1..][i - 1];
        }
      }
    }
  }

  /**
   * Band `k` is exactly the values from threshold `k - 1` (none for the
   * lowest) up to, not including, threshold `k` (none for the highest).
   */
  lemma BandBounds(n: int)
    ensures BandIndex(n) == 0 || Thresholds[BandIndex(n) - 1] <= n
    ensures BandIndex(n) == |Thresholds| || n < Thresholds[BandIndex(n)]
  {
    ReachedIsPrefix(Thresholds, n);
  }

  /**
   * Every value gets the label of its band; in particular 36 is still
   * "Less than 1", and the `default` label "" is never returned.
   */
  lemma DistanceTextIsBanded(n: int)
    ensures DistanceText(n) == BandLabels[BandIndex(n)]
    ensures DistanceText(n) != ""
  {
    BandBounds(n);
  }

  /** Two values share a label exactly when they share a band. */
  lemma SameLabelSameBand(m: int, n: int)
    ensures DistanceText(m) == DistanceText(n) <==> BandIndex(m) == BandIndex(n)
  {
    DistanceTextIsBanded(m);
    DistanceTextIsBanded(n);
    var a, b := BandIndex(m), BandIndex(n);
    if a != b {
      assert |BandLabels[a]| != |BandLabels[b]| || BandLabels[a][0] != BandLabels[b][0];
    }
  }
}
