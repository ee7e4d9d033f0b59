/**
 * ARKit's hit test as the measuring code sees it: for a screen point the
 * world yields its hits nearest first, and a request for some result
 * types keeps the hits of those types in that order.
 */
module HitTesting {
  import opened Geometry

  /** ARHitTestResult.ResultType. */
  datatype HitKind =
    | FeaturePoint
    | EstimatedHorizontalPlane
    | EstimatedVerticalPlane
    | ExistingPlane
    | ExistingPlaneUsingExtent
    | ExistingPlaneUsingGeometry

  /** One ARHitTestResult: its type and its world transform. */
  datatype HitResult = HitResult(kind: HitKind, worldTransform: Transform)

  /** Every hit along the ray through a screen point, nearest first. */
  type World = ScreenPoint -> seq<HitResult>

  /** The hits whose type is one of `types`, in their original order. */
  function Keep(hits: seq<HitResult>, types: set<HitKind>): (r: seq<HitResult>)
    ensures |r| <= |hits|
    ensures forall h :: h in r <==> h in hits && h.kind in types
  {
    if hits == [] then []
    else (if hits[0].kind in types then [hits[0]] else []) + Keep(hits[1..], types)
  }

  /** `sceneView.hitTest(location, types:)`. */
  function HitTest(world: World, location: ScreenPoint, types: set<HitKind>): (r: seq<HitResult>)
    ensures |r| <= |world(location)|
    ensures forall h :: h in r <==> h in world(location) && h.kind in types
  {
    Keep(world(location), types)
  }

  lemma {:induction false} KeepAppend(a: seq<HitResult>, b: seq<HitResult>, types: set<HitKind>)
    ensures Keep(a + b, types) == Keep(a, types) + Keep(b, types)
  {
    if a != [] {
      assert (a + b)[1..] == a[1..] + b;
      KeepAppend(a[1..], b, types);
    } else {
      assert a + b == b;
    }
  }

  /** The index of the first hit of a given type (`first(where:)`). */
  function FirstIndexOf(hits: seq<HitResult>, kind: HitKind): (r: Option<nat>)
    ensures r.Some? ==> r.value < |hits| && hits[r.value].kind == kind
    ensures r.Some? ==> forall j :: 0 <= j < r.value ==> hits[j].kind != kind
    ensures r.None? ==> forall j :: 0 <= j < |hits| ==> hits[j].kind != kind
  {
    if hits == [] then None
    else if hits[0].kind == kind then Some(0)
    else match FirstIndexOf(hits[1..], kind)
      case None => None
      case Some(i) => Some(i + 1)
  }

  /** The index of the last hit of a given type. */
  function LastIndexOf(hits: seq<HitResult>, kind: HitKind): (r: Option<nat>)
    ensures r.Some? ==> r.value < |hits| && hits[r.value].kind == kind
    ensures r.Some? ==> forall j :: r.value < j < |hits| ==> hits[j].kind != kind
    ensures r.None? ==> forall j :: 0 <= j < |hits| ==> hits[j].kind != kind
  {
    if hits == [] then None
    else if hits[|hits| - 1].kind == kind then Some(|hits| - 1)
    else LastIndexOf(hits[..|hits| - 1], kind)
  }

  /** `Array.last`. */
  function Last(hits: seq<HitResult>): (r: Option<HitResult>)
    ensures r.None? <==> hits == []
    ensures r.Some? ==> r.value == hits[|hits| - 1]
  {
    if hits == [] then None else Some(hits[|hits| - 1])
  }

  /**
   * The last hit of a one-type request is the last hit of that type in
   * the whole list, and there is none exactly when the list has no hit of
   * that type.
   */
  lemma {:induction false} LastOfOneKind(hits: seq<HitResult>, kind: HitKind)
    ensures Last(Keep(hits, {kind})) ==
      match LastIndexOf(hits, kind)
      case None => None
      case Some(i) => Some(hits[i])
  {
    if hits != [] {
      var front, x := hits[..|hits| - 1], hits[|hits| - 1];
      assert hits == front + [x];
      KeepAppend(front, [x], {kind});
      assert [x][1..] == [];
      assert Keep([x], {kind}) == if x.kind == kind then [x] else [];
      assert LastIndexOf(hits, kind) ==
        if x.kind == kind then Some(|hits| - 1) else LastIndexOf(front, kind);
      LastOfOneKind(front, kind);
    }
  }
}
