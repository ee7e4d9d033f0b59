/**
 * DistanceNode: one marker at the tapped point, measured from the scene
 * origin. The struct holds the scene view (a shared reference) and the
 * optional last marker; its mutating `distanceTo` is a method that takes
 * the struct's value and returns its new value.
 *
 * The hit selection (`filter`), the marker creation (`pointToNode`) and
 * the measurement of a marker are the same in DistanceCalculator, which
 * uses the members below.
 */
module SingleNode {
  import opened Geometry
  import opened HitTesting
  import opened Scene

  /** The result types requested by `filter(at:)`. */
  const SearchedKinds: set<HitKind> := {FeaturePoint, EstimatedHorizontalPlane, ExistingPlaneUsingGeometry}

  /** The radius of the orange marker sphere made by `toSphere`. */
  const MarkerRadius: real := 0.01

  /**
   * `filter(at:)` on the hits returned: the first hit on an existing plane
   * (using its geometry) if there is one, otherwise the last hit, and
   * nothing for no hits.
   */
  function Filter(hits: seq<HitResult>): (r: Option<HitResult>)
    ensures r.None? <==> hits == []
    ensures r.Some? ==> r.value in hits
    ensures (exists i :: 0 <= i < |hits| && hits[i].kind == ExistingPlaneUsingGeometry) ==>
      exists i :: 0 <= i < |hits| && r == Some(hits[i]) && hits[i].kind == ExistingPlaneUsingGeometry &&
        forall j :: 0 <= j < i ==> hits[j].kind != ExistingPlaneUsingGeometry
    ensures (forall i :: 0 <= i < |hits| ==> hits[i].kind != ExistingPlaneUsingGeometry) ==>
      r == Last(hits)
  {
    match FirstIndexOf(hits, ExistingPlaneUsingGeometry)
    case Some(i) => Some(hits[i])
    case None => Last(hits)
  }

  /** Where `pointToNode` puts the marker for a tap: the chosen hit's translation. */
  function Resolve(world: World, point: ScreenPoint): (r: Option<Vector3>)
    ensures r.None? <==> HitTest(world, point, SearchedKinds) == []
    ensures r.Some? ==> exists h :: h in HitTest(world, point, SearchedKinds) && r.value == Translation(h.worldTransform)
  {
    match Filter(HitTest(world, point, SearchedKinds))
    case None => None
    case Some(hit) => Some(Translation(hit.worldTransform))
  }

  /**
   * What `distanceTo` reports for a tap: the inches from the origin to the
   * marker, or nothing when no hit is found.
   */
  function Measure(world: World, metric: Metric, point: ScreenPoint): (r: Option<nat>)
    ensures r.None? <==> HitTest(world, point, SearchedKinds) == []
    ensures r.Some? ==> exists h :: h in HitTest(world, point, SearchedKinds) && r.value == metric(Translation(h.worldTransform))
    ensures r.Some? ==> Resolve(world, point).Some? && r.value == metric(Resolve(world, point).value)
  {
    match Resolve(world, point)
    case None => None
    case Some(v) => Some(metric(v))
  }

  /**
   * `pointToNode`: a fresh marker sphere at the translation of the hit
   * `filter` chooses, or nothing when there is no hit.
   */
  method PointToNode(world: World, point: ScreenPoint) returns (node: Option<SceneNode>)
    ensures node.None? <==> Filter(HitTest(world, point, SearchedKinds)).None?
    ensures node.Some? ==> fresh(node.value) && node.value.shape == Sphere(MarkerRadius)
    ensures node.Some? ==> Some(node.value.position) == Resolve(world, point)
    ensures node.Some? ==>
      node.value.position == Translation(Filter(HitTest(world, point, SearchedKinds)).value.worldTransform)
  {
    var hit := Filter(HitTest(world, point, SearchedKinds));
    if hit.None? {
      return None;
    }
    var t := hit.value.worldTransform;
    var sphere := new SceneNode(Sphere(MarkerRadius), Vector3(t.m41, t.m42, t.m43));
    node := Some(sphere);
  }

  /** `tappedSceneKitNode?.distanceInInches`. */
  function MarkerInches(marker: Option<SceneNode>, metric: Metric): (r: Option<nat>)
    ensures r.Some? <==> marker.Some?
    ensures r.Some? ==> r.value == metric(marker.value.position)
  {
    match marker
    case None => None
    case Some(n) => Some(metric(n.position))
  }

  /** The struct DistanceNode. */
  datatype DistanceNode = DistanceNode(sceneView: SceneView, tappedSceneKitNode: Option<SceneNode>)

  /** `init(sceneView:)`: no marker yet. */
  function Init(sceneView: SceneView): (node: DistanceNode)
    ensures node.sceneView == sceneView && node.tappedSceneKitNode.None?
  {
    DistanceNode(sceneView, None)
  }

  /**
   * `mutating distanceTo(_:)`. The old marker is removed from the scene
   * first. Without a hit the result is nothing and the struct is
   * unchanged: it still refers to the marker just removed. With a hit a
   * fresh marker becomes the tapped node and is the one node added, and
   * its distance is returned. Either way the result depends on the point
   * alone, not on the struct.
   */
  method DistanceTo(node: DistanceNode, point: ScreenPoint, world: World, metric: Metric)
    returns (updated: DistanceNode, inches: Option<nat>)
    modifies node.sceneView
    ensures inches == Measure(world, metric, point)
    ensures updated.sceneView == node.sceneView
    ensures inches.None? ==> (updated == node &&
      node.sceneView.children == old(node.sceneView.children) - Members(node.tappedSceneKitNode))
    ensures inches.Some? ==> (updated.tappedSceneKitNode.Some? &&
      var marker := updated.tappedSceneKitNode.value;
      fresh(marker) && marker.shape == Sphere(MarkerRadius) &&
      Some(marker.position) == Resolve(world, point) &&
      inches == Some(metric(marker.position)) &&
      node.sceneView.children == old(node.sceneView.children) - Members(node.tappedSceneKitNode) + {marker})
  {
    node.sceneView.RemoveIfPresent(node.tappedSceneKitNode);
    var tapped := PointToNode(world, point);
    if tapped.None? {
      return node, None;
    }
    updated := node.(tappedSceneKitNode := tapped);
    node.sceneView.AddChildNode(tapped.value);
    inches := MarkerInches(updated.tappedSceneKitNode, metric);
  }
}
