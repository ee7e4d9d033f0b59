/**
 * DistanceCalculator: the class form of DistanceNode. Its public
 * `tappedSceneKitNode` is a field that `distanceTo` updates in place; the
 * hit selection and the marker creation are SingleNode's.
 */
module Calculator {
  import opened Geometry
  import opened HitTesting
  import opened Scene
  import SingleNode

  class DistanceCalculator {
    const sceneView: SceneView
    var tappedSceneKitNode: Option<SceneNode>

    /** `init(sceneView:)`. */
    constructor (sceneView: SceneView)
      ensures this.sceneView == sceneView && tappedSceneKitNode.None?
    {
      this.sceneView := sceneView;
      tappedSceneKitNode := None;
    }

    /** The private `distanceInInches`: the tapped marker's distance, if any. */
    function DistanceInInches(metric: Metric): (r: Option<nat>)
      reads this
      ensures r.Some? <==> tappedSceneKitNode.Some?
      ensures r.Some? ==> r.value == metric(tappedSceneKitNode.value.position)
    {
      SingleNode.MarkerInches(tappedSceneKitNode, metric)
    }

    /**
     * `distanceTo(_:)`: removes the old marker, then either reports
     * nothing (keeping the reference to the removed marker and adding no
     * node) or makes a fresh marker the tapped node, adds exactly it and
     * reports its distance.
     */
    method DistanceTo(point: ScreenPoint, world: World, metric: Metric) returns (inches: Option<nat>)
      modifies this, sceneView
      ensures inches == SingleNode.Measure(world, metric, point)
      ensures inches.None? ==> tappedSceneKitNode == old(tappedSceneKitNode) &&
                               sceneView.children == old(sceneView.children) - Members(old(tappedSceneKitNode))
      ensures inches.Some? ==> tappedSceneKitNode.Some? && fresh(tappedSceneKitNode.value)
      ensures inches.Some? ==> tappedSceneKitNode.value.shape == Sphere(SingleNode.MarkerRadius) &&
                               Some(tappedSceneKitNode.value.position) == SingleNode.Resolve(world, point) &&
                               inches == DistanceInInches(metric)
      ensures inches.Some? ==> sceneView.children ==
                               old(sceneView.children) - Members(old(tappedSceneKitNode)) + {tappedSceneKitNode.value}
    {
      sceneView.RemoveIfPresent(tappedSceneKitNode);
      var tappedNode := SingleNode.PointToNode(world, point);
      if tappedNode.None? {
        return None;
      }
      tappedSceneKitNode := tappedNode;
      sceneView.AddChildNode(tappedNode.value);
      inches := DistanceInInches(metric);
    }
  }
}
