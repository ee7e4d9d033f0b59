/**
 * DistanceNodes: the two-marker variant. A tap puts one sphere where the
 * tap hits a feature point and another where the bottom centre of the
 * screen does (standing in for the device), and a text label at the
 * tapped sphere giving the distance between the two in whole feet.
 *
 * The struct is a value (a datatype); its mutating `setTapped` is a
 * method that takes the struct's value and returns its new value, while
 * the scene view it holds is shared and changed in place.
 */
module TwoNodes {
  import opened Geometry
  import opened HitTesting
  import opened Scene
  import opened Text

  /** The radius of the spheres this variant's `toSphere` makes. */
  const MarkerRadius: real := 0.03

  /** How far above the bottom edge of the view the device point lies. */
  const DeviceInset: real := 20.0

  /** The struct `Nodes`: the tapped sphere and the device sphere. */
  datatype Nodes = Nodes(tapped: SceneNode, device: SceneNode)
  {
    /** `distanceInInches`: the measure of the offset from the device to the tapped point. */
    function DistanceInInches(metric: Metric): nat {
      metric(Minus(tapped.position, device.position))
    }
  }

  /** The spheres an optional pair holds, as a set. */
  function NodeSet(nodes: Option<Nodes>): set<SceneNode> {
    if nodes.Some? then {nodes.value.tapped, nodes.value.device} else {}
  }

  /** `Nodes.add(to:)`: the device sphere, then the tapped one, become children. */
  method AddNodes(nodes: Nodes, to: SceneView)
    modifies to
    ensures to.children == old(to.children) + NodeSet(Some(nodes))
  {
    to.AddChildNode(nodes.device);
    to.AddChildNode(nodes.tapped);
  }

  /** `Nodes.remove()`: both spheres leave the scene; any other child stays. */
  method RemoveNodes(nodes: Nodes, from: SceneView)
    modifies from
    ensures from.children == old(from.children) - NodeSet(Some(nodes))
  {
    from.RemoveFromParent(nodes.tapped);
    from.RemoveFromParent(nodes.device);
  }

  /**
   * `filter(at:)`: the last hit of a feature-point request, which is the
   * last feature point among all hits at the location, or nothing when
   * there is none.
   */
  function Filter(world: World, location: ScreenPoint): (r: Option<HitResult>)
    ensures r == match LastIndexOf(world(location), FeaturePoint)
                 case None => None
                 case Some(i) => Some(world(location)[i])
  {
    LastOfOneKind(world(location), FeaturePoint);
    Last(HitTest(world, location, {FeaturePoint}))
  }

  /** `node` is this variant's sphere at the translation of `hit`. */
  ghost predicate IsMarkerFor(node: SceneNode, hit: Option<HitResult>) {
    hit.Some? && node.shape == Sphere(MarkerRadius) && node.position == Translation(hit.value.worldTransform)
  }

  /** `pointToNode`: a fresh sphere at the filtered hit, or nothing without one. */
  method PointToNode(world: World, point: ScreenPoint) returns (node: Option<SceneNode>)
    ensures node.None? <==> Filter(world, point).None?
    ensures node.Some? ==> fresh(node.value) && IsMarkerFor(node.value, Filter(world, point))
  {
    var hit := Filter(world, point);
    if hit.None? {
      return None;
    }
    var t := hit.value.worldTransform;
    var sphere := new SceneNode(Sphere(MarkerRadius), Vector3(t.m41, t.m42, t.m43));
    node := Some(sphere);
  }

  /**
   * The label text `"\(inches / 12) Feet"`: the whole feet, truncated, in
   * decimal, then " Feet".
   */
  function FeetLabel(inches: nat): (s: string)
    ensures |s| > 5 && s[|s| - 5..] == " Feet"
    ensures AllDigits(s[..|s| - 5]) && DigitsValue(s[..|s| - 5]) == inches / 12
    ensures s[0] == '0' ==> inches / 12 == 0 && s == "0 Feet"
  {
    var digits := NatToString(inches / 12);
    NatToStringRoundTrip(inches / 12);
    assert (digits + " Feet")[..|digits|] == digits;
    digits + " Feet"
  }

  /** Distinct readings in feet get distinct labels. */
  lemma FeetLabelInjective(a: nat, b: nat)
    requires FeetLabel(a) == FeetLabel(b)
    ensures a / 12 == b / 12
  {
    var s := FeetLabel(a);
    assert DigitsValue(s[..|s| - 5]) == a / 12;
  }

  /** The struct DistanceNodes. */
  datatype DistanceNodes = DistanceNodes(sceneView: SceneView, nodes: Option<Nodes>, textNode: Option<SceneNode>)

  /** `init(sceneView:)`: no spheres and no label yet. */
  function Init(sceneView: SceneView): (dn: DistanceNodes)
    ensures dn.sceneView == sceneView && dn.nodes.None? && dn.textNode.None?
  {
    DistanceNodes(sceneView, None, None)
  }

  /** Where the device sphere is sought: the middle of the view, `DeviceInset` above its bottom. */
  function DevicePoint(frame: Size): (p: ScreenPoint)
    ensures p.x == frame.width / 2.0 && p.y == frame.height - DeviceInset
  {
    ScreenPoint(frame.width / 2.0, frame.height - DeviceInset)
  }

  /**
   * `addTextNode(at:)` as the source has it. The method is not
   * `mutating` and its `let textNode` is a new local that shadows the
   * field, so the stored `textNode` is never set: the removal of the old
   * label removes whatever the struct holds, which is never anything
   * `addTextNode` made. Without nodes nothing happens; otherwise a fresh
   * label with the pair's distance in feet is added at `location`.
   */
  method AddTextNodeAsWritten(dn: DistanceNodes, location: Vector3, metric: Metric)
    returns (ghost shown: Option<SceneNode>)
    modifies dn.sceneView
    ensures shown.None? <==> dn.nodes.None?
    ensures dn.nodes.None? ==> dn.sceneView.children == old(dn.sceneView.children)
    ensures shown.Some? ==> (fresh(shown.value) &&
      shown.value.shape == Label(FeetLabel(dn.nodes.value.DistanceInInches(metric))) &&
      shown.value.position == location &&
      dn.sceneView.children == old(dn.sceneView.children) - Members(dn.textNode) + {shown.value})
  {
    if dn.nodes.None? {
      return None;
    }
    dn.sceneView.RemoveIfPresent(dn.textNode);
    var textNode := new SceneNode(Label(FeetLabel(dn.nodes.value.DistanceInInches(metric))), location);
    dn.sceneView.AddChildNode(textNode);
    shown := Some(textNode);
  }

  /**
   * What the shadowing does: starting from a struct that has nodes and
   * no stored label, as every struct has when `textNode` is never
   * assigned, two calls leave two different labels in the scene, the
   * first of them never removed.
   */
  method LabelsPileUpAsWritten(dn: DistanceNodes, location: Vector3, metric: Metric)
    returns (ghost first: SceneNode, ghost second: SceneNode)
    requires dn.nodes.Some? && dn.textNode.None?
    modifies dn.sceneView
    ensures first != second
    ensures {first, second} <= Labels(dn.sceneView.children)
  {
    var a := AddTextNodeAsWritten(dn, location, metric);
    var b := AddTextNodeAsWritten(dn, location, metric);
    first, second := a.value, b.value;
  }

  /**
   * `addTextNode(at:)` as evidently intended: the new label is stored in
   * the struct, so the next call removes it. When the scene's labels are
   * at most the stored one before, they are at most the stored one after.
   */
  method AddTextNode(dn: DistanceNodes, location: Vector3, metric: Metric) returns (updated: DistanceNodes)
    modifies dn.sceneView
    ensures updated.sceneView == dn.sceneView && updated.nodes == dn.nodes
    ensures dn.nodes.None? ==> updated == dn && dn.sceneView.children == old(dn.sceneView.children)
    ensures dn.nodes.Some? ==> (updated.textNode.Some? &&
      var shown := updated.textNode.value;
      fresh(shown) &&
      shown.shape == Label(FeetLabel(dn.nodes.value.DistanceInInches(metric))) &&
      shown.position == location &&
      dn.sceneView.children == old(dn.sceneView.children) - Members(dn.textNode) + {shown})
    ensures Labels(old(dn.sceneView.children)) <= Members(dn.textNode) ==>
            Labels(dn.sceneView.children) <= Members(updated.textNode)
  {
    if dn.nodes.None? {
      return dn;
    }
    dn.sceneView.RemoveIfPresent(dn.textNode);
    var textNode := new SceneNode(Label(FeetLabel(dn.nodes.value.DistanceInInches(metric))), location);
    dn.sceneView.AddChildNode(textNode);
    updated := dn.(textNode := Some(textNode));
  }

  /**
   * `mutating setTapped(at:)`. The stored spheres leave the scene first.
   * Unless both the tap and the device point hit a feature point, the
   * struct is unchanged (still naming the removed spheres) and nothing is
   * added. Otherwise two fresh spheres at the two hits become the stored
   * pair and join the scene, and the label for their distance replaces
   * the stored one. At most one label is ever in the scene.
   */
  method SetTapped(dn: DistanceNodes, location: ScreenPoint, world: World, metric: Metric)
    returns (updated: DistanceNodes)
    modifies dn.sceneView
    ensures updated.sceneView == dn.sceneView
    ensures Filter(world, location).None? || Filter(world, DevicePoint(dn.sceneView.frame)).None? ==>
      updated == dn && dn.sceneView.children == old(dn.sceneView.children) - NodeSet(dn.nodes)
    ensures Filter(world, location).Some? && Filter(world, DevicePoint(dn.sceneView.frame)).Some? ==>
      (updated.nodes.Some? && updated.textNode.Some? &&
       var pair, shown := updated.nodes.value, updated.textNode.value;
       fresh(pair.tapped) && fresh(pair.device) && fresh(shown) &&
       IsMarkerFor(pair.tapped, Filter(world, location)) &&
       IsMarkerFor(pair.device, Filter(world, DevicePoint(dn.sceneView.frame))) &&
       shown.shape == Label(FeetLabel(pair.DistanceInInches(metric))) &&
       shown.position == pair.tapped.position &&
       dn.sceneView.children ==
         old(dn.sceneView.children) - NodeSet(dn.nodes) - Members(dn.textNode) + {pair.device, pair.tapped, shown})
    ensures Labels(old(dn.sceneView.children)) <= Members(dn.textNode) ==>
            Labels(dn.sceneView.children) <= Members(updated.textNode)
  {
    if dn.nodes.Some? {
      RemoveNodes(dn.nodes.value, dn.sceneView);
    }
    var device := DevicePoint(dn.sceneView.frame);
    var tappedNode := PointToNode(world, location);
    if tappedNode.None? {
      return dn;
    }
    var deviceNode := PointToNode(world, device);
    if deviceNode.None? {
      return dn;
    }
    var pair := Nodes(tappedNode.value, deviceNode.value);
    updated := dn.(nodes := Some(pair));
    AddNodes(pair, dn.sceneView);
    updated := AddTextNode(updated, pair.tapped.position, metric);
  }
}
