/**
 * The parts of the SceneKit scene graph the measuring code touches: nodes
 * with a fixed position and shape, and the view whose root node's child
 * set they are added to and removed from.
 */
module Scene {
  import opened Geometry

  /** The geometry of a node: a marker sphere or a text label. */
  datatype Shape = Sphere(radius: real) | Label(text: string)

  /** An SCNNode; nodes are compared by identity. */
  class SceneNode {
    const shape: Shape
    const position: Vector3

    constructor (shape: Shape, position: Vector3)
      ensures this.shape == shape && this.position == position
    {
      this.shape := shape;
      this.position := position;
    }
  }

  /**
   * An ARSCNView: its frame, and the children of its scene's root node.
   * Every node in the model has either this root as parent or none, so
   * `removeFromParentNode` is removal from `children`.
   */
  class SceneView {
    const frame: Size
    var children: set<SceneNode>

    constructor (frame: Size)
      ensures this.frame == frame && children == {}
    {
      this.frame := frame;
      children := {};
    }

    /** `rootNode.addChildNode(node)`. */
    method AddChildNode(node: SceneNode)
      modifies this
      ensures children == old(children) + {node}
    {
      children := children + {node};
    }

    /** `node.removeFromParentNode()`; a node that is not a child is left alone. */
    method RemoveFromParent(node: SceneNode)
      modifies this
      ensures children == old(children) - {node}
    {
      children := children - {node};
    }

    /** `node?.removeFromParentNode()` on an optional node. */
    method RemoveIfPresent(node: Option<SceneNode>)
      modifies this
      ensures children == old(children) - Members(node)
    {
      if node.Some? {
        RemoveFromParent(node.value);
      }
    }
  }

  /** The node an optional holds, as a set. */
  function Members(node: Option<SceneNode>): set<SceneNode> {
    if node.Some? then {node.value} else {}
  }

  /** The text labels among a set of nodes. */
  function Labels(nodes: set<SceneNode>): set<SceneNode> {
    set n | n in nodes && n.shape.Label?
  }
}
