/**
 * The graph handed to the viewer: nodes (code entities), links (call and
 * containment relations) and a free-form graph kind.  A node value is
 * `NodeDatum`; the copies that the layout and the drag handlers update in
 * place are `SimNode` objects.
 */
module Graph {

  datatype Option<T> = None | Some(value: T)
  {
    /** The value, or `default` when absent (the source's `??`). */
    function GetOr(default: T): T
    {
      match this
      case Some(v) => v
      case None => default
    }
  }

  /** The id of the root node that is pinned at the canvas centre. */
  const Root: string := "main"

  datatype NodeType = Class | Method | Function

  datatype EdgeType = Call | Contains

  /**
   * A node record.  Coordinates and pins are optional: `None` stands for both
   * an absent field and `null`.
   */
  datatype NodeDatum = NodeDatum(
    id: string,
    labelText: string,
    nodeType: NodeType,
    parent: Option<string>,
    x: Option<real>,
    y: Option<real>,
    fx: Option<real>,
    fy: Option<real>)

  /**
   * A node object of the running layout.  Its identity fields never change;
   * its position and pin are written by the ring placement and by dragging.
   */
  class SimNode {
    const id: string
    const labelText: string
    const nodeType: NodeType
    const parent: Option<string>
    var x: Option<real>
    var y: Option<real>
    var fx: Option<real>
    var fy: Option<real>

    /** A shallow copy of the record `n` (the source's `{ ...node }`). */
    constructor (n: NodeDatum)
      ensures View() == n
    {
      id, labelText, nodeType, parent := n.id, n.labelText, n.nodeType, n.parent;
      x, y, fx, fy := n.x, n.y, n.fx, n.fy;
    }

    /** The record this object currently holds. */
    function View(): (r: NodeDatum)
      reads this
      ensures r.id == id && r.nodeType == nodeType
    {
      NodeDatum(id, labelText, nodeType, parent, x, y, fx, fy)
    }
  }

  /** The records held by a sequence of node objects, in order. */
  function ViewAll(s: seq<SimNode>): (r: seq<NodeDatum>)
    reads set n | n in s
    ensures |r| == |s|
    ensures forall k :: 0 <= k < |s| ==> r[k] == s[k].View()
  {
    if s == [] then [] else [s[0].View()] + ViewAll(s[1..])
  }

  /** No object occurs twice. */
  predicate Distinct(s: seq<SimNode>)
  {
    forall i, j :: 0 <= i < j < |s| ==> s[i] != s[j]
  }

  /**
   * One end of a link: an id as supplied, or the node object the layout
   * library resolved it to.
   */
  datatype LinkEnd = Name(id: string) | Ref(node: SimNode)

  datatype LinkDatum = LinkDatum(source: LinkEnd, target: LinkEnd, edgeType: Option<EdgeType>)

  datatype GraphData = GraphData(nodes: seq<NodeDatum>, edges: seq<LinkDatum>, graphType: string)

  /** The id a link end names, whether resolved or not. */
  function EndId(e: LinkEnd): string
  {
    match e
    case Name(id) => id
    case Ref(n) => n.id
  }

  /** No two nodes share an id. */
  predicate UniqueIds(nodes: seq<NodeDatum>)
  {
    forall i, j :: 0 <= i < j < |nodes| ==> nodes[i].id != nodes[j].id
  }

  predicate HasNode(nodes: seq<NodeDatum>, id: string)
  {
    exists k :: 0 <= k < |nodes| && nodes[k].id == id
  }

  /**
   * Unique ids, every link end and every parent names a node.  Nothing in the
   * viewer enforces this; it is stated to describe the example graph.
   */
  predicate WellFormed(g: GraphData)
  {
    && UniqueIds(g.nodes)
    && (forall e :: e in g.edges ==> HasNode(g.nodes, EndId(e.source)) && HasNode(g.nodes, EndId(e.target)))
    && (forall n :: n in g.nodes && n.parent.Some? ==> HasNode(g.nodes, n.parent.value))
  }
}
