/**
 * The reusable graph view: the same layout, stroke, drag and tick code as
 * the home page, on a 960 × 720 canvas.  Its label offsets are written with
 * a final "every other type" branch instead of an explicit function case.
 */
module GraphView {
  import opened Graph
  import opened Ring
  import opened Layout
  import Render

  const Width: real := 960.0
  const Height: real := 720.0

  /** The view's canvas centre. */
  function Centre(): (c: Point)
    ensures c == Point(480.0, 360.0)
  {
    CanvasCentre(Width, Height)
  }

  /**
   * The view's layout: every root node pinned at (480, 360) with its
   * coordinates untouched, every other node copied unchanged and then placed
   * at distance 180 from (480, 360) in the direction of its rank, ids and
   * order kept.
   */
  lemma ViewLayout(ns: seq<NodeDatum>, dirs: seq<Dir>, step: Dir)
    requires |dirs| == |Peripheral(ns)| && Turning(dirs, step)
    ensures var r := InitialLayout(ns, Centre(), dirs);
      && |r| == |ns|
      && (forall k :: 0 <= k < |ns| ==> r[k].id == ns[k].id)
      && (forall k :: 0 <= k < |ns| && ns[k].id == Root ==>
            r[k].fx == Some(480.0) && r[k].fy == Some(360.0) && r[k].x == ns[k].x && r[k].y == ns[k].y)
      && (forall k :: 0 <= k < |ns| && ns[k].id != Root ==> r[k].fx == ns[k].fx && r[k].fy == ns[k].fy)
      && Peripheral(r) == PlaceEach(Peripheral(ns), Point(480.0, 360.0), dirs)
      && (forall i :: 0 <= i < |dirs| ==> OnRing(Peripheral(r)[i], Point(480.0, 360.0)))
  {
    LayoutKeepsNodes(ns, Centre(), dirs);
    LayoutRing(ns, Centre(), dirs, step);
  }

  /** The view's layout set-up on node objects. */
  method SetUp(graph: GraphData, dirs: seq<Dir>) returns (nodes: seq<SimNode>)
    requires |dirs| == |Peripheral(graph.nodes)|
    ensures |nodes| == |graph.nodes| && Distinct(nodes)
    ensures forall k :: 0 <= k < |nodes| ==> fresh(nodes[k])
    ensures ViewAll(nodes) == InitialLayout(graph.nodes, Point(480.0, 360.0), dirs)
  {
    nodes := SetUpLayout(graph, Width, Height, dirs);
  }

  /** The view's label offset: half the rectangle for classes and methods, 0 otherwise. */
  function LabelOffset(t: NodeType): (r: Point)
    ensures r == Render.CentreOffset(Render.ShapeOf(t))
  {
    if t == Class then Point(Render.ClassWidth / 2.0, Render.ClassHeight / 2.0)
    else if t == Method then Point(Render.MethodWidth / 2.0, Render.MethodHeight / 2.0)
    else Point(0.0, 0.0)
  }

  /**
   * The view's label offsets agree with the page's for every node type, so
   * here too each label lands on its node's simulated centre.
   */
  lemma LabelsAsOnPage(n: NodeDatum)
    ensures LabelOffset(n.nodeType) == Render.LabelOffset(n.nodeType)
    ensures Render.Add(Render.Transform(n), LabelOffset(n.nodeType)) == Render.Centre(n)
  {
    Render.LabelAtCentre(n);
  }
}
