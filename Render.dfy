/**
 * What each simulation tick draws, as numbers: the stroke style of a link
 * (fixed by its type), the group transform and label offset of a node (fixed
 * by its type and current coordinates), and the two endpoints of a link line
 * (the current centres of the node objects it joins).
 */
module Render {
  import opened Graph
  import opened Layout

  // ------------------------------------------------------------ edge style

  datatype Stroke = Stroke(colour: string, width: nat, dash: string, opacity: real)

  /**
   * The stroke of a link: containment links are light, thin and dashed; all
   * others (calls, and links without a type) dark, thick and solid.
   */
  function EdgeStroke(t: Option<EdgeType>): (s: Stroke)
    ensures s.opacity == 0.7
    ensures t == Some(Contains) ==> s == Stroke("#aaa", 2, "6,4", 0.7)
    ensures t != Some(Contains) ==> s == Stroke("#999", 3, "0", 0.7)
  {
    var contains := t == Some(Contains);
    Stroke(
      if contains then "#aaa" else "#999",
      if contains then 2 else 3,
      if contains then "6,4" else "0",
      0.7)
  }

  /** A solid line: the dash pattern "0". */
  predicate Solid(s: Stroke)
  {
    s.dash == "0"
  }

  /**
   * A link is drawn dashed exactly when it is a containment link, and a
   * dashed link is always thinner and lighter than a solid one.
   */
  lemma DashedIffContains(t: Option<EdgeType>, u: Option<EdgeType>)
    ensures !Solid(EdgeStroke(t)) <==> t == Some(Contains)
    ensures !Solid(EdgeStroke(t)) && Solid(EdgeStroke(u)) ==>
      EdgeStroke(t).width < EdgeStroke(u).width && EdgeStroke(t).colour != EdgeStroke(u).colour
  {
  }

  // ----------------------------------------------------------- node shapes

  const ClassWidth: real := 100.0
  const ClassHeight: real := 60.0
  const MethodWidth: real := 90.0
  const MethodHeight: real := 60.0
  const FunctionRadius: real := 28.0

  datatype Shape = Rect(width: real, height: real) | Circle(radius: real)

  /** Classes are large rectangles, methods smaller ones, functions circles. */
  function ShapeOf(t: NodeType): (s: Shape)
    ensures s.Rect? <==> t != Function
    ensures s.Rect? ==> s.height == 60.0 && s.width == (if t == Class then 100.0 else 90.0)
    ensures s.Circle? ==> s.radius == 28.0
  {
    match t
    case Class => Rect(ClassWidth, ClassHeight)
    case Method => Rect(MethodWidth, MethodHeight)
    case Function => Circle(FunctionRadius)
  }

  /**
   * Where a shape's centre lies relative to its drawing origin: a rectangle
   * is drawn from its top-left corner, a circle around its centre.
   */
  function CentreOffset(s: Shape): Point
  {
    match s
    case Rect(w, h) => Point(w / 2.0, h / 2.0)
    case Circle(_) => Point(0.0, 0.0)
  }

  function Add(p: Point, q: Point): Point
  {
    Point(p.x + q.x, p.y + q.y)
  }

  /** The node's simulated centre, a missing coordinate read as 0. */
  function Centre(n: NodeDatum): Point
  {
    Point(n.x.GetOr(0.0), n.y.GetOr(0.0))
  }

  /**
   * The translation of a node's group, by the case split the view uses: it
   * moves the shape's own centre onto the node's simulated centre.
   */
  function Transform(n: NodeDatum): (r: Point)
    ensures Add(r, CentreOffset(ShapeOf(n.nodeType))) == Centre(n)
  {
    var x, y := n.x.GetOr(0.0), n.y.GetOr(0.0);
    match n.nodeType
    case Class => Point(x - ClassWidth / 2.0, y - ClassHeight / 2.0)
    case Method => Point(x - MethodWidth / 2.0, y - MethodHeight / 2.0)
    case Function => Point(x, y)
  }

  /** The position of a node's label inside its group: the shape's centre. */
  function LabelOffset(t: NodeType): (r: Point)
    ensures r == CentreOffset(ShapeOf(t))
  {
    match t
    case Class => Point(ClassWidth / 2.0, ClassHeight / 2.0)
    case Method => Point(MethodWidth / 2.0, MethodHeight / 2.0)
    case Function => Point(0.0, 0.0)
  }

  /**
   * The transform puts each shape's centre on the simulated centre: it is
   * the centre minus the shape's own centre offset (half its extent for a
   * rectangle, nothing for a circle).
   */
  lemma TransformCentresShape(n: NodeDatum)
    ensures Add(Transform(n), CentreOffset(ShapeOf(n.nodeType))) == Centre(n)
    ensures n.nodeType == Class ==> Transform(n) == Point(n.x.GetOr(0.0) - 50.0, n.y.GetOr(0.0) - 30.0)
    ensures n.nodeType == Method ==> Transform(n) == Point(n.x.GetOr(0.0) - 45.0, n.y.GetOr(0.0) - 30.0)
    ensures n.nodeType == Function ==> Transform(n) == Centre(n)
  {
  }

  /**
   * The label sits at the shape's centre, and so, after the transform, at the
   * simulated centre of the node, for every node type.
   */
  lemma LabelAtCentre(n: NodeDatum)
    ensures LabelOffset(n.nodeType) == CentreOffset(ShapeOf(n.nodeType))
    ensures Add(Transform(n), LabelOffset(n.nodeType)) == Centre(n)
  {
    TransformCentresShape(n);
  }

  // ------------------------------------------------------------ link lines

  /** The objects a link end reads. */
  function EndObjects(e: LinkEnd): set<SimNode>
  {
    if e.Ref? then {e.node} else {}
  }

  /**
   * Where a link end is drawn: at the current coordinates of the node object
   * it was resolved to, with 0 for a missing coordinate and for an end that
   * is still only an id.
   */
  function EndPoint(e: LinkEnd): (p: Point)
    reads EndObjects(e)
    ensures e.Name? ==> p == Point(0.0, 0.0)
    ensures e.Ref? ==> p == Centre(e.node.View())
  {
    match e
    case Name(_) => Point(0.0, 0.0)
    case Ref(n) => Point(n.x.GetOr(0.0), n.y.GetOr(0.0))
  }

  datatype Line = Line(x1: real, y1: real, x2: real, y2: real)

  /** The line of a link, from its source end to its target end. */
  function LinkLine(l: LinkDatum): (r: Line)
    reads EndObjects(l.source), EndObjects(l.target)
    ensures Point(r.x1, r.y1) == EndPoint(l.source) && Point(r.x2, r.y2) == EndPoint(l.target)
  {
    var s, t := EndPoint(l.source), EndPoint(l.target);
    Line(s.x, s.y, t.x, t.y)
  }

  /**
   * Lines join node centres, with no clipping at shape borders: a resolved
   * end of a line is exactly where that node's label is drawn.
   */
  lemma LinesMeetLabels(l: LinkDatum)
    ensures l.source.Ref? ==>
      var n := l.source.node.View();
      Point(LinkLine(l).x1, LinkLine(l).y1) == Add(Transform(n), LabelOffset(n.nodeType))
    ensures l.target.Ref? ==>
      var n := l.target.node.View();
      Point(LinkLine(l).x2, LinkLine(l).y2) == Add(Transform(n), LabelOffset(n.nodeType))
  {
    if l.source.Ref? {
      LabelAtCentre(l.source.node.View());
    }
    if l.target.Ref? {
      LabelAtCentre(l.target.node.View());
    }
  }
}
