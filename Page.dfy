/**
 * The home page: an 800 × 600 canvas, the built-in example graph, and the
 * page's own key handler, which loads the example graph on Enter.
 */
module Page {
  import opened Graph
  import opened Ring
  import opened Layout
  import opened Render
  import opened PromptCli

  const Width: real := 800.0
  const Height: real := 600.0

  /** The page's canvas centre. */
  function Centre(): (c: Point)
    ensures c == Point(400.0, 300.0)
  {
    CanvasCentre(Width, Height)
  }

  function Node(id: string, text: string, t: NodeType, parent: Option<string>): NodeDatum
  {
    NodeDatum(id, text, t, parent, None, None, None, None)
  }

  function Link(source: string, target: string, t: EdgeType): LinkDatum
  {
    LinkDatum(Name(source), Name(target), Some(t))
  }

  /** The example call graph: `main`, two classes and one method of each. */
  const ExampleGraph: GraphData := GraphData(
    [ Node("main", "main", Function, None),
      Node("foo", "foo", Class, None),
      Node("foo_methodA", "foo.methodA", Method, Some("foo")),
      Node("bar", "bar", Class, None),
      Node("bar_methodB", "bar.methodB", Method, Some("bar")) ],
    [ Link("foo_methodA", "main", Call),
      Link("bar_methodB", "main", Call),
      Link("foo", "foo_methodA", Contains),
      Link("bar", "bar_methodB", Contains) ],
    "CALL_GRAPH")

  /** The example's node ids, in order. */
  lemma ExampleIds()
    ensures |ExampleGraph.nodes| == 5
    ensures ExampleGraph.nodes[0].id == "main" && ExampleGraph.nodes[1].id == "foo"
    ensures ExampleGraph.nodes[2].id == "foo_methodA" && ExampleGraph.nodes[3].id == "bar"
    ensures ExampleGraph.nodes[4].id == "bar_methodB"
  {
  }

  /** No two example nodes share an id. */
  lemma ExampleUniqueIds()
    ensures UniqueIds(ExampleGraph.nodes)
  {
    ExampleIds();
  }

  /** Both ends of every example link are example nodes. */
  lemma ExampleLinksResolve()
    ensures forall e :: e in ExampleGraph.edges ==>
      HasNode(ExampleGraph.nodes, EndId(e.source)) && HasNode(ExampleGraph.nodes, EndId(e.target))
  {
    ExampleIds();
    var ns, es := ExampleGraph.nodes, ExampleGraph.edges;
    assert HasNode(ns, "main") && HasNode(ns, "foo") && HasNode(ns, "foo_methodA");
    assert HasNode(ns, "bar") && HasNode(ns, "bar_methodB");
    assert es == [Link("foo_methodA", "main", Call), Link("bar_methodB", "main", Call),
                  Link("foo", "foo_methodA", Contains), Link("bar", "bar_methodB", Contains)];
  }

  /** The parent of every example node that has one is an example node. */
  lemma ExampleParentsResolve()
    ensures forall n :: n in ExampleGraph.nodes && n.parent.Some? ==> HasNode(ExampleGraph.nodes, n.parent.value)
  {
    ExampleIds();
    var ns := ExampleGraph.nodes;
    assert HasNode(ns, "foo") && HasNode(ns, "bar");
    forall n | n in ns && n.parent.Some? ensures HasNode(ns, n.parent.value) {
      var k :| 0 <= k < |ns| && ns[k] == n;
      assert k == 2 || k == 4;
    }
  }

  /** The example graph has unique ids, and its links and parents name its nodes. */
  lemma ExampleWellFormed()
    ensures WellFormed(ExampleGraph)
  {
    ExampleUniqueIds();
    ExampleLinksResolve();
    ExampleParentsResolve();
  }

  /** The four directions at angles 0, π/2, π and 3π/2. */
  const QuarterTurns: seq<Dir> := [Dir(1.0, 0.0), Dir(0.0, 1.0), Dir(-1.0, 0.0), Dir(0.0, -1.0)]

  /** The quarter turns are four equally spaced directions. */
  lemma QuarterTurnsSpaced()
    ensures EquallySpaced(QuarterTurns, Dir(0.0, 1.0))
  {
    QuarterTurnsTurning();
    QuarterTurnsReturn();
  }

  /** Turning `(1, 0)` by a quarter turn four times runs through the quarter turns and back. */
  lemma QuarterTurnsTurning()
    ensures Turning(QuarterTurns, Dir(0.0, 1.0))
  {
  }

  /** The quarter turns come back to `(1, 0)` only after the fourth. */
  lemma QuarterTurnsReturn()
    ensures ReturnsAtEnd(QuarterTurns)
  {
    var q := QuarterTurns;
    assert q[0].c == 1.0 && q[1].c == 0.0 && q[2].c == -1.0 && q[3].c == 0.0;
  }

  /** The example's peripheral nodes are its last four, in input order. */
  lemma ExamplePeripheral()
    ensures Peripheral(ExampleGraph.nodes) == ExampleGraph.nodes[1..]
  {
    RootFirstPeripheral(ExampleGraph.nodes);
  }

  /** The example as laid out on the page. */
  const ExampleLaidOut: seq<NodeDatum> := [
    NodeDatum("main", "main", Function, None, None, None, Some(400.0), Some(300.0)),
    NodeDatum("foo", "foo", Class, None, Some(580.0), Some(300.0), None, None),
    NodeDatum("foo_methodA", "foo.methodA", Method, Some("foo"), Some(400.0), Some(480.0), None, None),
    NodeDatum("bar", "bar", Class, None, Some(220.0), Some(300.0), None, None),
    NodeDatum("bar_methodB", "bar.methodB", Method, Some("bar"), Some(400.0), Some(120.0), None, None) ]

  /** The ring positions of the example's peripheral nodes. */
  lemma ExamplePlaced()
    ensures PlaceEach(ExampleGraph.nodes[1..], Centre(), QuarterTurns) == ExampleLaidOut[1..]
  {
    var p := PlaceEach(ExampleGraph.nodes[1..], Centre(), QuarterTurns);
    var e := ExampleLaidOut[1..];
    assert p[0] == e[0];
    assert p[1] == e[1];
    assert p[2] == e[2];
    assert p[3] == e[3];
  }

  /** The example's first node is its root, and no other node is one. */
  lemma ExampleRootFirst()
    ensures ExampleGraph.nodes[0].id == Root
    ensures forall k :: 1 <= k < |ExampleGraph.nodes| ==> ExampleGraph.nodes[k].id != Root
  {
    ExampleWellFormed();
  }

  /** The example's root pinned at the page centre. */
  lemma ExamplePinned()
    ensures PinOne(ExampleGraph.nodes[0], Centre()) == ExampleLaidOut[0]
  {
  }

  /**
   * The example laid out on the page: `main` pinned at the centre (400, 300)
   * and the four other nodes, in input order, at angles 0, π/2, π and 3π/2 on
   * the ring of radius 180.
   */
  lemma ExampleLayout()
    ensures InitialLayout(ExampleGraph.nodes, Centre(), QuarterTurns) == ExampleLaidOut
  {
    var ns := ExampleGraph.nodes;
    ExampleRootFirst();
    RootFirstLayout(ns, Centre(), QuarterTurns);
    ExamplePlaced();
    ExamplePinned();
    var e := ExampleLaidOut;
    assert e == [e[0]] + e[1..];
  }

  /** On the page no two of the example's ring nodes share a position. */
  lemma ExampleSpread()
    ensures var ps := Peripheral(InitialLayout(ExampleGraph.nodes, Centre(), QuarterTurns));
      forall i, j :: 0 <= i < j < |ps| ==> ps[i].x != ps[j].x || ps[i].y != ps[j].y
  {
    ExamplePeripheral();
    QuarterTurnsSpaced();
    LayoutSpread(ExampleGraph.nodes, Centre(), QuarterTurns, Dir(0.0, 1.0));
  }

  /** In the example, call links are drawn solid and containment links dashed. */
  lemma ExampleStrokes()
    ensures forall e :: e in ExampleGraph.edges ==> (Solid(EdgeStroke(e.edgeType)) <==> e.edgeType == Some(Call))
  {
  }

  /**
   * The page's layout: every root node pinned at (400, 300) with its
   * coordinates untouched, every other node at distance 180 from (400, 300)
   * in the direction of its rank, ids and order kept.
   */
  lemma PageLayout(ns: seq<NodeDatum>, dirs: seq<Dir>, step: Dir)
    requires |dirs| == |Peripheral(ns)| && Turning(dirs, step)
    ensures var r := InitialLayout(ns, Centre(), dirs);
      && |r| == |ns|
      && (forall k :: 0 <= k < |ns| ==> r[k].id == ns[k].id)
      && (forall k :: 0 <= k < |ns| && ns[k].id == Root ==>
            r[k].fx == Some(400.0) && r[k].fy == Some(300.0) && r[k].x == ns[k].x && r[k].y == ns[k].y)
      && Peripheral(r) == PlaceEach(Peripheral(ns), Point(400.0, 300.0), dirs)
      && (forall i :: 0 <= i < |dirs| ==> OnRing(Peripheral(r)[i], Point(400.0, 300.0)))
  {
    LayoutKeepsNodes(ns, Centre(), dirs);
    LayoutRing(ns, Centre(), dirs, step);
  }

  /** The page's layout set-up on node objects. */
  method SetUp(graph: GraphData, dirs: seq<Dir>) returns (nodes: seq<SimNode>)
    requires |dirs| == |Peripheral(graph.nodes)|
    ensures |nodes| == |graph.nodes| && Distinct(nodes)
    ensures forall k :: 0 <= k < |nodes| ==> fresh(nodes[k])
    ensures ViewAll(nodes) == InitialLayout(graph.nodes, Point(400.0, 300.0), dirs)
  {
    nodes := SetUpLayout(graph, Width, Height, dirs);
  }

  /** The page's own key handler: Enter loads the example graph, whatever the field holds. */
  function HandleKeyDown(graph: Option<GraphData>, key: string): (r: Option<GraphData>)
    ensures key == Enter ==> r == Some(ExampleGraph)
    ensures key != Enter ==> r == graph
  {
    if key == Enter then Some(ExampleGraph) else graph
  }

  /**
   * Unlike the console, the page's handler loads the graph on a blank field
   * too; on a field with text both load it.
   */
  lemma PageAndConsoleOnEnter(s: CliState)
    ensures HandleKeyDown(s.graph, Enter) == Some(ExampleGraph)
    ensures KeyDown(s, Enter, ExampleGraph).graph == (if Blank(s.input) then s.graph else Some(ExampleGraph))
  {
    TrimEmptyIffBlank(s.input);
  }
}
