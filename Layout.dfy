/**
 * Initial layout of a graph on a canvas of size `w × h`: the root node
 * (id "main") is copied with its pin set to the canvas centre, every other
 * node is copied unchanged, and then the non-root ("peripheral") nodes, taken
 * in input order, are moved onto a circle of radius 180 around the centre.
 *
 * The pure functions `PinRoot`, `Peripheral` and `Star` specify the steps;
 * `SetUpLayout` performs them on node objects as the view does, writing the
 * ring positions in place through the filtered list.
 */
module Layout {
  import opened Graph
  import opened Ring

  datatype Point = Point(x: real, y: real)

  /** Radius of the ring of peripheral nodes. */
  const Radius: real := 180.0

  /** The centre of a `w × h` canvas. */
  function CanvasCentre(w: real, h: real): (c: Point)
    ensures c.x + c.x == w && c.y + c.y == h
  {
    Point(w / 2.0, h / 2.0)
  }

  // ---------------------------------------------------------------- pinning

  /** One element of the root-pinning map. */
  function PinOne(n: NodeDatum, c: Point): NodeDatum
  {
    if n.id == Root then n.(fx := Some(c.x), fy := Some(c.y)) else n
  }

  /**
   * The root-pinning copy of the node list: same length and order; a root
   * node gets its pin at `c` and keeps everything else; every other node is
   * an unchanged copy.
   */
  function PinRoot(ns: seq<NodeDatum>, c: Point): (r: seq<NodeDatum>)
    ensures |r| == |ns|
    ensures forall k :: 0 <= k < |ns| && ns[k].id != Root ==> r[k] == ns[k]
    ensures forall k :: 0 <= k < |ns| && ns[k].id == Root ==>
      r[k].fx == Some(c.x) && r[k].fy == Some(c.y) && r[k].(fx := ns[k].fx, fy := ns[k].fy) == ns[k]
  {
    if ns == [] then [] else [PinOne(ns[0], c)] + PinRoot(ns[1..], c)
  }

  /** Pinning the root maps `PinOne` over the list. */
  lemma {:induction false} PinRootEach(ns: seq<NodeDatum>, c: Point)
    ensures forall k :: 0 <= k < |ns| ==> PinRoot(ns, c)[k] == PinOne(ns[k], c)
  {
    if ns != [] {
      PinRootEach(ns[1..], c);
      assert forall k :: 1 <= k < |ns| ==> ns[1..][k - 1] == ns[k];
    }
  }

  // -------------------------------------------------------------- filtering

  /** The nodes whose id is not the root's, in input order. */
  function Peripheral(ns: seq<NodeDatum>): (r: seq<NodeDatum>)
    ensures |r| <= |ns|
    ensures forall k :: 0 <= k < |r| ==> r[k].id != Root
  {
    if ns == [] then []
    else if ns[0].id == Root then Peripheral(ns[1..])
    else [ns[0]] + Peripheral(ns[1..])
  }

  /**
   * The filter keeps exactly the nodes whose id is not the root's: every
   * element comes from the input, and every such input node is kept.
   */
  lemma {:induction false} PeripheralMembers(ns: seq<NodeDatum>)
    ensures forall n :: n in Peripheral(ns) ==> n in ns
    ensures forall k :: 0 <= k < |ns| && ns[k].id != Root ==> ns[k] in Peripheral(ns)
  {
    if ns != [] {
      PeripheralMembers(ns[1..]);
      forall k | 1 <= k < |ns| && ns[k].id != Root ensures ns[k] in Peripheral(ns) {
        assert ns[1..][k - 1] == ns[k];
      }
    }
  }

  /** Filtering distributes over concatenation: input order is kept. */
  lemma {:induction false} PeripheralAppend(a: seq<NodeDatum>, b: seq<NodeDatum>)
    ensures Peripheral(a + b) == Peripheral(a) + Peripheral(b)
  {
    if a == [] {
      assert a + b == b;
    } else {
      assert (a + b)[0] == a[0];
      assert (a + b)[1..] == a[1..] + b;
      PeripheralAppend(a[1..], b);
    }
  }

  /** A list without root nodes is its own peripheral list. */
  lemma {:induction false} PeripheralOfNonRoots(ns: seq<NodeDatum>)
    requires forall k :: 0 <= k < |ns| ==> ns[k].id != Root
    ensures Peripheral(ns) == ns
  {
    if ns != [] {
      PeripheralOfNonRoots(ns[1..]);
    }
  }

  /** A list whose only root node is its first has its tail as peripheral list. */
  lemma RootFirstPeripheral(ns: seq<NodeDatum>)
    requires ns != [] && ns[0].id == Root
    requires forall k :: 1 <= k < |ns| ==> ns[k].id != Root
    ensures Peripheral(ns) == ns[1..]
  {
    PeripheralOfNonRoots(ns[1..]);
  }

  /** Pinning the root does not change which nodes are peripheral, nor them. */
  lemma {:induction false} PeripheralOfPinned(ns: seq<NodeDatum>, c: Point)
    ensures Peripheral(PinRoot(ns, c)) == Peripheral(ns)
  {
    if ns != [] {
      assert PinRoot(ns, c)[1..] == PinRoot(ns[1..], c);
      PeripheralOfPinned(ns[1..], c);
    }
  }

  // ----------------------------------------------------------- ring placing

  /** `n` moved to distance `Radius` from `c` in direction `d`. */
  function PlaceAt(n: NodeDatum, c: Point, d: Dir): NodeDatum
  {
    n.(x := Some(c.x + Radius * d.c), y := Some(c.y + Radius * d.s))
  }

  /** The peripheral list after the placement loop: element `i` is placed in direction `dirs[i]`. */
  function PlaceEach(ps: seq<NodeDatum>, c: Point, dirs: seq<Dir>): (r: seq<NodeDatum>)
    requires |dirs| == |ps|
    ensures |r| == |ps|
    ensures forall i :: 0 <= i < |ps| ==> r[i] == PlaceAt(ps[i], c, dirs[i])
  {
    seq(|ps|, i requires 0 <= i < |ps| => PlaceAt(ps[i], c, dirs[i]))
  }

  /**
   * The whole node list after the placement loop: each peripheral node, in
   * turn, takes the next direction; root nodes are left as they are.
   */
  function Star(ns: seq<NodeDatum>, c: Point, dirs: seq<Dir>): (r: seq<NodeDatum>)
    requires |dirs| == |Peripheral(ns)|
    ensures |r| == |ns|
    ensures forall k :: 0 <= k < |ns| ==>
      r[k].(x := ns[k].x, y := ns[k].y) == ns[k]
    ensures forall k :: 0 <= k < |ns| && ns[k].id == Root ==> r[k] == ns[k]
  {
    if ns == [] then []
    else if ns[0].id == Root then [ns[0]] + Star(ns[1..], c, dirs)
    else [PlaceAt(ns[0], c, dirs[0])] + Star(ns[1..], c, dirs[1..])
  }

  /** The peripheral nodes of the laid-out list are the placed peripheral nodes, in order. */
  lemma {:induction false} PeripheralOfStar(ns: seq<NodeDatum>, c: Point, dirs: seq<Dir>)
    requires |dirs| == |Peripheral(ns)|
    ensures Peripheral(Star(ns, c, dirs)) == PlaceEach(Peripheral(ns), c, dirs)
  {
    if ns != [] {
      var s := Star(ns, c, dirs);
      if ns[0].id == Root {
        assert s == [ns[0]] + Star(ns[1..], c, dirs);
        assert s[1..] == Star(ns[1..], c, dirs);
        PeripheralOfStar(ns[1..], c, dirs);
      } else {
        assert s == [PlaceAt(ns[0], c, dirs[0])] + Star(ns[1..], c, dirs[1..]);
        assert s[1..] == Star(ns[1..], c, dirs[1..]);
        PeripheralOfStar(ns[1..], c, dirs[1..]);
        PlaceEachCons(ns[0], Peripheral(ns[1..]), c, dirs);
      }
    }
  }

  /** Placing a list with a head places the head with the first direction. */
  lemma PlaceEachCons(n: NodeDatum, ps: seq<NodeDatum>, c: Point, dirs: seq<Dir>)
    requires |dirs| == |ps| + 1
    ensures PlaceEach([n] + ps, c, dirs) == [PlaceAt(n, c, dirs[0])] + PlaceEach(ps, c, dirs[1..])
  {
    var l, r := PlaceEach([n] + ps, c, dirs), [PlaceAt(n, c, dirs[0])] + PlaceEach(ps, c, dirs[1..]);
    forall i | 0 <= i < |l| ensures l[i] == r[i] {
      if i > 0 {
        assert ([n] + ps)[i] == ps[i - 1];
      }
    }
  }

  /**
   * `Star` is the only list that keeps every id, keeps every root node, and
   * whose peripheral nodes are the placed peripheral nodes.
   */
  lemma {:induction false} StarUnique(pre: seq<NodeDatum>, post: seq<NodeDatum>, c: Point, dirs: seq<Dir>)
    requires |dirs| == |Peripheral(pre)|
    requires |post| == |pre|
    requires forall k :: 0 <= k < |pre| ==> post[k].id == pre[k].id
    requires forall k :: 0 <= k < |pre| && pre[k].id == Root ==> post[k] == pre[k]
    requires Peripheral(post) == PlaceEach(Peripheral(pre), c, dirs)
    ensures post == Star(pre, c, dirs)
  {
    if pre != [] {
      var pre', post' := pre[1..], post[1..];
      assert forall k :: 0 <= k < |pre'| ==> post'[k].id == pre'[k].id && (pre'[k].id == Root ==> post'[k] == pre'[k]) by {
        forall k | 0 <= k < |pre'|
          ensures post'[k].id == pre'[k].id && (pre'[k].id == Root ==> post'[k] == pre'[k])
        {
          assert post'[k] == post[k + 1] && pre'[k] == pre[k + 1];
        }
      }
      StarUniqueStep(pre, post, c, dirs);
      var dirs' := if pre[0].id == Root then dirs else dirs[1..];
      StarUnique(pre', post', c, dirs');
      assert post == [post[0]] + post';
    }
  }

  /** The first step of `StarUnique`: what the head tells about the tails. */
  lemma StarUniqueStep(pre: seq<NodeDatum>, post: seq<NodeDatum>, c: Point, dirs: seq<Dir>)
    requires pre != [] && |post| == |pre| && post[0].id == pre[0].id
    requires |dirs| == |Peripheral(pre)|
    requires pre[0].id == Root ==> post[0] == pre[0]
    requires Peripheral(post) == PlaceEach(Peripheral(pre), c, dirs)
    ensures pre[0].id == Root ==> Peripheral(post[1..]) == PlaceEach(Peripheral(pre[1..]), c, dirs)
    ensures pre[0].id != Root ==>
      |dirs| > 0 && post[0] == PlaceAt(pre[0], c, dirs[0])
      && Peripheral(post[1..]) == PlaceEach(Peripheral(pre[1..]), c, dirs[1..])
  {
    if pre[0].id != Root {
      assert Peripheral(post) == [post[0]] + Peripheral(post[1..]);
      assert Peripheral(pre) == [pre[0]] + Peripheral(pre[1..]);
      assert PlaceEach(Peripheral(pre), c, dirs)[1..] == PlaceEach(Peripheral(pre[1..]), c, dirs[1..]);
    }
  }

  /** A node with both coordinates set, exactly `Radius` from `c`. */
  predicate OnRing(p: NodeDatum, c: Point)
  {
    && p.x.Some? && p.y.Some?
    && (p.x.value - c.x) * (p.x.value - c.x) + (p.y.value - c.y) * (p.y.value - c.y) == Radius * Radius
  }

  /** Every placed node is exactly `Radius` away from the centre. */
  lemma PlacedOnCircle(n: NodeDatum, c: Point, d: Dir)
    requires Unit(d)
    ensures OnRing(PlaceAt(n, c, d), c)
  {
    var p := PlaceAt(n, c, d);
    calc {
      (p.x.value - c.x) * (p.x.value - c.x) + (p.y.value - c.y) * (p.y.value - c.y);
      (Radius * d.c) * (Radius * d.c) + (Radius * d.s) * (Radius * d.s);
      Radius * Radius * (d.c * d.c + d.s * d.s);
    }
  }

  /**
   * Consecutive ring nodes, and the last and the first, are all the same
   * distance apart: equal angular spacing, stated without trigonometry.
   */
  lemma RingEquidistant(ps: seq<NodeDatum>, c: Point, dirs: seq<Dir>, step: Dir, i: nat)
    requires |dirs| == |ps| && Turning(dirs, step)
    requires i < |ps|
    ensures var r := PlaceEach(ps, c, dirs);
      var j := if i + 1 == |ps| then 0 else i + 1;
      (r[j].x.value - r[i].x.value) * (r[j].x.value - r[i].x.value)
        + (r[j].y.value - r[i].y.value) * (r[j].y.value - r[i].y.value)
      == Radius * Radius * ((step.c - 1.0) * (step.c - 1.0) + step.s * step.s)
  {
    var r := PlaceEach(ps, c, dirs);
    var j := if i + 1 == |ps| then 0 else i + 1;
    EquallySpacedUnit(dirs, step, i);
    assert dirs[j] == Rotate(dirs[i], step);
    assert r[i] == PlaceAt(ps[i], c, dirs[i]) && r[j] == PlaceAt(ps[j], c, dirs[j]);
    PlacedChord(ps[i], ps[j], c, dirs[i], step);
  }

  /** Nodes placed in different directions land at different positions. */
  lemma RingDistinct(ps: seq<NodeDatum>, c: Point, dirs: seq<Dir>)
    requires |dirs| == |ps| && DistinctDirs(dirs)
    ensures var r := PlaceEach(ps, c, dirs);
      forall i, j :: 0 <= i < j < |r| ==> r[i].x != r[j].x || r[i].y != r[j].y
  {
  }

  /**
   * Two nodes placed in directions one `step` apart are `Radius` times the
   * step's chord apart.
   */
  lemma PlacedChord(a: NodeDatum, b: NodeDatum, c: Point, d: Dir, step: Dir)
    requires Unit(d)
    ensures var p, q := PlaceAt(a, c, d), PlaceAt(b, c, Rotate(d, step));
      (q.x.value - p.x.value) * (q.x.value - p.x.value) + (q.y.value - p.y.value) * (q.y.value - p.y.value)
      == Radius * Radius * ((step.c - 1.0) * (step.c - 1.0) + step.s * step.s)
  {
    ChordLength(d, step);
    var e := Rotate(d, step);
    var u, v := e.c - d.c, e.s - d.s;
    calc {
      (Radius * u) * (Radius * u) + (Radius * v) * (Radius * v);
      Radius * Radius * (u * u + v * v);
    }
  }

  // ------------------------------------------------------------ the layout

  /** The initial layout as a value: pin the root, then place the ring. */
  function InitialLayout(ns: seq<NodeDatum>, c: Point, dirs: seq<Dir>): (r: seq<NodeDatum>)
    requires |dirs| == |Peripheral(ns)|
    ensures |r| == |ns|
  {
    PeripheralOfPinned(ns, c);
    Star(PinRoot(ns, c), c, dirs)
  }

  /**
   * What the initial layout promises of every node by its index: same length
   * and order of ids and types; a root node is pinned at the centre with its
   * coordinates untouched; every other node keeps its pin.
   */
  lemma LayoutKeepsNodes(ns: seq<NodeDatum>, c: Point, dirs: seq<Dir>)
    requires |dirs| == |Peripheral(ns)|
    ensures var r := InitialLayout(ns, c, dirs);
      && |r| == |ns|
      && (forall k :: 0 <= k < |ns| ==>
            r[k].id == ns[k].id && r[k].labelText == ns[k].labelText
            && r[k].nodeType == ns[k].nodeType && r[k].parent == ns[k].parent)
      && (forall k :: 0 <= k < |ns| && ns[k].id == Root ==>
            r[k].fx == Some(c.x) && r[k].fy == Some(c.y) && r[k].x == ns[k].x && r[k].y == ns[k].y)
      && (forall k :: 0 <= k < |ns| && ns[k].id != Root ==> r[k].fx == ns[k].fx && r[k].fy == ns[k].fy)
  {
    PeripheralOfPinned(ns, c);
    var pinned := PinRoot(ns, c);
    var r := Star(pinned, c, dirs);
    forall k | 0 <= k < |ns|
      ensures r[k].id == ns[k].id && r[k].labelText == ns[k].labelText
      ensures r[k].nodeType == ns[k].nodeType && r[k].parent == ns[k].parent
      ensures ns[k].id == Root ==> r[k].fx == Some(c.x) && r[k].fy == Some(c.y) && r[k].x == ns[k].x && r[k].y == ns[k].y
      ensures ns[k].id != Root ==> r[k].fx == ns[k].fx && r[k].fy == ns[k].fy
    {
      assert r[k].(x := pinned[k].x, y := pinned[k].y) == pinned[k];
    }
  }

  /**
   * What the initial layout promises of the ring: the peripheral nodes are,
   * in input order, the input's peripheral nodes placed in the given
   * directions, and each of them lies at distance `Radius` from the centre.
   */
  lemma LayoutRing(ns: seq<NodeDatum>, c: Point, dirs: seq<Dir>, step: Dir)
    requires |dirs| == |Peripheral(ns)| && Turning(dirs, step)
    ensures var ps := Peripheral(InitialLayout(ns, c, dirs));
      && ps == PlaceEach(Peripheral(ns), c, dirs)
      && (forall i :: 0 <= i < |ps| ==> OnRing(ps[i], c))
  {
    PeripheralOfPinned(ns, c);
    PeripheralOfStar(PinRoot(ns, c), c, dirs);
    var placed := PlaceEach(Peripheral(ns), c, dirs);
    forall i | 0 <= i < |placed| ensures OnRing(placed[i], c) {
      EquallySpacedUnit(dirs, step, i);
      PlacedOnCircle(Peripheral(ns)[i], c, dirs[i]);
    }
  }

  /** With equally spaced directions, no two ring nodes of the layout share a position. */
  lemma LayoutSpread(ns: seq<NodeDatum>, c: Point, dirs: seq<Dir>, step: Dir)
    requires |dirs| == |Peripheral(ns)| && EquallySpaced(dirs, step)
    ensures var ps := Peripheral(InitialLayout(ns, c, dirs));
      forall i, j :: 0 <= i < j < |ps| ==> ps[i].x != ps[j].x || ps[i].y != ps[j].y
  {
    PeripheralOfPinned(ns, c);
    PeripheralOfStar(PinRoot(ns, c), c, dirs);
    AllDistinct(dirs, step);
    RingDistinct(Peripheral(ns), c, dirs);
  }


  /**
   * A graph whose first node is its only root: the root is pinned in place,
   * and the rest of the list is laid out on the ring in order.
   */
  lemma RootFirstLayout(ns: seq<NodeDatum>, c: Point, dirs: seq<Dir>)
    requires ns != [] && ns[0].id == Root
    requires forall k :: 1 <= k < |ns| ==> ns[k].id != Root
    requires |dirs| == |ns| - 1
    ensures |Peripheral(ns)| == |dirs|
    ensures var r := InitialLayout(ns, c, dirs);
      r == [PinOne(ns[0], c)] + PlaceEach(ns[1..], c, dirs)
  {
    RootFirstPeripheral(ns);
    PeripheralOfPinned(ns, c);
    var pinned := PinRoot(ns, c);
    assert pinned[1..] == ns[1..];
    assert pinned == [PinOne(ns[0], c)] + ns[1..];
    PeripheralOfNonRoots(ns[1..]);
    assert Star(pinned, c, dirs) == [pinned[0]] + Star(ns[1..], c, dirs);
    PeripheralOfStar(ns[1..], c, dirs);
    PeripheralOfNonRoots(Star(ns[1..], c, dirs));
  }

  /** With no peripheral node the ring step assigns nothing. */
  lemma NoPeripheralNoPlacement(ns: seq<NodeDatum>, c: Point)
    requires Peripheral(ns) == []
    ensures InitialLayout(ns, c, []) == PinRoot(ns, c)
  {
    PeripheralOfPinned(ns, c);
    var pinned := PinRoot(ns, c);
    PeripheralMembers(pinned);
    assert forall k :: 0 <= k < |pinned| ==> pinned[k].id == Root;
  }

  // ---------------------------------------------------- on node objects

  /** The node objects of `nodes` whose id is not the root's, in order. */
  function PeripheralRefs(nodes: seq<SimNode>): (r: seq<SimNode>)
    ensures forall k :: 0 <= k < |r| ==> r[k].id != Root && r[k] in nodes
  {
    if nodes == [] then []
    else if nodes[0].id == Root then PeripheralRefs(nodes[1..])
    else [nodes[0]] + PeripheralRefs(nodes[1..])
  }

  /** Filtering objects and then reading them is reading them and then filtering. */
  lemma {:induction false} ViewPeripheralRefs(nodes: seq<SimNode>)
    ensures ViewAll(PeripheralRefs(nodes)) == Peripheral(ViewAll(nodes))
  {
    if nodes != [] {
      assert ViewAll(nodes)[1..] == ViewAll(nodes[1..]);
      ViewPeripheralRefs(nodes[1..]);
    }
  }

  lemma {:induction false} PeripheralRefsDistinct(nodes: seq<SimNode>)
    requires Distinct(nodes)
    ensures Distinct(PeripheralRefs(nodes))
  {
    if nodes != [] {
      PeripheralRefsDistinct(nodes[1..]);
    }
  }

  /**
   * The root-pinning map: fresh, distinct node objects holding `PinRoot(ns, c)`.
   */
  method CopyNodes(ns: seq<NodeDatum>, c: Point) returns (nodes: seq<SimNode>)
    ensures |nodes| == |ns| && Distinct(nodes)
    ensures forall k :: 0 <= k < |nodes| ==> fresh(nodes[k])
    ensures ViewAll(nodes) == PinRoot(ns, c)
  {
    nodes := [];
    for i := 0 to |ns|
      invariant |nodes| == i && Distinct(nodes)
      invariant forall k :: 0 <= k < i ==> fresh(nodes[k])
      invariant forall k :: 0 <= k < i ==> nodes[k].View() == PinOne(ns[k], c)
    {
      var n := new SimNode(PinOne(ns[i], c));
      nodes := nodes + [n];
    }
    PinRootEach(ns, c);
  }

  /**
   * The placement loop over the peripheral objects: object `i` is moved to
   * direction `dirs[i]`; no other object and no other field changes.
   */
  method PlaceRing(per: seq<SimNode>, c: Point, dirs: seq<Dir>)
    requires |dirs| == |per| && Distinct(per)
    modifies set n | n in per
    ensures ViewAll(per) == PlaceEach(old(ViewAll(per)), c, dirs)
  {
    for i := 0 to |per|
      invariant forall k :: 0 <= k < i ==> per[k].View() == PlaceAt(old(per[k].View()), c, dirs[k])
      invariant forall k :: i <= k < |per| ==> per[k].View() == old(per[k].View())
    {
      per[i].x := Some(c.x + Radius * dirs[i].c);
      per[i].y := Some(c.y + Radius * dirs[i].s);
    }
  }

  /**
   * The layout set-up of a view on a `w × h` canvas: copy and pin, filter,
   * then place the ring through the filtered objects.  The resulting objects
   * hold `InitialLayout`.
   */
  method SetUpLayout(graph: GraphData, w: real, h: real, dirs: seq<Dir>) returns (nodes: seq<SimNode>)
    requires |dirs| == |Peripheral(graph.nodes)|
    ensures |nodes| == |graph.nodes| && Distinct(nodes)
    ensures forall k :: 0 <= k < |nodes| ==> fresh(nodes[k])
    ensures ViewAll(nodes) == InitialLayout(graph.nodes, CanvasCentre(w, h), dirs)
  {
    var c := CanvasCentre(w, h);
    nodes := CopyNodes(graph.nodes, c);
    var per := PeripheralRefs(nodes);
    ghost var pre := ViewAll(nodes);
    PeripheralOfPinned(graph.nodes, c);
    ViewPeripheralRefs(nodes);
    PeripheralRefsDistinct(nodes);
    PlaceRing(per, c, dirs);
    ghost var post := ViewAll(nodes);
    ViewPeripheralRefs(nodes);
    forall k | 0 <= k < |pre| && pre[k].id == Root ensures post[k] == pre[k] {
      assert nodes[k] !in per;
    }
    StarUnique(pre, post, c, dirs);
  }
}
