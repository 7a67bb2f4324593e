/**
 * The drag handlers of a view.  A drag start pins the node where it is and,
 * when no other drag is active, raises the simulation's alpha target to 0.3;
 * each drag move re-pins the node at the pointer; a drag end, when no other
 * drag is active, drops the alpha target to 0 and leaves the pin in place, so
 * a dragged node stays pinned.
 *
 * The physics that reads the pins is not part of this model: the simulation
 * is reduced to the one field the handlers write.
 */
module Drag {
  import opened Graph

  /** The part of the force simulation that the drag handlers change. */
  class Simulation {
    var alphaTarget: real

    /** A new simulation has alpha target 0. */
    constructor ()
      ensures alphaTarget == 0.0
    {
      alphaTarget := 0.0;
    }
  }

  /**
   * A pointer event: `active` counts the other drag gestures in progress
   * (the handlers test `!event.active`), `x, y` is the pointer position.
   */
  datatype DragEvent = DragEvent(active: nat, x: real, y: real)

  /** The node being dragged and the simulation's alpha target. */
  datatype DragState = DragState(node: NodeDatum, alphaTarget: real)

  /** The alpha target a drag start leaves. */
  function StartAlpha(alpha: real, e: DragEvent): (r: real)
    ensures e.active == 0 ==> r == 0.3
    ensures e.active != 0 ==> r == alpha
  {
    if e.active == 0 then 0.3 else alpha
  }

  /** The alpha target a drag end leaves. */
  function EndAlpha(alpha: real, e: DragEvent): (r: real)
    ensures e.active == 0 ==> r == 0.0
    ensures e.active != 0 ==> r == alpha
  {
    if e.active == 0 then 0.0 else alpha
  }

  /** Pinning `n` at `(px, py)` changes its pin and nothing else. */
  function PinAt(n: NodeDatum, px: Option<real>, py: Option<real>): (r: NodeDatum)
    ensures r.fx == px && r.fy == py
    ensures r.(fx := n.fx, fy := n.fy) == n
  {
    n.(fx := px, fy := py)
  }

  /** The node after a drag start: pinned at its current coordinates, nothing else changed. */
  function StartNode(n: NodeDatum): (r: NodeDatum)
    ensures r.fx == n.x && r.fy == n.y
    ensures r.(fx := n.fx, fy := n.fy) == n
  {
    PinAt(n, n.x, n.y)
  }

  /** The node after a drag move: pinned at the pointer, nothing else changed. */
  function MoveNode(n: NodeDatum, e: DragEvent): (r: NodeDatum)
    ensures r.fx == Some(e.x) && r.fy == Some(e.y)
    ensures r.(fx := n.fx, fy := n.fy) == n
  {
    PinAt(n, Some(e.x), Some(e.y))
  }

  /** The node after a sequence of drag moves. */
  function MoveAll(n: NodeDatum, moves: seq<DragEvent>): NodeDatum
    decreases |moves|
  {
    if moves == [] then n else MoveAll(MoveNode(n, moves[0]), moves[1..])
  }

  /** A whole gesture, start, moves, end, on one node. */
  function Gesture(s: DragState, start: DragEvent, moves: seq<DragEvent>, end: DragEvent): DragState
  {
    var n := MoveAll(StartNode(s.node), moves);
    DragState(n, EndAlpha(StartAlpha(s.alphaTarget, start), end))
  }

  /** After some moves the pin is at the last pointer position; only the pin changes. */
  lemma {:induction false} MoveAllPinsAtLast(n: NodeDatum, moves: seq<DragEvent>)
    requires moves != []
    decreases |moves|
    ensures var r := MoveAll(n, moves);
      && r.fx == Some(moves[|moves| - 1].x) && r.fy == Some(moves[|moves| - 1].y)
      && r.(fx := n.fx, fy := n.fy) == n
  {
    if |moves| > 1 {
      MoveAllPinsAtLast(MoveNode(n, moves[0]), moves[1..]);
    }
  }

  /**
   * A lone drag gesture (no other drag active at its start and end) leaves
   * the alpha target at 0 and the node pinned: at the last pointer position,
   * or where it stood when nothing moved.  The handlers never write `x, y`
   * (the ticks between them, which move a pinned node to its pin, are not
   * part of `Gesture`).
   */
  lemma LoneGesture(s: DragState, start: DragEvent, moves: seq<DragEvent>, end: DragEvent)
    requires start.active == 0 && end.active == 0
    ensures var r := Gesture(s, start, moves, end);
      && r.alphaTarget == 0.0
      && r.node.(fx := s.node.fx, fy := s.node.fy) == s.node
      && (moves == [] ==> r.node.fx == s.node.x && r.node.fy == s.node.y)
      && (moves != [] ==> r.node.fx == Some(moves[|moves| - 1].x) && r.node.fy == Some(moves[|moves| - 1].y))
  {
    if moves != [] {
      MoveAllPinsAtLast(StartNode(s.node), moves);
    }
  }

  /**
   * Handler of "start": the alpha target as `StartAlpha` says, the node
   * pinned at its coordinates; only `sim` and `d` change.
   */
  method DragStarted(sim: Simulation, e: DragEvent, d: SimNode)
    modifies sim, d
    ensures sim.alphaTarget == StartAlpha(old(sim.alphaTarget), e)
    ensures d.View() == StartNode(old(d.View()))
  {
    if e.active == 0 {
      sim.alphaTarget := 0.3;
    }
    d.fx := d.x;
    d.fy := d.y;
  }

  /** Handler of "drag": the node pinned at the pointer; only `d` changes. */
  method Dragged(e: DragEvent, d: SimNode)
    modifies d
    ensures d.View() == MoveNode(old(d.View()), e)
  {
    d.fx := Some(e.x);
    d.fy := Some(e.y);
  }

  /**
   * Handler of "end": only the alpha target changes; the node object is not
   * written, so its pin stays.
   */
  method DragEnded(sim: Simulation, e: DragEvent, d: SimNode)
    modifies sim
    ensures sim.alphaTarget == EndAlpha(old(sim.alphaTarget), e)
    ensures d.View() == old(d.View())
  {
    if e.active == 0 {
      sim.alphaTarget := 0.0;
    }
  }
}
