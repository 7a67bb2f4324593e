/**
 * Directions on the unit circle, standing in for `(cos θ, sin θ)`.
 *
 * The layout puts peripheral node `i` of `n` at angle `i·2π/n`.  Rather than
 * computing cosines, a direction is a pair `(c, s)`; the directions of a ring
 * are "equally spaced" when the first is `(1, 0)`, each next one is the
 * previous one turned by one fixed unit rotation `step`, and turning the last
 * one by `step` gives the first back.  `(cos(i·2π/n), sin(i·2π/n))` with
 * `step = (cos(2π/n), sin(2π/n))` is such a sequence.
 */
module Ring {

  datatype Dir = Dir(c: real, s: real)

  /** On the unit circle: `c² + s² = 1`. */
  predicate Unit(d: Dir)
  {
    d.c * d.c + d.s * d.s == 1.0
  }

  /** `d` turned by the angle of the unit vector `r` (complex product). */
  function Rotate(d: Dir, r: Dir): Dir
  {
    Dir(d.c * r.c - d.s * r.s, d.s * r.c + d.c * r.s)
  }

  /** The squared length of a direction. */
  function Norm2(d: Dir): real
  {
    d.c * d.c + d.s * d.s
  }

  /**
   * The directions of `|dirs|` points reached by turning from `(1, 0)` by
   * `step` again and again, the last one turning back into the first.
   */
  predicate Turning(dirs: seq<Dir>, step: Dir)
  {
    && Unit(step)
    && (|dirs| > 0 ==> dirs[0] == Dir(1.0, 0.0) && Rotate(dirs[|dirs| - 1], step) == dirs[0])
    && (forall i :: 0 <= i < |dirs| - 1 ==> dirs[i + 1] == Rotate(dirs[i], step))
  }

  /** The ring comes back to its first direction only after its last one. */
  predicate ReturnsAtEnd(dirs: seq<Dir>)
  {
    forall i :: 0 < i < |dirs| ==> dirs[i] != dirs[0]
  }

  /** No two directions are the same. */
  predicate DistinctDirs(dirs: seq<Dir>)
  {
    forall i, j :: 0 <= i < j < |dirs| ==> dirs[i] != dirs[j]
  }

  /**
   * The directions of `|dirs|` points spaced by `step` around a closed
   * circle: a turning ring that closes after exactly `|dirs|` steps, so it
   * never turns by angle 0 (unless it has one point).
   */
  predicate EquallySpaced(dirs: seq<Dir>, step: Dir)
  {
    Turning(dirs, step) && ReturnsAtEnd(dirs)
  }

  /** Turning multiplies the squared length by that of the rotation. */
  lemma RotateNorm(d: Dir, r: Dir)
    ensures Norm2(Rotate(d, r)) == Norm2(d) * Norm2(r)
  {
    var a, b, c, s := d.c, d.s, r.c, r.s;
    calc {
      Norm2(Rotate(d, r));
      (a * c - b * s) * (a * c - b * s) + (b * c + a * s) * (b * c + a * s);
      a * a * c * c + b * b * s * s + b * b * c * c + a * a * s * s;
      (a * a + b * b) * (c * c + s * s);
    }
  }

  /** Every direction of an equally spaced ring lies on the unit circle. */
  lemma {:induction false} EquallySpacedUnit(dirs: seq<Dir>, step: Dir, i: nat)
    requires Turning(dirs, step)
    requires i < |dirs|
    ensures Unit(dirs[i])
  {
    if i > 0 {
      EquallySpacedUnit(dirs, step, i - 1);
      RotateNorm(dirs[i - 1], step);
    }
  }

  /** `Unit` for all directions of an equally spaced ring at once. */
  lemma AllUnit(dirs: seq<Dir>, step: Dir)
    requires Turning(dirs, step)
    ensures forall i :: 0 <= i < |dirs| ==> Unit(dirs[i])
  {
    forall i | 0 <= i < |dirs| ensures Unit(dirs[i]) {
      EquallySpacedUnit(dirs, step, i);
    }
  }

  /**
   * Turning a unit direction by `r` moves it by a fixed distance that depends
   * on `r` only: the chord `(r.c - 1)² + r.s²`.
   */
  lemma ChordLength(d: Dir, r: Dir)
    requires Unit(d)
    ensures Norm2(Dir(Rotate(d, r).c - d.c, Rotate(d, r).s - d.s)) == (r.c - 1.0) * (r.c - 1.0) + r.s * r.s
  {
    var a, b := d.c, d.s;
    var p, q := r.c - 1.0, r.s;
    assert Rotate(d, r).c - a == a * p - b * q;
    assert Rotate(d, r).s - b == b * p + a * q;
    calc {
      (a * p - b * q) * (a * p - b * q) + (b * p + a * q) * (b * p + a * q);
      (a * a + b * b) * (p * p + q * q);
      p * p + q * q;
    }
  }

  /** Turning by a unit direction loses nothing: it can be undone. */
  lemma RotateInjective(a: Dir, b: Dir, r: Dir)
    requires Unit(r) && Rotate(a, r) == Rotate(b, r)
    ensures a == b
  {
    var p, q := Rotate(a, r), Rotate(b, r);
    calc {
      a.c;
      a.c * (r.c * r.c + r.s * r.s);
      p.c * r.c + p.s * r.s;
      q.c * r.c + q.s * r.s;
      b.c * (r.c * r.c + r.s * r.s);
      b.c;
    }
    calc {
      a.s;
      a.s * (r.c * r.c + r.s * r.s);
      p.s * r.c - p.c * r.s;
      q.s * r.c - q.c * r.s;
      b.s * (r.c * r.c + r.s * r.s);
      b.s;
    }
  }

  /**
   * A ring that first returns to its start after its last direction visits
   * no direction twice.
   */
  lemma {:induction false} EquallySpacedDistinct(dirs: seq<Dir>, step: Dir, i: nat, j: nat)
    requires EquallySpaced(dirs, step)
    requires i < j < |dirs|
    decreases i
    ensures dirs[i] != dirs[j]
  {
    if i > 0 {
      EquallySpacedDistinct(dirs, step, i - 1, j - 1);
      if dirs[i] == dirs[j] {
        RotateInjective(dirs[i - 1], dirs[j - 1], step);
      }
    }
  }

  /** `EquallySpacedDistinct` for all pairs of directions at once. */
  lemma AllDistinct(dirs: seq<Dir>, step: Dir)
    requires EquallySpaced(dirs, step)
    ensures DistinctDirs(dirs)
  {
    forall i, j | 0 <= i < j < |dirs| ensures dirs[i] != dirs[j] {
      EquallySpacedDistinct(dirs, step, i, j);
    }
  }
}
