/**
 * The per-axis boundary correction that `vverlet` applies to each new
 * coordinate: reflecting walls or the periodic rule, for a box `[0, size]`.
 *
 * The periodic rule is modelled as written: both out-of-range branches
 * compute `size − x`, which is not a wrap-around.
 */
module Boundary {

  /** `Bound`: `walls` or `periodic`. */
  datatype Bound = Walls | Periodic

  /**
   * The wall rule: a coordinate below 0 is mirrored at 0, one above `size`
   * is mirrored at `size`, and in both cases the velocity component is
   * reversed; a coordinate inside the box is left alone.  The test against
   * 0 comes first, so it wins for a negative `size`.
   */
  function Reflect(x: real, v: real, size: real): (r: (real, real))
    ensures 0.0 <= x <= size ==> r == (x, v)
    ensures x < 0.0 ==> r == (-x, -v)
    ensures 0.0 <= x && x > size ==> r == (2.0 * size - x, -v)
  {
    if x < 0.0 then (-x, -v)
    else if x > size then (2.0 * size - x, -v)
    else (x, v)
  }

  /** The periodic rule as written: `size − x` below 0, `−(x − size)` above `size`, otherwise `x`. */
  function Wrap(x: real, size: real): (y: real)
    ensures 0.0 <= x <= size ==> y == x
  {
    if x < 0.0 then size - x
    else if x > size then -(x - size)
    else x
  }

  /**
   * The `switch (_bound)` of `vverlet`: the new coordinate and velocity
   * component.  The periodic rule never touches the velocity, and both rules
   * leave a coordinate inside the box alone.
   */
  function Apply(b: Bound, x: real, v: real, size: real): (r: (real, real))
    ensures b == Periodic ==> r.1 == v
    ensures 0.0 <= x <= size ==> r == (x, v)
  {
    match b
    case Walls => Reflect(x, v, size)
    case Periodic => (Wrap(x, size), v)
  }

  /** A coordinate that overshot the box by at most its size comes back inside it. */
  lemma WallsReturnToBox(x: real, v: real, size: real)
    requires size >= 0.0 && -size <= x <= 2.0 * size
    ensures 0.0 <= Reflect(x, v, size).0 <= size
  {
  }

  /** The walls never change the speed, and reverse the velocity component exactly when the coordinate left the box. */
  lemma WallsKeepSpeed(x: real, v: real, size: real)
    ensures var r := Reflect(x, v, size);
      && (r.1 == v || r.1 == -v)
      && (v != 0.0 ==> (r.1 == -v <==> x < 0.0 || x > size))
  {
  }

  /** Applying the wall rule to its own in-box result changes nothing more. */
  lemma WallsSettle(x: real, v: real, size: real)
    requires size >= 0.0 && -size <= x <= 2.0 * size
    ensures var r := Reflect(x, v, size); Reflect(r.0, r.1, size) == r
  {
    WallsReturnToBox(x, v, size);
  }

  /** Both out-of-range branches of the periodic rule compute `size − x`. */
  lemma WrapIsMirrorAtSize(x: real, size: real)
    requires x < 0.0 || x > size
    ensures Wrap(x, size) == size - x
  {
  }

  /**
   * For a box of positive size, a coordinate that left the box on one side
   * ends up outside it on the other side: the periodic rule does not bring
   * it back.
   */
  lemma WrapLeavesBox(x: real, size: real)
    requires size > 0.0
    ensures x < 0.0 ==> Wrap(x, size) > size
    ensures x > size ==> Wrap(x, size) < 0.0
  {
  }
}
