/**
 * The six directional conductances of a thermal cell and the PARALLEL rule
 * that joins two facing half-cell conductances into the conductance between
 * two neighbouring cells.
 */
module Conductance {
  import opened Grid

  /** Conductance of each half-cell face (the C struct Conductances, or Resistances in the older code). */
  datatype Conductances = Conductances(north: real, south: real, east: real, west: real, top: real, bottom: real)

  function Face(c: Conductances, dir: Dir): real
  {
    match dir
    case North => c.north
    case South => c.south
    case East => c.east
    case West => c.west
    case Top => c.top
    case Bottom => c.bottom
  }

  /**
   * PARALLEL(x, y) = x * y / (x + y). The C macro divides by zero when
   * x + y == 0; the model returns 0 there so that the function is total.
   */
  function Parallel(x: real, y: real): (p: real)
    ensures x > 0.0 && y > 0.0 ==> 0.0 < p < x && p < y
  {
    if x + y == 0.0 then 0.0
    else
      var p := x * y / (x + y);
      if x > 0.0 && y > 0.0 then
        ParallelBelow(x, y);
        ParallelBelow(y, x);
        p
      else p
  }

  lemma ParallelBelow(x: real, y: real)
    requires x > 0.0 && y > 0.0
    ensures 0.0 < x * y / (x + y) < x
  {
    var s := x + y;
    var q := x * y / s;
    assert x - q == (x * s - x * y) / s;
    assert x * s - x * y == x * x;
    assert x * x > 0.0;
    assert q == y * (x / s);
    assert x / s > 0.0;
  }

  /** PARALLEL does not depend on the order of its arguments. */
  lemma ParallelCommutes(x: real, y: real)
    ensures Parallel(x, y) == Parallel(y, x)
  {
    if x + y != 0.0 {
      assert x * y == y * x;
    }
  }

  /** Two positive conductances in series: the reciprocals (resistances) add up. */
  lemma ParallelIsSeries(x: real, y: real)
    requires x > 0.0 && y > 0.0
    ensures 1.0 / Parallel(x, y) == 1.0 / x + 1.0 / y
  {
    var p := Parallel(x, y);
    assert p == x * y / (x + y);
    assert 1.0 / p == (x + y) / (x * y);
    assert (x + y) / (x * y) == x / (x * y) + y / (x * y);
    assert x / (x * y) == 1.0 / y;
    assert y / (x * y) == 1.0 / x;
  }
}
