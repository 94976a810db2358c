/**
 * Points in the Earth-centred Cartesian frame, the four-column distance row
 * both bolts read, and the proximity rule they share.
 *
 * Coordinates are real numbers, not 64-bit floats. The square root comes from
 * the numeric library, so it is a parameter `sqrt: real -> real`; `IsSqrt`
 * states what the model relies on about it.
 */
module Geometry {

  /** A position in the Earth-centred frame, in metres. */
  datatype Point = Point(x: real, y: real, z: real)

  /** One row of a distance matrix: per-axis differences and the Euclidean distance. */
  datatype Row = Row(dx: real, dy: real, dz: real, dr: real)

  /** The alert threshold in metres; both bolts compare with a strict `<`. */
  const ProximityThreshold: real := 100.0

  /** A pair is reported as too close when its distance is strictly below the threshold. */
  predicate TooClose(dr: real) {
    dr < ProximityThreshold
  }

  /** x², kept behind a function so that every square is written the same way. */
  function Square(x: real): real {
    x * x
  }

  lemma SquareNonNegative(x: real)
    ensures Square(x) >= 0.0
  {
    if x > 0.0 {
      MultiplyStrict(x, 0.0, x);
    } else if x < 0.0 {
      MultiplyStrict(-x, 0.0, -x);
      assert (-x) * (-x) == Square(x);
    }
  }

  function SquaredLength(dx: real, dy: real, dz: real): (v: real)
    ensures v >= 0.0
  {
    SquareNonNegative(dx);
    SquareNonNegative(dy);
    SquareNonNegative(dz);
    Square(dx) + Square(dy) + Square(dz)
  }

  function SquaredDistance(p: Point, q: Point): real {
    SquaredLength(p.x - q.x, p.y - q.y, p.z - q.z)
  }

  /** `sqrt` is the non-negative square root on every non-negative argument. */
  ghost predicate IsSqrt(sqrt: real -> real) {
    forall v :: 0.0 <= v ==> 0.0 <= sqrt(v) && Square(sqrt(v)) == v
  }

  /** The row the kernel writes for one source and one target: source minus target. */
  function DistanceRow(src: Point, tgt: Point, sqrt: real -> real): Row {
    var dx, dy, dz := src.x - tgt.x, src.y - tgt.y, src.z - tgt.z;
    Row(dx, dy, dz, sqrt(SquaredLength(dx, dy, dz)))
  }

  /** The distance column is non-negative and its square is dx² + dy² + dz². */
  lemma DistanceRowMeasures(src: Point, tgt: Point, sqrt: real -> real)
    requires IsSqrt(sqrt)
    ensures var r := DistanceRow(src, tgt, sqrt);
      r.dr >= 0.0 && Square(r.dr) == SquaredLength(r.dx, r.dy, r.dz) == SquaredDistance(src, tgt)
  {
    var v := SquaredDistance(src, tgt);
    assert 0.0 <= v;
  }

  /** a * c < b * c for c > 0 and a < b. */
  lemma MultiplyStrict(c: real, a: real, b: real)
    requires c > 0.0 && a < b
    ensures a * c < b * c
  {
    assert b * c - a * c == (b - a) * c;
  }

  /** Squaring is strictly increasing on the non-negative reals. */
  lemma SquareStrictlyIncreasing(a: real, b: real)
    requires 0.0 <= a < b
    ensures Square(a) < Square(b)
  {
    MultiplyStrict(b + a, 0.0, b - a);
    calc {
      (b - a) * (b + a);
      b * (b + a) - a * (b + a);
      (b * b + b * a) - (a * b + a * a);
      Square(b) - Square(a);
    }
  }

  /** For a non-negative d with d² = v, `d < limit` holds exactly when `v < limit²`. */
  lemma BelowIffSquareBelow(d: real, v: real, limit: real)
    requires d >= 0.0 && Square(d) == v && limit >= 0.0
    ensures d < limit <==> v < Square(limit)
  {
    if d < limit {
      SquareStrictlyIncreasing(d, limit);
    } else if limit < d {
      SquareStrictlyIncreasing(limit, d);
    }
  }

  /** The proximity rule on a kernel row needs no square root: dr < 100 iff the squared distance < 10000. */
  lemma TooCloseIffSquaredDistance(src: Point, tgt: Point, sqrt: real -> real)
    requires IsSqrt(sqrt)
    ensures TooClose(DistanceRow(src, tgt, sqrt).dr) <==> SquaredDistance(src, tgt) < 10000.0
  {
    DistanceRowMeasures(src, tgt, sqrt);
    BelowIffSquareBelow(DistanceRow(src, tgt, sqrt).dr, SquaredDistance(src, tgt), ProximityThreshold);
  }

  /** Swapping source and target negates the differences and keeps the distance. */
  lemma DistanceRowSymmetric(p: Point, q: Point, sqrt: real -> real)
    ensures var a, b := DistanceRow(p, q, sqrt), DistanceRow(q, p, sqrt);
      a.dx == -b.dx && a.dy == -b.dy && a.dz == -b.dz && a.dr == b.dr
  {
    var dx, dy, dz := p.x - q.x, p.y - q.y, p.z - q.z;
    assert Square(-dx) == Square(dx) && Square(-dy) == Square(dy) && Square(-dz) == Square(dz);
  }

  /** A target at the source's own position gives an all-zero row. */
  lemma DistanceRowToSelf(p: Point, sqrt: real -> real)
    requires IsSqrt(sqrt)
    ensures DistanceRow(p, p, sqrt) == Row(0.0, 0.0, 0.0, 0.0)
  {
    var d := sqrt(0.0);
    assert Square(0.0) == 0.0;
    if d > 0.0 {
      SquareStrictlyIncreasing(0.0, d);
    }
  }
}
