/**
 * The proximity consumer: geodetic to Cartesian conversion, the one-to-many
 * distance kernel that fills an n×4 matrix, and the bolt step that turns one
 * tuple describing two drones into two Cartesian records, one proximity
 * record, a warning decision and an emitted tuple.
 *
 * Sine, cosine and the square root come from the numeric library; they are
 * parameters here. `PythagoreanAt` and `IsSqrt` say what is assumed of them.
 */
module Consumer {
  import opened Geometry

  /** Sine and cosine as supplied by the numeric library. */
  datatype Trig = Trig(sin: real -> real, cos: real -> real)

  /** The identity sin² + cos² = 1 at one angle. */
  predicate PythagoreanAt(g: Trig, a: real) {
    Square(g.sin(a)) + Square(g.cos(a)) == 1.0
  }

  const EquatorialRadius: real := 6378137.0
  const PolarRadius: real := 6356752.3
  /** The numerator of the sea-level formula, 2.585966984300735e+20. */
  const SeaLevelNumerator: real := 258596698430073500000.0

  lemma SquareOfProduct(a: real, b: real)
    ensures Square(a * b) == Square(a) * Square(b)
  {
  }

  lemma ProductPositive(a: real, b: real)
    requires a > 0.0 && b > 0.0
    ensures a * b > 0.0
  {
    MultiplyStrict(b, 0.0, a);
  }

  /** (Re·cos)² + (Rp·sin)² is positive wherever sin² + cos² = 1. */
  lemma SeaLevelDenominatorPositive(lat: real, g: Trig)
    requires PythagoreanAt(g, lat)
    ensures Square(EquatorialRadius * g.cos(lat)) + Square(PolarRadius * g.sin(lat)) > 0.0
  {
    var c, s := g.cos(lat), g.sin(lat);
    SquareOfProduct(EquatorialRadius, c);
    SquareOfProduct(PolarRadius, s);
    SquareNonNegative(c);
    SquareNonNegative(s);
    assert Square(EquatorialRadius) > 0.0 && Square(PolarRadius) > 0.0;
    if Square(c) > 0.0 {
      ProductPositive(Square(EquatorialRadius), Square(c));
      SquareNonNegative(PolarRadius * s);
    } else {
      assert Square(s) == 1.0;
      SquareNonNegative(EquatorialRadius * c);
    }
  }

  /** The distance from the Earth's centre to sea level at a latitude (radians); always positive. */
  function SeaLevel(lat: real, g: Trig): (r: real)
    requires PythagoreanAt(g, lat)
    ensures r > 0.0
  {
    SeaLevelDenominatorPositive(lat, g);
    SeaLevelNumerator / (Square(EquatorialRadius * g.cos(lat)) + Square(PolarRadius * g.sin(lat)))
  }

  /** Altitude (metres above sea level), latitude and longitude (radians) to Earth-centred coordinates. */
  function ToCartesian(alt: real, lat: real, lon: real, g: Trig): Point
    requires PythagoreanAt(g, lat)
  {
    var r := alt + SeaLevel(lat, g);
    Point(r * g.sin(lat) * g.cos(lon), r * g.sin(lat) * g.sin(lon), r * g.cos(lat))
  }

  /** (m·c)² + (m·s)² = m² wherever c² + s² = 1. */
  lemma ScaledPythagorean(m: real, c: real, s: real)
    requires Square(c) + Square(s) == 1.0
    ensures Square(m * c) + Square(m * s) == Square(m)
  {
    SquareOfProduct(m, c);
    SquareOfProduct(m, s);
    assert Square(m) * Square(c) + Square(m) * Square(s) == Square(m) * (Square(c) + Square(s));
  }

  /** The converted point lies at distance alt + SeaLevel(lat) from the Earth's centre. */
  lemma ToCartesianOnSphere(alt: real, lat: real, lon: real, g: Trig)
    requires PythagoreanAt(g, lat) && PythagoreanAt(g, lon)
    ensures var p := ToCartesian(alt, lat, lon, g);
      SquaredLength(p.x, p.y, p.z) == Square(alt + SeaLevel(lat, g))
  {
    var r := alt + SeaLevel(lat, g);
    var sa, ca := g.sin(lat), g.cos(lat);
    var p := ToCartesian(alt, lat, lon, g);
    assert p.x == (r * sa) * g.cos(lon) && p.y == (r * sa) * g.sin(lon) && p.z == r * ca;
    ScaledPythagorean(r * sa, g.cos(lon), g.sin(lon));
    ScaledPythagorean(r, ca, sa);
  }

  /** Row i of a kernel result, read back as a `Row`. */
  function RowOf(dxyz: array2<real>, i: nat): Row
    reads dxyz
    requires i < dxyz.Length0 && dxyz.Length1 == 4
  {
    Row(dxyz[i, 0], dxyz[i, 1], dxyz[i, 2], dxyz[i, 3])
  }

  /**
   * Distances from one source point to each target: a fresh |xs|×4 matrix
   * whose row i holds source minus target i and the Euclidean distance.
   */
  method DistanceOneMany(x: real, y: real, z: real, xs: seq<real>, ys: seq<real>, zs: seq<real>, sqrt: real -> real)
    returns (dxyz: array2<real>)
    requires |ys| >= |xs| && |zs| >= |xs|
    ensures fresh(dxyz)
    ensures dxyz.Length0 == |xs| && dxyz.Length1 == 4
    ensures forall i :: 0 <= i < |xs| ==>
      RowOf(dxyz, i) == DistanceRow(Point(x, y, z), Point(xs[i], ys[i], zs[i]), sqrt)
  {
    var n := |xs|;
    dxyz := new real[n, 4];
    for i := 0 to n
      invariant forall k :: 0 <= k < i ==>
        Row(dxyz[k, 0], dxyz[k, 1], dxyz[k, 2], dxyz[k, 3]) == DistanceRow(Point(x, y, z), Point(xs[k], ys[k], zs[k]), sqrt)
    {
      var dx := x - xs[i];
      var dy := y - ys[i];
      var dz := z - zs[i];
      var dr := sqrt(Square(dx) + Square(dy) + Square(dz));
      assert Row(dx, dy, dz, dr) == DistanceRow(Point(x, y, z), Point(xs[i], ys[i], zs[i]), sqrt);
      dxyz[i, 0] := dx;
      dxyz[i, 1] := dy;
      dxyz[i, 2] := dz;
      dxyz[i, 3] := dr;
    }
  }

  /** The radius and position the bolt records for one drone. */
  datatype Tracked = Tracked(point: Point, radius: real)

  /**
   * As written: the radius `SeaLevel(lat) + alt` is handed to `ToCartesian`
   * as the altitude, and `ToCartesian` adds sea level once more.
   */
  function TrackedAsWritten(alt: real, lat: real, lon: real, g: Trig): Tracked
    requires PythagoreanAt(g, lat)
  {
    var r := SeaLevel(lat, g) + alt;
    Tracked(ToCartesian(r, lat, lon, g), r)
  }

  /** Corrected: the altitude is handed to `ToCartesian`; the recorded radius is unchanged. */
  function TrackedCorrected(alt: real, lat: real, lon: real, g: Trig): Tracked
    requires PythagoreanAt(g, lat)
  {
    Tracked(ToCartesian(alt, lat, lon, g), SeaLevel(lat, g) + alt)
  }

  /**
   * As written, the point lies at SeaLevel + radius from the centre, not at
   * the recorded radius: for any drone at or above sea level the two differ.
   */
  lemma TrackedAsWrittenCountsSeaLevelTwice(alt: real, lat: real, lon: real, g: Trig)
    requires PythagoreanAt(g, lat) && PythagoreanAt(g, lon) && alt >= 0.0
    ensures var t := TrackedAsWritten(alt, lat, lon, g);
      SquaredLength(t.point.x, t.point.y, t.point.z) == Square(t.radius + SeaLevel(lat, g))
      && SquaredLength(t.point.x, t.point.y, t.point.z) != Square(t.radius)
  {
    var r := SeaLevel(lat, g) + alt;
    ToCartesianOnSphere(r, lat, lon, g);
    SquareStrictlyIncreasing(r, r + SeaLevel(lat, g));
  }

  /** Corrected, the point lies exactly at the recorded radius from the centre. */
  lemma TrackedCorrectedOnRecordedRadius(alt: real, lat: real, lon: real, g: Trig)
    requires PythagoreanAt(g, lat) && PythagoreanAt(g, lon)
    ensures var t := TrackedCorrected(alt, lat, lon, g);
      SquaredLength(t.point.x, t.point.y, t.point.z) == Square(t.radius)
  {
    ToCartesianOnSphere(alt, lat, lon, g);
  }

  /** The tuple the bolt receives: two drones' ids, altitudes, latitudes and longitudes. */
  datatype ProximityTuple = ProximityTuple(
    id0: string, id1: string,
    alt0: real, alt1: real,
    lat0: real, lat1: real,
    lon0: real, lon1: real)

  /** A Cartesian-table record: row key, drone id, position and radius. */
  datatype CartRecord = CartRecord(rowKey: string, id: string, point: Point, radius: real)

  /** A proximity-table record: row key, the two ids and the kernel row. */
  datatype ProxRecord = ProxRecord(rowKey: string, id0: string, id1: string, row: Row)

  /** The tuple emitted downstream: time, the two ids and their distance. */
  datatype Emitted = Emitted(time: string, id0: string, id1: string, proximity: real)

  datatype ProximityOutput = ProximityOutput(
    cart0: CartRecord, cart1: CartRecord, prox: ProxRecord, warn: bool, emitted: Emitted)

  /**
   * One step of the proximity bolt. `t0`, `t1` and `t` are the formatted
   * clock readings taken for the two Cartesian records and the proximity
   * record. The positions use the corrected conversion.
   */
  method ProximityProcess(tup: ProximityTuple, t0: string, t1: string, t: string, g: Trig, sqrt: real -> real)
    returns (out: ProximityOutput)
    requires PythagoreanAt(g, tup.lat0) && PythagoreanAt(g, tup.lat1)
    ensures var a := TrackedCorrected(tup.alt0, tup.lat0, tup.lon0, g);
      out.cart0 == CartRecord(tup.id0 + t0, tup.id0, a.point, a.radius)
    ensures var b := TrackedCorrected(tup.alt1, tup.lat1, tup.lon1, g);
      out.cart1 == CartRecord(tup.id1 + t1, tup.id1, b.point, b.radius)
    ensures out.prox.rowKey == tup.id0 + tup.id1 + t
    ensures out.prox.id0 == tup.id0 && out.prox.id1 == tup.id1
    ensures out.prox.row == DistanceRow(out.cart0.point, out.cart1.point, sqrt)
    ensures out.warn <==> TooClose(out.prox.row.dr)
    ensures out.emitted == Emitted(t, tup.id0, tup.id1, out.prox.row.dr)
  {
    var a := TrackedCorrected(tup.alt0, tup.lat0, tup.lon0, g);
    var cart0 := CartRecord(tup.id0 + t0, tup.id0, a.point, a.radius);
    var b := TrackedCorrected(tup.alt1, tup.lat1, tup.lon1, g);
    var cart1 := CartRecord(tup.id1 + t1, tup.id1, b.point, b.radius);
    var dxyz := DistanceOneMany(a.point.x, a.point.y, a.point.z, [b.point.x], [b.point.y], [b.point.z], sqrt);
    var row := Row(dxyz[0, 0], dxyz[0, 1], dxyz[0, 2], dxyz[0, 3]);
    assert row == RowOf(dxyz, 0);
    var prox := ProxRecord(tup.id0 + tup.id1 + t, tup.id0, tup.id1, row);
    var warn := dxyz[0, 3] < 100.0;
    out := ProximityOutput(cart0, cart1, prox, warn, Emitted(t, tup.id0, tup.id1, dxyz[0, 3]));
  }

  /** The warning fires exactly when the two drones are closer than 100 m, with no square root involved. */
  lemma ProximityWarningIffClose(out: ProximityOutput, sqrt: real -> real)
    requires IsSqrt(sqrt)
    requires out.prox.row == DistanceRow(out.cart0.point, out.cart1.point, sqrt)
    requires out.warn <==> TooClose(out.prox.row.dr)
    ensures out.warn <==> SquaredDistance(out.cart0.point, out.cart1.point) < 10000.0
  {
    TooCloseIffSquaredDistance(out.cart0.point, out.cart1.point, sqrt);
  }
}
