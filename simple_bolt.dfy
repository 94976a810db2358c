/**
 * The all-in-one drone bolt. For each report it keys the raw record by
 * `uid + dronetime`, stores the drone's Cartesian position in its window of
 * current drones (a `FixedLenDict`), obtains the pairwise distance matrix of
 * the window, and walks every pair of window keys in order, reading one
 * matrix row per pair, deciding the warning and writing one proximity record
 * keyed by `i + j + t`.
 *
 * The conversion to Cartesian coordinates and the pairwise distance matrix
 * come from a library that is not part of this model: the position is an
 * argument of `Process` and the matrix routine is the argument
 * `computeDistances`. `PairwiseRows` is the reference the lemmas compare it with.
 */
module SimpleBolt {
  import opened Geometry
  import opened PairWalk
  import opened FixedLenDicts

  /** One report from the stream: id, capture time, region, altitude, latitude and longitude. */
  datatype DroneReport = DroneReport(
    uid: string, dronetime: string, region: string,
    altitude: real, latitude: real, longitude: real)

  /** One proximity record: row key, the two ids, the time, the matrix row and the warning decision. */
  datatype PairRecord = PairRecord(rowKey: string, id0: string, id1: string, time: string, row: Row, alert: bool)

  /** The tables the bolt writes to. */
  datatype Table = RawTable | ProxTable

  /** What one report produces: the raw row key, every write in order, the pair records, and whether the walk finished. */
  datatype ProcessOutput = ProcessOutput(rawKey: string, puts: seq<(Table, string)>, records: seq<PairRecord>, complete: bool)

  /** The record for window positions p, given matrix row `row` and time `t`. */
  function PairRecordOf(keys: seq<string>, p: Pair, row: Row, t: string): PairRecord
    requires p.0 < |keys| && p.1 < |keys|
  {
    PairRecord(keys[p.0] + keys[p.1] + t, keys[p.0], keys[p.1], t, row, TooClose(row.dr))
  }

  /**
   * The records of the walk over `keys` reading matrix `dxyz`: the k-th pair
   * of the walk reads row k. A matrix with too few rows stops the walk where
   * its rows run out.
   */
  function PairRecords(keys: seq<string>, dxyz: seq<Row>, t: string): (recs: seq<PairRecord>)
    ensures |recs| == Min(|keys| * (|keys| - 1) / 2, |dxyz|)
  {
    var ps := AllPairs(|keys|);
    AllPairsMembers(|keys|);
    AllPairsCount(|keys|);
    seq(Min(|ps|, |dxyz|),
      k requires 0 <= k < Min(|ps|, |dxyz|) && ps[k].0 < |keys| && ps[k].1 < |keys| =>
        PairRecordOf(keys, ps[k], dxyz[k], t))
  }

  /**
   * The layout assumed for the pairwise distance routine: one row per pair,
   * in walk order, first drone minus second.
   */
  function PairwiseRows(pts: seq<Point>, sqrt: real -> real): (rows: seq<Row>)
    ensures |rows| == |AllPairs(|pts|)|
  {
    var ps := AllPairs(|pts|);
    AllPairsMembers(|pts|);
    seq(|ps|, k requires 0 <= k < |ps| && ps[k].0 < |pts| && ps[k].1 < |pts| =>
      DistanceRow(pts[ps[k].0], pts[ps[k].1], sqrt))
  }

  /** `records` are the first |records| records of the walk, one per matrix row read. */
  predicate Walked(keys: seq<string>, dxyz: seq<Row>, t: string, records: seq<PairRecord>) {
    var ps := AllPairs(|keys|);
    && |records| <= |ps| && |records| <= |dxyz|
    && forall m :: 0 <= m < |records| ==>
      ps[m].0 < |keys| && ps[m].1 < |keys| && records[m] == PairRecordOf(keys, ps[m], dxyz[m], t)
  }

  /** One more visit: the record for the next pair of the walk, reading the next matrix row. */
  lemma WalkedStep(keys: seq<string>, dxyz: seq<Row>, t: string, records: seq<PairRecord>, ii: nat, jj: nat)
    requires Walked(keys, dxyz, t, records)
    requires ii < jj < |keys| && |records| < |dxyz|
    requires |records| < |AllPairs(|keys|)| && AllPairs(|keys|)[|records|] == (ii, jj)
    ensures Walked(keys, dxyz, t, records + [PairRecordOf(keys, (ii, jj), dxyz[|records|], t)])
  {
  }

  /** A walk that has read every row it can is the whole record sequence. */
  lemma WalkedAll(keys: seq<string>, dxyz: seq<Row>, t: string, records: seq<PairRecord>)
    requires Walked(keys, dxyz, t, records)
    requires |records| == Min(|AllPairs(|keys|)|, |dxyz|)
    ensures records == PairRecords(keys, dxyz, t)
  {
  }

  /** The pair walk: nested loops over window positions with a running row counter k. */
  method WalkPairs(keys: seq<string>, dxyz: seq<Row>, t: string) returns (records: seq<PairRecord>, complete: bool)
    ensures records == PairRecords(keys, dxyz, t)
    ensures complete <==> |dxyz| >= |AllPairs(|keys|)|
  {
    var n := |keys|;
    var k := 0;
    records := [];
    for ii := 0 to n
      invariant k == |PairsBefore(ii, n)| == |records|
      invariant Walked(keys, dxyz, t, records)
    {
      for jj := ii + 1 to n
        invariant k == |PairsBefore(ii, n)| + (jj - ii - 1) == |records|
        invariant Walked(keys, dxyz, t, records)
      {
        PairIndex(ii, jj, n);
        if k >= |dxyz| {
          // Indexing past the matrix raises, and the walk stops here.
          WalkedAll(keys, dxyz, t, records);
          complete := false;
          return;
        }
        var i, j := keys[ii], keys[jj];
        var d := dxyz[k];
        var alert := d.dr < 100.0;
        var pkk := i + j + t;
        WalkedStep(keys, dxyz, t, records, ii, jj);
        records := records + [PairRecord(pkk, i, j, t, d, alert)];
        k := k + 1;
      }
      RowPairsShape(ii, n);
    }
    WalkedAll(keys, dxyz, t, records);
    complete := true;
  }

  /** Every record names two different drones of the window, the earlier first, under the key `i + j + t`. */
  lemma PairRecordsInWindow(keys: seq<string>, dxyz: seq<Row>, t: string)
    requires Distinct(keys)
    ensures forall r :: r in PairRecords(keys, dxyz, t) ==>
      r.id0 in keys && r.id1 in keys && r.id0 != r.id1 && r.rowKey == r.id0 + r.id1 + t && r.time == t
    ensures forall m :: 0 <= m < |PairRecords(keys, dxyz, t)| ==>
      var p, r := AllPairs(|keys|)[m], PairRecords(keys, dxyz, t)[m];
      p.0 < p.1 < |keys| && r.id0 == keys[p.0] && r.id1 == keys[p.1]
      && r.row == dxyz[m] && (r.alert <==> TooClose(dxyz[m].dr))
  {
    var recs, ps := PairRecords(keys, dxyz, t), AllPairs(|keys|);
    AllPairsMembers(|keys|);
    forall r | r in recs
      ensures r.id0 in keys && r.id1 in keys && r.id0 != r.id1 && r.rowKey == r.id0 + r.id1 + t && r.time == t
    {
      var m :| 0 <= m < |recs| && recs[m] == r;
      assert ps[m] in ps;
    }
  }

  /**
   * When the matrix has a row for every pair, the walk writes n(n-1)/2
   * records and the pair of window positions a < b appears exactly at its
   * position in the walk.
   */
  lemma PairRecordsComplete(keys: seq<string>, dxyz: seq<Row>, t: string, a: nat, b: nat)
    requires |dxyz| >= |AllPairs(|keys|)|
    requires a < b < |keys|
    ensures 2 * |PairRecords(keys, dxyz, t)| == |keys| * (|keys| - 1)
    ensures var k := |PairsBefore(a, |keys|)| + (b - a - 1);
      k < |PairRecords(keys, dxyz, t)|
      && PairRecords(keys, dxyz, t)[k].id0 == keys[a] && PairRecords(keys, dxyz, t)[k].id1 == keys[b]
  {
    AllPairsCount(|keys|);
    PairPosition(a, b, |keys|);
  }

  /**
   * With a matrix in the assumed layout and a true square root, the walk
   * finishes, and a pair is flagged exactly when the two drones' squared
   * distance is below 100² — a distance of exactly 100 m is not flagged.
   */
  lemma PairRecordsAgainstReference(keys: seq<string>, pts: seq<Point>, sqrt: real -> real, t: string)
    requires IsSqrt(sqrt) && |pts| == |keys|
    ensures |PairRecords(keys, PairwiseRows(pts, sqrt), t)| == |AllPairs(|keys|)|
    ensures forall m :: 0 <= m < |AllPairs(|keys|)| ==>
      var p := AllPairs(|keys|)[m];
      p.0 < p.1 < |pts|
      && (PairRecords(keys, PairwiseRows(pts, sqrt), t)[m].alert <==> SquaredDistance(pts[p.0], pts[p.1]) < 10000.0)
  {
    var ps, rows := AllPairs(|keys|), PairwiseRows(pts, sqrt);
    var recs := PairRecords(keys, rows, t);
    AllPairsMembers(|keys|);
    forall m | 0 <= m < |ps|
      ensures ps[m].0 < ps[m].1 < |pts| && (recs[m].alert <==> SquaredDistance(pts[ps[m].0], pts[ps[m].1]) < 10000.0)
    {
      assert ps[m] in ps;
      TooCloseIffSquaredDistance(pts[ps[m].0], pts[ps[m].1], sqrt);
    }
  }

  /**
   * Three drones reported in turn into a window of two: the first is
   * evicted, and the walk writes one record, for the other two.
   */
  lemma ThreeDronesWindowOfTwo(a: string, b: string, c: string, dxyz: seq<Row>, t: string)
    requires a != b && b != c && a != c && |dxyz| >= 1
    ensures Replay([], 2, [a, b, c]) == [b, c]
    ensures var recs := PairRecords([b, c], dxyz, t);
      |recs| == 1 && recs[0].id0 == b && recs[0].id1 == c && recs[0].rowKey == b + c + t
  {
    ReplayKeepsLatest(2, [a, b, c]);
    assert [a, b, c][1..] == [b, c];
    PairPosition(0, 1, 2);
    AllPairsCount(2);
  }

  class SimpleDroneBolt {
    /** The window of current drones: id to Cartesian position, oldest first. */
    var current: FixedLenDict<string, Point>

    /** The window holds at most `density` drones. */
    constructor (density: int)
      ensures fresh(current) && current.Valid()
      ensures current.maxSize == density && current.keys == []
    {
      current := new FixedLenDict(density);
    }

    /**
     * One report: `xyz` is its Cartesian position, `t` the formatted clock
     * reading for the pair records, `computeDistances` the pairwise routine.
     */
    method Process(tup: DroneReport, xyz: Point, t: string, computeDistances: seq<Point> -> seq<Row>)
      returns (out: ProcessOutput)
      requires current.Valid()
      modifies current
      ensures current.Valid() && current.maxSize == old(current.maxSize)
      ensures current.keys == KeysAfterSet(old(current.keys), current.maxSize, tup.uid)
      ensures tup.uid in current.items && current.items[tup.uid] == xyz
      ensures forall k :: k in current.items && k != tup.uid ==>
        k in old(current.items) && current.items[k] == old(current.items)[k]
      ensures out.rawKey == tup.uid + tup.dronetime
      ensures out.records == PairRecords(current.keys, computeDistances(current.Values()), t)
      ensures out.complete <==> |computeDistances(current.Values())| >= |AllPairs(|current.keys|)|
      ensures out.puts == [(RawTable, out.rawKey), (RawTable, out.rawKey)]
        + seq(|out.records|, m requires 0 <= m < |out.records| => (ProxTable, out.records[m].rowKey))
      ensures forall r :: r in out.records ==> r.id0 in current.items && r.id1 in current.items && r.id0 != r.id1
      ensures tup.uid !in old(current.items) && |old(current.keys)| == current.maxSize >= 1 ==>
        forall r :: r in out.records ==> r.id0 != old(current.keys)[0] && r.id1 != old(current.keys)[0]
    {
      var pk := tup.uid + tup.dronetime;
      current.SetItem(tup.uid, xyz);
      var dxyz := computeDistances(current.Values());
      var keys := current.keys;
      var records, complete := WalkPairs(keys, dxyz, t);
      PairRecordsInWindow(keys, dxyz, t);
      var puts := [(RawTable, pk), (RawTable, pk)]
        + seq(|records|, m requires 0 <= m < |records| => (ProxTable, records[m].rowKey));
      out := ProcessOutput(pk, puts, records, complete);
    }
  }
}
