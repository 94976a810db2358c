# dronestorm core, modelled in Dafny

dronestorm is a set of Storm bolts that track simulated delivery drones. This project models two of them.

**`SimpleDroneBolt`**, the all-in-one bolt. For each drone report it:
- keys the raw record by `uid + dronetime`;
- stores the drone's Cartesian position in a bounded, insertion-ordered window of current drones (`FixedLenDict`);
- obtains the pairwise distance matrix of the window;
- walks every pair of window keys in key order, with a running row counter `k`;
- for each pair, flags it when its distance is strictly below 100 m and writes a proximity record keyed by `i + j + t`.

**`TestProximityBolt`**, the proximity consumer. From one tuple that describes two drones it:
- converts both positions to Earth-centred coordinates;
- fills a one-row distance matrix with the one-to-many kernel `distance_one_many`;
- writes two Cartesian records and one proximity record;
- decides the warning;
- emits `(time, id0, id1, distance)`.

The project has five modules:

- `Geometry` (`geometry.dfy`): points, the four-column distance row `(dx, dy, dz, dr)`, and the strict `< 100` proximity rule both bolts use. The square root is a parameter `sqrt: real -> real`. `IsSqrt` states what is relied on about it: a non-negative result whose square is the argument.
- `Consumer` (`consumer.dfy`), modelling `src/bolts/consumer.py`:
  - the sea-level radius and the geodetic-to-Cartesian conversion, with sine and cosine as parameters;
  - `DistanceOneMany`, which fills an `array2<real>` of shape n×4 in a loop;
  - the `TestProximityBolt` step.
- `PairWalk` (`pair_walk.dfy`): the order of the nested pair loop, built by appending the way the loops produce it. It carries the pair count n(n-1)/2, the membership and ordering lemmas, and the correspondence between the counter and the pair.
- `FixedLenDicts` (`fixed_len_dict.dfy`): the class `FixedLenDict`.
  - Its fields are the key order `keys: seq<K>`, the values `items: map<K, V>` and `maxSize`.
  - `SetItem` and `PruneDict` are proved against the key-order functions `KeysAfterSet` and `Pruned`.
  - `Replay` folds `KeysAfterSet` over a sequence of ids.
- `SimpleBolt` (`simple_bolt.dfy`):
  - `WalkPairs`, the nested loop with counter `k`, proved against the record sequence `PairRecords`;
  - the class `SimpleDroneBolt`, whose `Process` updates its window and produces the records and writes of one report.

Coordinates are real numbers, not 64-bit floats. Clock readings (`datetime.now()` formatted with `dtfmt`) are string parameters.

Two external routines are parameters of `SimpleDroneBolt.Process`:
- `to_cartesian` from `dronedirector.distance`: `Process` receives its result `xyz`.
- `compute_distances` from `dronedirector.distance`: `Process` receives it as `computeDistances`.

`SimpleBolt.PairwiseRows` is a layout assumed for the result of `compute_distances`, not read from any source: one row per pair, in walk order, first drone minus second. The walk's comment (src/bolts/simple_bolt.py:113-114) says only that the loops follow the order of that result.

Two facts about the code that the model keeps as they are:
- Storing a key that is already in a `FixedLenDict` keeps the key where it was, because `OrderedDict.__setitem__` does not move an existing key (src/bolts/simple_bolt.py:47).
- The sea-level numerator is the code's constant 2.585966984300735e+20 (src/bolts/consumer.py:20).

## Model

| member | source | states |
|---|---|---|
| FixedLenDicts.FixedLenDict.constructor | src/bolts/simple_bolt.py:49-51 | a new dictionary is empty and has the given maximum size |
| FixedLenDicts.FixedLenDict.WithDefaultMaxSize | src/bolts/simple_bolt.py:29-50 | without a `max_size` argument the maximum is 2000 |
| FixedLenDicts.FixedLenDict.Delete | src/bolts/simple_bolt.py:41 | `del self[k]` removes k from the key order, keeping the others in order, and drops its value |
| FixedLenDicts.FixedLenDict.PruneDict | src/bolts/simple_bolt.py:36-41 | when len ≥ m, exactly the first len − m keys are deleted; otherwise nothing changes; survivors keep their order and values; the invariant holds |
| FixedLenDicts.FixedLenDict.SetItem | src/bolts/simple_bolt.py:43-47 | the new key order is `KeysAfterSet` of the old; the stored value is replaced and every other value is unchanged; the size bound is kept when max ≥ 1; storing a new key into a full dictionary evicts exactly the oldest key |
| FixedLenDicts.SetNewKeyWhenFull | src/bolts/simple_bolt.py:43-47 | a new key stored into a full dictionary drops the first key, is appended last, and the size stays at the maximum |
| FixedLenDicts.SetNewKeyWhenRoom | src/bolts/simple_bolt.py:44-47 | a new key stored below the maximum is appended, nothing is evicted, and the size grows by one |
| FixedLenDicts.SetExistingKey | src/bolts/simple_bolt.py:44-47 | re-storing a present key leaves the key order and the size unchanged |
| FixedLenDicts.SetKeepsBound | src/bolts/simple_bolt.py:44-47 | with a maximum of at least one, storing never exceeds the maximum |
| FixedLenDicts.SetWithZeroMaxSizeOverflows | src/bolts/simple_bolt.py:38-47 | with a maximum of zero the prune deletes nothing and the dictionary ends up above its maximum |
| FixedLenDicts.SetKeepsDistinct | src/bolts/simple_bolt.py:43-47 | storing keeps the key order free of duplicates; the stored key is present afterwards, and no other key appears |
| FixedLenDicts.WithoutFirst | src/bolts/simple_bolt.py:40-41 | deleting the first key of a duplicate-free key order leaves the rest in order |
| FixedLenDicts.ReplayKeepsLatest | src/bolts/simple_bolt.py:43-47 | storing distinct ids in turn into an empty dictionary with maximum m ≥ 1 leaves exactly the latest m of them, oldest first |
| FixedLenDicts.ReplayOneOverEvictsFirst | src/bolts/simple_bolt.py:43-47 | storing m + 1 distinct ids evicts exactly the first one |
| PairWalk.RowPairsShape | src/bolts/simple_bolt.py:117-118 | the inner loop for ii visits (ii, ii+1+k) at its k-th step, n − ii − 1 times in all |
| PairWalk.PairsBeforeLength | src/bolts/simple_bolt.py:112-131 | before outer index ii the counter stands at ii·(2n − ii − 1)/2 |
| PairWalk.AllPairsCount | src/bolts/simple_bolt.py:112-131 | the walk makes n(n − 1)/2 visits, none when n < 2 |
| PairWalk.AllPairsMembers | src/bolts/simple_bolt.py:115-118 | the walk visits exactly the pairs ii < jj < n |
| PairWalk.AllPairsOrdered | src/bolts/simple_bolt.py:115-118 | the visits are in strictly increasing lexicographic order, so no pair is visited twice |
| PairWalk.PairIndex | src/bolts/simple_bolt.py:112-131 | the pair (ii, jj) is the visit numbered by the visits before outer index ii plus jj − ii − 1, so it reads that row of the matrix |
| PairWalk.PairPosition | src/bolts/simple_bolt.py:112-131 | the pair (ii, jj) is visit number ii·(2n − ii − 1)/2 + (jj − ii − 1), which is the row of the matrix it reads |
| SimpleBolt.PairRecords | src/bolts/simple_bolt.py:113-131 | the walk over n keys writes min(n(n − 1)/2, rows of the matrix) records: one per pair while the matrix has rows |
| SimpleBolt.WalkPairs | src/bolts/simple_bolt.py:112-131 | the nested loop with counter k produces exactly `PairRecords`: row k for the k-th pair, the flag `dr < 100`, the key `i + j + t`; it completes iff the matrix has a row for every pair, and a shorter matrix stops it where the rows run out |
| SimpleBolt.PairRecordsInWindow | src/bolts/simple_bolt.py:113-123 | every record names two different window drones, the earlier first, under the key `i + j + t`; record m carries row m and is flagged iff that row's distance is below 100 |
| SimpleBolt.PairRecordsComplete | src/bolts/simple_bolt.py:112-131 | with a full matrix, n(n − 1)/2 records are written and each pair of window positions a < b appears at its walk position |
| SimpleBolt.PairRecordsAgainstReference | src/bolts/simple_bolt.py:120-121 | with a matrix in the assumed layout and a true square root, a pair is flagged iff its squared distance is below 100², so a distance of exactly 100 is not flagged |
| SimpleBolt.ThreeDronesWindowOfTwo | src/bolts/simple_bolt.py:106-123 | three drones reported into a window of two: the first is evicted and only the pair of the other two is written |
| SimpleBolt.SimpleDroneBolt.constructor | src/bolts/simple_bolt.py:68 | the window starts empty with maximum `density` |
| SimpleBolt.SimpleDroneBolt.Process | src/bolts/simple_bolt.py:79-131 | raw key `uid + dronetime`; the window after the insert is `KeysAfterSet` of the old one and holds the new position; records are `PairRecords` over the window after the insert; two writes to the raw table, then one per pair to the proximity table; the pair ids are in the window, so an id evicted by this insert never appears |
| Geometry.SquaredLength | src/bolts/consumer.py:60 | dx² + dy² + dz² is non-negative |
| Geometry.DistanceRowMeasures | src/bolts/consumer.py:57-64 | column 3 is non-negative and its square is dx² + dy² + dz², the squared distance between source and target |
| Geometry.TooCloseIffSquaredDistance | src/bolts/consumer.py:117 | `dr < 100` holds iff the squared distance is below 10000 |
| Geometry.DistanceRowSymmetric | src/bolts/consumer.py:57-60 | swapping source and target negates the differences and keeps the distance |
| Geometry.DistanceRowToSelf | src/bolts/consumer.py:56-64 | a target equal to the source gives an all-zero row |
| Consumer.SeaLevelDenominatorPositive | src/bolts/consumer.py:20 | the denominator of the sea-level formula is positive wherever sin² + cos² = 1 |
| Consumer.SeaLevel | src/bolts/consumer.py:11-20 | the sea-level radius is positive |
| Consumer.ToCartesianOnSphere | src/bolts/consumer.py:24-37 | the converted point lies at distance altitude + sea level from the Earth's centre |
| Consumer.DistanceOneMany | src/bolts/consumer.py:41-65 | a fresh len(xs)×4 matrix, empty for no targets; row i is (x − xs[i], y − ys[i], z − zs[i], sqrt of their squared sum), depending only on the source and target i |
| Consumer.TrackedAsWrittenCountsSeaLevelTwice | src/bolts/consumer.py:87-88 | as written, the point lies at recorded radius + sea level from the centre; for altitudes ≥ 0 it is never at the recorded radius |
| Consumer.TrackedCorrectedOnRecordedRadius | src/bolts/consumer.py:87-88 | corrected, the point lies exactly at the recorded radius |
| Consumer.ProximityProcess | src/bolts/consumer.py:77-119 | Cartesian keys `id0 + t0` and `id1 + t1`; proximity key `id0 + id1 + t`; the row is the kernel's single row for the two positions; the warning fires iff `dr < 100`; the emitted tuple is (t, id0, id1, dr) |
| Consumer.ProximityWarningIffClose | src/bolts/consumer.py:117 | the warning fires iff the squared distance of the two positions is below 10000 |

## Left out

- FixedLenDicts.FixedLenDict.constructor: starts empty. Items given at construction (`*args`, `**kwargs`) are not modelled. `OrderedDict` stores them one by one through `__setitem__`, which `Replay` describes.
- `FixedLenDict.update` (src/bolts/simple_bolt.py:31-34) is not modelled. It calls `self._prune`, which does not exist, so every call raises.
- `self.keys()[:diff]` (src/bolts/simple_bolt.py:40) is modelled as the first `diff` keys, taken before any deletion. That is its meaning where `keys()` returns a list. Where it returns a view, the slice raises.
- HBase: connections, table handles and column values are not modelled. `Process` records each write as a table and a row key. `ProximityProcess` records the written records. Both Cartesian-table writes of `TestProximityBolt` are modelled as records.
- The record of Cartesian coordinates in `SimpleDroneBolt.process` goes to the raw table (src/bolts/simple_bolt.py:99), as written. The bolt's cart table is never written to.
- Logging, `initialize` (reading the config file, opening connections) and `_compute_dist`'s tuple unzipping are not modelled: they are I/O, or conversions the parameter `computeDistances` subsumes.
- Clock readings are opaque string parameters. In `SimpleDroneBolt` the formatted time `t` is both the key suffix and the datetime column of a pair record.
- The datetime columns `str(t0)`, `str(t1)` and `str(t)` of the proximity bolt's records (src/bolts/consumer.py:92, 102, 112) are not modelled: `CartRecord` and `ProxRecord` have no datetime column. Only the formatted times in the row keys and the emitted tuple are modelled.
- Consumer.DistanceOneMany: requires `ys` and `zs` to be at least as long as `xs`. A shorter `ys` or `zs` raises an IndexError in the source, which the model does not capture. The only caller (src/bolts/consumer.py:107) passes three one-element lists.
- SimpleBolt.PairwiseRows: the layout of `compute_distances` (walk order, first drone minus second) is assumed, not read from any source. `SimpleBolt.PairRecordsAgainstReference` holds only for a matrix in this layout; `SimpleDroneBolt.Process` takes any matrix.
- Floating point, `numba` compilation, `np.sqrt`, `np.sin` and `np.cos`: reals replace floats, and the functions are parameters. Rounding is not modelled.
- `dronedirector.distance` (`lat_to_rad`, `to_cartesian`, `compute_distances`) is not part of this model. Its results are parameters of `Process`. The radius column `r` that `to_cartesian` returns there is not modelled.
- When the matrix from `compute_distances` has too few rows, indexing raises in the original. The model stops the walk there, with `complete == false`. Records already written stay written.
- Consumer.ProximityProcess: uses the corrected conversion. The as-written conversion is `Consumer.TrackedAsWritten` (see Findings).
- The `region` field of a report is read but not used.
- The spouts, `cart_write_bolt.py` and the topologies are not modelled. They are Kafka polling, a logging stub and Storm wiring.

## Findings

| source | as written | input that shows it | evidently intended | confidence | as-written member | corrected member |
|---|---|---|---|---|---|---|
| src/bolts/consumer.py:87-88 | `r0 = get_sea_level(lat0) + alt0` is passed to `to_cartesian` as the altitude, and `to_cartesian` adds `get_sea_level(lat0)` again | any drone with alt0 ≥ 0, e.g. alt0 = 0: the point lies at 2·sea level from the centre, while r0 = sea level is recorded | pass `alt0` to `to_cartesian`; record `r0` as the radius | not executed | Consumer.TrackedAsWrittenCountsSeaLevelTwice | Consumer.TrackedCorrectedOnRecordedRadius |
| src/bolts/consumer.py:97-98 | the same for the second drone: `r1` is passed as the altitude | any drone with alt1 ≥ 0 | pass `alt1` to `to_cartesian`; record `r1` as the radius | not executed | Consumer.TrackedAsWrittenCountsSeaLevelTwice | Consumer.TrackedCorrectedOnRecordedRadius |
