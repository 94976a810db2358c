/**
 * The order in which the drone bolt walks the pairs of its window: outer
 * index ii over 0..n-1, inner index jj over ii+1..n-1. A running counter k
 * numbers the visits; the k-th visit reads row k of the distance matrix.
 *
 * The enumeration is built by appending, the way the loops produce it, so
 * that the loops' invariants can name it directly.
 */
module PairWalk {

  /** A pair of window positions (outer index, inner index). */
  type Pair = (nat, nat)

  /** The inner loop's visits for outer index ii before inner index jj: (ii, ii+1), …, (ii, jj-1). */
  function RowPairs(ii: nat, jj: nat): seq<Pair>
    decreases jj
  {
    if jj <= ii + 1 then [] else RowPairs(ii, jj - 1) + [(ii, jj - 1)]
  }

  /** Every visit made before the outer loop reaches index ii, for a window of size n. */
  function PairsBefore(ii: nat, n: nat): seq<Pair> {
    if ii == 0 then [] else PairsBefore(ii - 1, n) + RowPairs(ii - 1, n)
  }

  /** Every visit of the nested loop over a window of size n, in visiting order. */
  function AllPairs(n: nat): seq<Pair> {
    PairsBefore(n, n)
  }

  /** Lexicographic order on pairs. */
  predicate LexLess(p: Pair, q: Pair) {
    p.0 < q.0 || (p.0 == q.0 && p.1 < q.1)
  }

  predicate StrictlyIncreasing(s: seq<Pair>) {
    forall a, b :: 0 <= a < b < |s| ==> LexLess(s[a], s[b])
  }

  /** The inner loop for ii visits (ii, ii+1+k) at step k, jj - ii - 1 times in all. */
  lemma {:induction false} RowPairsShape(ii: nat, jj: nat)
    ensures |RowPairs(ii, jj)| == if jj <= ii then 0 else jj - ii - 1
    ensures forall k :: 0 <= k < |RowPairs(ii, jj)| ==> RowPairs(ii, jj)[k] == (ii, ii + 1 + k)
  {
    if jj > ii + 1 {
      RowPairsShape(ii, jj - 1);
    }
  }

  /** Before outer index ii the loop has made ii·(2n - ii - 1)/2 visits. */
  lemma {:induction false} PairsBeforeLength(ii: nat, n: nat)
    requires ii <= n
    ensures 2 * |PairsBefore(ii, n)| == ii * (2 * n - ii - 1)
  {
    if ii > 0 {
      PairsBeforeLength(ii - 1, n);
      RowPairsShape(ii - 1, n);
      CountStep(ii - 1, n);
    }
  }

  /** One more outer step adds n - a - 1 visits to a·(2n - a - 1)/2. */
  lemma CountStep(a: int, n: int)
    ensures a * (2 * n - a - 1) + 2 * (n - a - 1) == (a + 1) * (2 * n - a - 2)
  {
    calc {
      (a + 1) * (2 * n - a - 2);
      a * (2 * n - a - 2) + (2 * n - a - 2);
      a * (2 * n - a - 1) - a + (2 * n - a - 2);
    }
  }

  /** The walk over a window of n drones makes n(n-1)/2 visits; none at all when n < 2. */
  lemma AllPairsCount(n: nat)
    ensures 2 * |AllPairs(n)| == n * (n - 1)
    ensures |AllPairs(n)| == n * (n - 1) / 2
    ensures n < 2 ==> AllPairs(n) == []
  {
    PairsBeforeLength(n, n);
  }

  /** The inner loop for ii visits exactly the pairs (ii, j) with ii < j < jj. */
  lemma {:induction false} RowPairsMembers(ii: nat, jj: nat)
    ensures forall p :: p in RowPairs(ii, jj) <==> p.0 == ii && ii < p.1 < jj
  {
    RowPairsShape(ii, jj);
    forall p: Pair | p.0 == ii && ii < p.1 < jj
      ensures p in RowPairs(ii, jj)
    {
      assert RowPairs(ii, jj)[p.1 - ii - 1] == p;
    }
  }

  /** Before outer index ii the loop has visited exactly the pairs a < b < n with a < ii. */
  lemma {:induction false} PairsBeforeMembers(ii: nat, n: nat)
    ensures forall p :: p in PairsBefore(ii, n) <==> p.0 < ii && p.0 < p.1 < n
  {
    if ii > 0 {
      var before, row := PairsBefore(ii - 1, n), RowPairs(ii - 1, n);
      PairsBeforeMembers(ii - 1, n);
      RowPairsMembers(ii - 1, n);
      forall p: Pair
        ensures p in PairsBefore(ii, n) <==> p.0 < ii && p.0 < p.1 < n
      {
        assert p in PairsBefore(ii, n) <==> p in before || p in row;
      }
    }
  }

  /** The walk visits exactly the pairs (a, b) with a < b < n. */
  lemma AllPairsMembers(n: nat)
    ensures forall p :: p in AllPairs(n) <==> p.0 < p.1 < n
  {
    PairsBeforeMembers(n, n);
  }

  /** Concatenating two increasing runs, the first wholly below the second, stays increasing. */
  lemma ConcatIncreasing(s: seq<Pair>, t: seq<Pair>)
    requires StrictlyIncreasing(s) && StrictlyIncreasing(t)
    requires forall p, q :: p in s && q in t ==> LexLess(p, q)
    ensures StrictlyIncreasing(s + t)
  {
    var u := s + t;
    forall a, b | 0 <= a < b < |u|
      ensures LexLess(u[a], u[b])
    {
      if b < |s| {
        assert u[a] == s[a] && u[b] == s[b];
      } else if a >= |s| {
        assert u[a] == t[a - |s|] && u[b] == t[b - |s|];
      } else {
        assert u[a] in s && u[b] in t;
      }
    }
  }

  lemma RowPairsIncreasing(ii: nat, jj: nat)
    ensures StrictlyIncreasing(RowPairs(ii, jj))
  {
    RowPairsShape(ii, jj);
  }

  /** Every visit before outer index ii comes lexicographically before every visit of the inner loop for ii. */
  lemma EarlierRowsFirst(ii: nat, n: nat)
    ensures forall p, q :: p in PairsBefore(ii, n) && q in RowPairs(ii, n) ==> LexLess(p, q)
  {
    PairsBeforeMembers(ii, n);
    RowPairsMembers(ii, n);
  }

  lemma {:induction false} PairsBeforeIncreasing(ii: nat, n: nat)
    ensures StrictlyIncreasing(PairsBefore(ii, n))
  {
    if ii > 0 {
      PairsBeforeIncreasing(ii - 1, n);
      RowPairsIncreasing(ii - 1, n);
      EarlierRowsFirst(ii - 1, n);
      ConcatIncreasing(PairsBefore(ii - 1, n), RowPairs(ii - 1, n));
    }
  }

  /** The walk is in strictly increasing lexicographic order, so it visits no pair twice. */
  lemma AllPairsOrdered(n: nat)
    ensures StrictlyIncreasing(AllPairs(n))
    ensures forall a, b :: 0 <= a < b < |AllPairs(n)| ==> AllPairs(n)[a] != AllPairs(n)[b]
  {
    PairsBeforeIncreasing(n, n);
  }

  /** The visits before a smaller outer index are a prefix of those before a larger one. */
  lemma {:induction false} PairsBeforePrefix(a: nat, b: nat, n: nat)
    requires a <= b
    ensures PairsBefore(a, n) <= PairsBefore(b, n)
  {
    if a < b {
      PairsBeforePrefix(a, b - 1, n);
    }
  }

  /** The pair (ii, jj) is the visit numbered by the visits before ii plus its place in the inner loop. */
  lemma PairIndex(ii: nat, jj: nat, n: nat)
    requires ii < jj < n
    ensures var k := |PairsBefore(ii, n)| + (jj - ii - 1);
      k < |AllPairs(n)| && AllPairs(n)[k] == (ii, jj)
  {
    var before, row := PairsBefore(ii, n), RowPairs(ii, n);
    var next := PairsBefore(ii + 1, n);
    var k := |before| + (jj - ii - 1);
    RowPairsShape(ii, n);
    assert next == before + row;
    assert next[k] == (ii, jj) by {
      assert next[k] == row[jj - ii - 1];
    }
    PairsBeforePrefix(ii + 1, n, n);
    assert AllPairs(n)[k] == next[k];
  }

  /** Counter/pair correspondence: the pair (ii, jj) is visit number ii·(2n - ii - 1)/2 + (jj - ii - 1). */
  lemma PairPosition(ii: nat, jj: nat, n: nat)
    requires ii < jj < n
    ensures var k := |PairsBefore(ii, n)| + (jj - ii - 1);
      k < |AllPairs(n)| && AllPairs(n)[k] == (ii, jj)
      && 2 * k == ii * (2 * n - ii - 1) + 2 * (jj - ii - 1)
  {
    PairIndex(ii, jj, n);
    PairsBeforeLength(ii, n);
  }
}
