/**
 * The index pairs visited by the nested loop of get_intersecting_points
 * (libLocalization.py): for i in range(n), for k in range(i + 1, n).
 */
module Pairs {

  type Pair = (nat, nat)

  /** The inner loop for row `i` up to (not including) `k`: (i, i + 1), ..., (i, k - 1). */
  function Row(i: nat, k: nat): seq<Pair> {
    if k <= i + 1 then [] else Row(i, k - 1) + [(i, k - 1)]
  }

  /** The pairs of rows 0, ..., i - 1, each row running to `n`. */
  function PairsBefore(n: nat, i: nat): seq<Pair> {
    if i == 0 then [] else PairsBefore(n, i - 1) + Row(i - 1, n)
  }

  /** Row `i` up to `k` holds (i, i + 1), ..., (i, k - 1) in that order. */
  lemma {:induction false} RowShape(i: nat, k: nat)
    ensures k <= i + 1 ==> Row(i, k) == []
    ensures i + 1 <= k ==> |Row(i, k)| == k - i - 1
    ensures forall j :: 0 <= j < |Row(i, k)| ==> Row(i, k)[j] == (i, i + 1 + j)
  {
    if k > i + 1 {
      RowShape(i, k - 1);
    }
  }

  /** Every pair before row `i` has a first index below `i` and below its second, and both below `n`. */
  lemma {:induction false} PairsBeforeBounds(n: nat, i: nat)
    ensures forall j :: 0 <= j < |PairsBefore(n, i)| ==> PairsBefore(n, i)[j].0 < i && PairsBefore(n, i)[j].0 < PairsBefore(n, i)[j].1 < n
  {
    if i > 0 {
      PairsBeforeBounds(n, i - 1);
      RowShape(i - 1, n);
      var before := PairsBefore(n, i - 1);
      var row := Row(i - 1, n);
      var all: seq<Pair> := before + row;
      assert PairsBefore(n, i) == all;
      forall j | 0 <= j < |all|
        ensures all[j].0 < i && all[j].0 < all[j].1 < n
      {
        if j < |before| {
          assert all[j] == before[j];
        } else {
          assert all[j] == row[j - |before|];
        }
      }
    }
  }

  /** Every pair visited for `n` circles, in visiting order. */
  function AllPairs(n: nat): seq<Pair> {
    PairsBefore(n, n)
  }

  /** Strict lexicographic order on pairs. */
  predicate LexLess(p: Pair, q: Pair) {
    p.0 < q.0 || (p.0 == q.0 && p.1 < q.1)
  }

  /** Row `j` up to `n` holds exactly the pairs (j, k) with j < k < n. */
  lemma RowMembership(j: nat, n: nat, p: Pair)
    ensures p in Row(j, n) <==> p.0 == j && j < p.1 < n
  {
    RowShape(j, n);
    if p.0 == j && j < p.1 < n {
      assert Row(j, n)[p.1 - j - 1] == p;
    }
  }

  lemma PairsBeforeUnfold(n: nat, m: nat, p: Pair)
    requires m > 0
    ensures p in PairsBefore(n, m) <==> p in PairsBefore(n, m - 1) || p in Row(m - 1, n)
  {
  }

  /** Every pair before row `m` lies in a row below `m`, above its own first index and below `n`. */
  lemma PairsBeforeOnly(n: nat, m: nat, p: Pair)
    ensures p in PairsBefore(n, m) ==> p.0 < m && p.0 < p.1 < n
  {
    if p in PairsBefore(n, m) {
      PairsBeforeBounds(n, m);
      var j :| 0 <= j < |PairsBefore(n, m)| && PairsBefore(n, m)[j] == p;
    }
  }

  /** Every pair (i, k) with i < m and i < k < n comes before row `m`. */
  lemma {:induction false} PairsBeforeHas(n: nat, m: nat, p: Pair)
    requires p.0 < m && p.0 < p.1 < n
    ensures p in PairsBefore(n, m)
  {
    PairsBeforeUnfold(n, m, p);
    if p.0 == m - 1 {
      RowMembership(m - 1, n, p);
    } else {
      PairsBeforeHas(n, m - 1, p);
    }
  }

  /** The rows before row `m` hold exactly the pairs (i, k) with i < m and i < k < n. */
  lemma PairsBeforeMembership(n: nat, m: nat, p: Pair)
    ensures p in PairsBefore(n, m) <==> p.0 < m && p.0 < p.1 < n
  {
    PairsBeforeOnly(n, m, p);
    if p.0 < m && p.0 < p.1 < n {
      PairsBeforeHas(n, m, p);
    }
  }

  /** The loop visits exactly the pairs i < k < n. */
  lemma AllPairsMembership(n: nat, i: nat, k: nat)
    ensures (i, k) in AllPairs(n) <==> i < k < n
  {
    PairsBeforeMembership(n, n, (i, k));
  }

  /** Strictly increasing in lexicographic order. */
  predicate Ordered(ps: seq<Pair>) {
    forall a, b :: 0 <= a < b < |ps| ==> LexLess(ps[a], ps[b])
  }

  lemma RowOrdered(i: nat, k: nat)
    ensures Ordered(Row(i, k))
  {
    RowShape(i, k);
  }

  /** Two ordered runs stay ordered when every first index of the first run is below those of the second. */
  lemma OrderedAppend(x: seq<Pair>, y: seq<Pair>, j: nat)
    requires Ordered(x) && Ordered(y)
    requires forall a :: 0 <= a < |x| ==> x[a].0 < j
    requires forall b :: 0 <= b < |y| ==> y[b].0 == j
    ensures Ordered(x + y)
  {
    var r := x + y;
    forall a, b | 0 <= a < b < |r|
      ensures LexLess(r[a], r[b])
    {
      if b < |x| {
        assert r[a] == x[a] && r[b] == x[b];
      } else if a < |x| {
        assert r[a] == x[a] && r[b] == y[b - |x|];
      } else {
        assert r[a] == y[a - |x|] && r[b] == y[b - |x|];
      }
    }
  }

  lemma {:induction false} PairsBeforeOrdered(n: nat, m: nat)
    ensures Ordered(PairsBefore(n, m))
  {
    if m > 0 {
      PairsBeforeOrdered(n, m - 1);
      PairsBeforeBounds(n, m - 1);
      RowShape(m - 1, n);
      RowOrdered(m - 1, n);
      OrderedAppend(PairsBefore(n, m - 1), Row(m - 1, n), m - 1);
    }
  }

  /**
   * The pairs are visited in strictly increasing lexicographic order, so
   * each pair is visited once.
   */
  lemma AllPairsOrdered(n: nat)
    ensures var r := AllPairs(n);
      forall a, b :: 0 <= a < b < |r| ==> LexLess(r[a], r[b]) && r[a] != r[b]
  {
    PairsBeforeOrdered(n, n);
    var r := AllPairs(n);
    forall a, b | 0 <= a < b < |r|
      ensures r[a] != r[b]
    {
      assert LexLess(r[a], r[b]);
    }
  }

  lemma {:induction false} PairsBeforeFew(n: nat, m: nat)
    requires n < 2
    ensures PairsBefore(n, m) == []
  {
    if m > 0 {
      PairsBeforeFew(n, m - 1);
    }
  }

  /** Fewer than two circles give no pair. */
  lemma AllPairsFew(n: nat)
    requires n < 2
    ensures AllPairs(n) == []
  {
    PairsBeforeFew(n, n);
  }
}
