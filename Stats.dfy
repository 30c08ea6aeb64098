/**
 * The median that both core files take from numpy: the values are sorted,
 * and the result is the middle value for an odd count and the mean of the
 * two middle values for an even count.
 */
module Stats {

  predicate Sorted(s: seq<real>) {
    forall i, j :: 0 <= i < j < |s| ==> s[i] <= s[j]
  }

  /** The least value of a non-empty sequence. */
  function Min(s: seq<real>): (m: real)
    requires |s| > 0
    ensures m in s
    ensures forall i :: 0 <= i < |s| ==> m <= s[i]
  {
    if |s| == 1 then s[0]
    else
      var rest := Min(s[1..]);
      assert forall i :: 1 <= i < |s| ==> s[i] == s[1..][i - 1];
      if s[0] <= rest then s[0] else rest
  }

  /** The greatest value of a non-empty sequence. */
  function Max(s: seq<real>): (m: real)
    requires |s| > 0
    ensures m in s
    ensures forall i :: 0 <= i < |s| ==> s[i] <= m
  {
    if |s| == 1 then s[0]
    else
      var rest := Max(s[1..]);
      assert forall i :: 1 <= i < |s| ==> s[i] == s[1..][i - 1];
      if rest <= s[0] then s[0] else rest
  }

  /** Inserts `x` into a sorted sequence, keeping it sorted. */
  function Insert(x: real, s: seq<real>): (r: seq<real>)
    requires Sorted(s)
    ensures Sorted(r)
    ensures multiset(r) == multiset(s) + multiset{x}
    ensures |r| == |s| + 1
  {
    if s == [] then [x]
    else if x <= s[0] then
      SortedCons(x, s);
      [x] + s
    else
      var tail := Insert(x, s[1..]);
      assert s == [s[0]] + s[1..];
      BoundedBelow(s[0], tail, s[1..], x);
      SortedCons(s[0], tail);
      [s[0]] + tail
  }

  lemma SortedCons(h: real, t: seq<real>)
    requires Sorted(t)
    requires |t| == 0 || h <= t[0]
    ensures Sorted([h] + t)
  {
    var r := [h] + t;
    forall i, j | 0 <= i < j < |r|
      ensures r[i] <= r[j]
    {
      if i > 0 {
        assert r[i] == t[i - 1] && r[j] == t[j - 1];
      } else {
        assert t[0] <= t[j - 1];
      }
    }
  }

  /** Every value of `t` is at least `lo` when `t` only holds values of `s` and `x`, all at least `lo`. */
  lemma BoundedBelow(lo: real, t: seq<real>, s: seq<real>, x: real)
    requires multiset(t) == multiset(s) + multiset{x}
    requires lo <= x
    requires forall i :: 0 <= i < |s| ==> lo <= s[i]
    ensures forall j :: 0 <= j < |t| ==> lo <= t[j]
  {
    forall j | 0 <= j < |t|
      ensures lo <= t[j]
    {
      assert t[j] in multiset(t);
      if t[j] != x {
        assert t[j] in multiset(s);
      }
    }
  }

  /** An ascending permutation of `s`. */
  function Sort(s: seq<real>): (r: seq<real>)
    ensures Sorted(r)
    ensures multiset(r) == multiset(s)
    ensures |r| == |s|
  {
    if s == [] then []
    else
      assert s == [s[0]] + s[1..];
      Insert(s[0], Sort(s[1..]))
  }

  /** Two sorted sequences holding the same values are equal. */
  lemma {:induction false} SortedUnique(a: seq<real>, b: seq<real>)
    requires Sorted(a) && Sorted(b)
    requires multiset(a) == multiset(b)
    ensures a == b
  {
    if a == [] {
      assert |multiset(b)| == 0;
    } else {
      HeadsEqual(a, b);
      TailMultiset(a);
      TailMultiset(b);
      SortedUnique(a[1..], b[1..]);
      assert a == [a[0]] + a[1..];
      assert b == [b[0]] + b[1..];
    }
  }

  /** Two sorted sequences with the same values start with the same value. */
  lemma HeadsEqual(a: seq<real>, b: seq<real>)
    requires Sorted(a) && Sorted(b)
    requires multiset(a) == multiset(b)
    requires |a| > 0
    ensures |b| > 0 && a[0] == b[0]
  {
    assert a[0] in multiset(b);
    SortedHeadLeast(b, a[0]);
    SortedHeadLeast(a, b[0]);
  }

  lemma SortedHeadLeast(a: seq<real>, x: real)
    requires Sorted(a) && x in multiset(a)
    ensures |a| > 0 && a[0] <= x
  {
    var i :| 0 <= i < |a| && a[i] == x;
  }

  lemma TailMultiset(a: seq<real>)
    requires |a| > 0
    ensures multiset(a[1..]) == multiset(a) - multiset{a[0]}
  {
    assert a == [a[0]] + a[1..];
  }

  /** numpy's median of a non-empty sequence. */
  function Median(s: seq<real>): (m: real)
    requires |s| > 0
  {
    Middle(Sort(s))
  }

  /** The middle value of a sorted sequence, or the mean of its two middle values. */
  function Middle(t: seq<real>): real
    requires |t| > 0
  {
    var n := |t|;
    if n % 2 == 1 then t[n / 2] else (t[n / 2 - 1] + t[n / 2]) / 2.0
  }

  lemma MiddleBetween(t: seq<real>, lo: real, hi: real)
    requires |t| > 0
    requires forall i :: 0 <= i < |t| ==> lo <= t[i] <= hi
    ensures lo <= Middle(t) <= hi
  {
    var n := |t|;
    assert lo <= t[n / 2] <= hi;
    if n % 2 == 0 {
      assert lo <= t[n / 2 - 1] <= hi;
    }
  }

  /** The median lies between the least and the greatest value. */
  lemma MedianBetweenMinAndMax(s: seq<real>)
    requires |s| > 0
    ensures Min(s) <= Median(s) <= Max(s)
  {
    var t := Sort(s);
    forall i | 0 <= i < |t|
      ensures Min(s) <= t[i] <= Max(s)
    {
      BetweenMinAndMax(s, t[i]);
    }
    MiddleBetween(t, Min(s), Max(s));
  }

  lemma BetweenMinAndMax(s: seq<real>, x: real)
    requires x in multiset(s)
    ensures |s| > 0 && Min(s) <= x <= Max(s)
  {
    var i :| 0 <= i < |s| && s[i] == x;
  }

  /** The median depends only on the values, not on their order. */
  lemma MedianIgnoresOrder(s: seq<real>, s': seq<real>)
    requires |s| > 0
    requires multiset(s) == multiset(s')
    ensures |s'| > 0
    ensures Median(s) == Median(s')
  {
    assert |s'| == |multiset(s')| == |multiset(s)| == |s|;
    SortedUnique(Sort(s), Sort(s'));
  }

  /** The median of an odd number of values is one of them. */
  lemma OddMedianIsAValue(s: seq<real>)
    requires |s| % 2 == 1
    ensures Median(s) in s
  {
    var t := Sort(s);
    assert t[|t| / 2] in multiset(s);
  }
}
