/**
 * `Series.median()` over the present values of a column: the middle value
 * of the sorted values, or the mean of the two middle values when their
 * number is even; missing when there are none.
 */
module Medians {
  import opened Common

  function RealKey(x: real): Option<real> {
    Some(x)
  }

  /** The values in ascending order. */
  function SortReals(xs: seq<real>): (s: seq<real>)
    ensures multiset(s) == multiset(xs) && |s| == |xs|
    ensures forall i, j :: 0 <= i < j < |s| ==> s[i] <= s[j]
  {
    var s := SortBy(xs, RealKey);
    assert forall i, j :: 0 <= i < j < |s| ==> KeyLe(RealKey(s[i]), RealKey(s[j]));
    s
  }

  /** The middle value of sorted values, or the mean of the two middle
      values when their number is even. */
  function Middle(s: seq<real>): real
    requires s != []
  {
    var n := |s|;
    if n % 2 == 1 then s[n / 2] else (s[n / 2 - 1] + s[n / 2]) / 2.0
  }

  function Median(xs: seq<real>): (m: Option<real>)
    ensures m.None? <==> xs == []
  {
    if xs == [] then None else Some(Middle(SortReals(xs)))
  }

  // Counting the values on either side of a bound.

  function AtMost(m: real): real -> bool {
    x => x <= m
  }

  function AtLeast(m: real): real -> bool {
    x => x >= m
  }

  function CountIf(xs: seq<real>, p: real -> bool): nat
    decreases |xs|
  {
    if xs == [] then 0 else CountIf(xs[..|xs| - 1], p) + (if p(xs[|xs| - 1]) then 1 else 0)
  }

  lemma {:induction false} CountIfAppend(a: seq<real>, b: seq<real>, p: real -> bool)
    ensures CountIf(a + b, p) == CountIf(a, p) + CountIf(b, p)
    decreases |b|
  {
    if b == [] {
      assert a + b == a;
    } else {
      assert (a + b)[..|a + b| - 1] == a + b[..|b| - 1];
      CountIfAppend(a, b[..|b| - 1], p);
    }
  }

  /** The count does not depend on the order of the values. */
  lemma {:induction false} CountIfPermutation(a: seq<real>, b: seq<real>, p: real -> bool)
    requires multiset(a) == multiset(b)
    ensures CountIf(a, p) == CountIf(b, p)
    decreases |a|
  {
    if a == [] {
      assert |multiset(b)| == 0;
    } else {
      var x := a[|a| - 1];
      var a' := a[..|a| - 1];
      assert a == a' + [x];
      assert x in multiset(b);
      var j :| 0 <= j < |b| && b[j] == x;
      var b' := b[..j] + b[j + 1..];
      assert b == b[..j] + [x] + b[j + 1..];
      assert multiset(b') == multiset(b) - multiset{x};
      CountIfPermutation(a', b', p);
      CountIfAppend(b[..j] + [x], b[j + 1..], p);
      CountIfAppend(b[..j], [x], p);
      CountIfAppend(b[..j], b[j + 1..], p);
      assert CountIf([x], p) == (if p(x) then 1 else 0) by {
        assert [x][..0] == [];
      }
    }
  }

  lemma {:induction false} CountIfAll(s: seq<real>, p: real -> bool)
    requires forall i :: 0 <= i < |s| ==> p(s[i])
    ensures CountIf(s, p) == |s|
    decreases |s|
  {
    if s != [] {
      CountIfAll(s[..|s| - 1], p);
    }
  }

  /** At least `hi - lo` values satisfy `p` when all of `s[lo..hi]` do. */
  lemma CountIfRange(s: seq<real>, p: real -> bool, lo: nat, hi: nat)
    requires lo <= hi <= |s|
    requires forall i :: lo <= i < hi ==> p(s[i])
    ensures CountIf(s, p) >= hi - lo
  {
    assert s == s[..lo] + s[lo..hi] + s[hi..];
    CountIfAppend(s[..lo] + s[lo..hi], s[hi..], p);
    CountIfAppend(s[..lo], s[lo..hi], p);
    CountIfAll(s[lo..hi], p);
  }

  /** The median splits the values in halves: at least half of them are at
      most the median and at least half are at least the median. */
  lemma MedianHalves(xs: seq<real>)
    requires xs != []
    ensures 2 * CountIf(xs, AtMost(Median(xs).value)) >= |xs|
    ensures 2 * CountIf(xs, AtLeast(Median(xs).value)) >= |xs|
  {
    var s := SortReals(xs);
    var m := Middle(s);
    SortedHalves(s, m);
    CountIfPermutation(s, xs, AtMost(m));
    CountIfPermutation(s, xs, AtLeast(m));
  }

  lemma SortedHalves(s: seq<real>, m: real)
    requires s != []
    requires forall i, j :: 0 <= i < j < |s| ==> s[i] <= s[j]
    requires m == Middle(s)
    ensures 2 * CountIf(s, AtMost(m)) >= |s|
    ensures 2 * CountIf(s, AtLeast(m)) >= |s|
  {
    var n := |s|;
    var h := n / 2;
    if n % 2 == 1 {
      forall i | 0 <= i < h + 1 ensures AtMost(m)(s[i]) {
        assert i == h || s[i] <= s[h];
      }
      forall i | h <= i < n ensures AtLeast(m)(s[i]) {
        assert i == h || s[h] <= s[i];
      }
      CountIfRange(s, AtMost(m), 0, h + 1);
      CountIfRange(s, AtLeast(m), h, n);
    } else {
      assert s[h - 1] <= m <= s[h];
      forall i | 0 <= i < h ensures AtMost(m)(s[i]) {
        assert i == h - 1 || s[i] <= s[h - 1];
      }
      forall i | h <= i < n ensures AtLeast(m)(s[i]) {
        assert i == h || s[h] <= s[i];
      }
      CountIfRange(s, AtMost(m), 0, h);
      CountIfRange(s, AtLeast(m), h, n);
    }
  }

  /** The median lies between the smallest and the largest value. */
  lemma MedianWithin(xs: seq<real>, lo: real, hi: real)
    requires xs != []
    requires forall i :: 0 <= i < |xs| ==> lo <= xs[i] <= hi
    ensures lo <= Median(xs).value <= hi
  {
    var s := SortReals(xs);
    var n := |s|;
    assert forall i :: 0 <= i < n ==> s[i] in multiset(xs);
    forall i | 0 <= i < n ensures lo <= s[i] <= hi {
      assert s[i] in multiset(xs);
      var k :| 0 <= k < |xs| && xs[k] == s[i];
    }
  }
}
