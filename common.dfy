/**
 * Shared vocabulary of the ranking pipeline: optional values (a pandas NaN
 * is `None`), results for the source's exceptions, sums over sequences of
 * reals, and the ascending sort with missing keys last that every ranking
 * table goes through (`DataFrame.sort_values` with its defaults).
 */
module Common {

  datatype Option<+T> = None | Some(value: T)

  datatype Result<+R, +E> = Success(value: R) | Failure(error: E)

  /** The ratio `a / b` of two optional values; missing when either is
      missing or when the denominator is zero. */
  function Ratio(a: Option<real>, b: Option<real>): (r: Option<real>)
    ensures r.Some? <==> a.Some? && b.Some? && b.value != 0.0
    ensures r.Some? ==> r.value * b.value == a.value
  {
    if a.Some? && b.Some? && b.value != 0.0 then Some(a.value / b.value) else None
  }

  /** Python truthiness of an optional number: present and non-zero (NaN is
      truthy, but a NaN is modelled as `None`, which is handled alike by
      every caller because NaN arithmetic stays NaN). */
  predicate Truthy(v: Option<real>) {
    v.Some? && v.value != 0.0
  }

  /** Multiplies an optional value by a constant; missing stays missing. */
  function Scale(v: Option<real>, c: real): (r: Option<real>)
    ensures r.Some? <==> v.Some?
    ensures r.Some? ==> r.value == v.value * c
  {
    if v.Some? then Some(v.value * c) else None
  }

  predicate Distinct<T(==)>(s: seq<T>) {
    forall i, j :: 0 <= i < j < |s| ==> s[i] != s[j]
  }

  function Sum(s: seq<real>): real {
    if s == [] then 0.0 else Sum(s[..|s| - 1]) + s[|s| - 1]
  }

  lemma {:induction false} SumAppend(a: seq<real>, b: seq<real>)
    ensures Sum(a + b) == Sum(a) + Sum(b)
    decreases |b|
  {
    if b == [] {
      assert a + b == a;
    } else {
      assert (a + b)[..|a + b| - 1] == a + b[..|b| - 1];
      SumAppend(a, b[..|b| - 1]);
    }
  }

  /** The first entry of an association list (a Python dict, which keeps
      insertion order) whose key is `k`. */
  function Lookup<K(==), V>(ps: seq<(K, V)>, k: K): (r: Option<V>)
    ensures r.None? <==> forall i :: 0 <= i < |ps| ==> ps[i].0 != k
    ensures r.Some? ==> exists i :: 0 <= i < |ps| && ps[i] == (k, r.value)
  {
    if ps == [] then None
    else if ps[0].0 == k then Some(ps[0].1)
    else
      var r := Lookup(ps[1..], k);
      assert r.Some? ==> exists i :: 0 <= i < |ps[1..]| && ps[1..][i] == (k, r.value);
      r
  }

  /** Both entries of a two-entry dict with distinct keys. */
  lemma LookupPair<K, V>(k1: K, v1: V, k2: K, v2: V)
    requires k1 != k2
    ensures Lookup([(k1, v1), (k2, v2)], k1) == Some(v1)
    ensures Lookup([(k1, v1), (k2, v2)], k2) == Some(v2)
  {
    assert [(k1, v1), (k2, v2)][1..] == [(k2, v2)];
  }

  function Keys<K, V>(ps: seq<(K, V)>): (ks: seq<K>)
    ensures |ks| == |ps|
    ensures forall i :: 0 <= i < |ps| ==> ks[i] == ps[i].0
  {
    seq(|ps|, i requires 0 <= i < |ps| => ps[i].0)
  }

  // ---------------------------------------------------------------------
  // Sorting by an optional real key, ascending, missing keys last.
  // ---------------------------------------------------------------------

  /** The order `sort_values` uses: ascending, NaN (missing) after every
      number. */
  predicate KeyLe(a: Option<real>, b: Option<real>) {
    match a
    case None => b.None?
    case Some(x) => b.None? || x <= b.value
  }

  lemma KeyLeTotal(a: Option<real>, b: Option<real>)
    ensures KeyLe(a, b) || KeyLe(b, a)
  {
  }

  lemma KeyLeTransitive(a: Option<real>, b: Option<real>, c: Option<real>)
    requires KeyLe(a, b) && KeyLe(b, c)
    ensures KeyLe(a, c)
  {
  }

  predicate SortedBy<T>(s: seq<T>, key: T -> Option<real>) {
    forall i, j :: 0 <= i < j < |s| ==> KeyLe(key(s[i]), key(s[j]))
  }

  /** Inserts `x` into the sorted `s`, before the first element with a
      strictly greater key. */
  function Insert<T>(x: T, s: seq<T>, key: T -> Option<real>): (r: seq<T>)
    requires SortedBy(s, key)
    ensures multiset(r) == multiset(s) + multiset{x}
    ensures |r| == |s| + 1
    ensures SortedBy(r, key)
  {
    if s == [] then [x]
    else if KeyLe(key(x), key(s[0])) then
      InsertFront(x, s, key);
      [x] + s
    else
      var rest := Insert(x, s[1..], key);
      InsertBehind(x, s, key, rest);
      assert s == [s[0]] + s[1..];
      [s[0]] + rest
  }

  lemma InsertFront<T>(x: T, s: seq<T>, key: T -> Option<real>)
    requires SortedBy(s, key) && s != [] && KeyLe(key(x), key(s[0]))
    ensures SortedBy([x] + s, key)
  {
    forall j | 0 <= j < |s| ensures KeyLe(key(x), key(s[j])) {
      if j > 0 { KeyLeTransitive(key(x), key(s[0]), key(s[j])); }
    }
  }

  lemma InsertBehind<T>(x: T, s: seq<T>, key: T -> Option<real>, rest: seq<T>)
    requires SortedBy(s, key) && s != [] && !KeyLe(key(x), key(s[0]))
    requires SortedBy(rest, key) && multiset(rest) == multiset(s[1..]) + multiset{x}
    ensures SortedBy([s[0]] + rest, key)
  {
    KeyLeTotal(key(x), key(s[0]));
    forall j | 0 <= j < |rest| ensures KeyLe(key(s[0]), key(rest[j])) {
      assert rest[j] in multiset(rest);
      if rest[j] in multiset(s[1..]) {
        var k :| 0 <= k < |s[1..]| && s[1..][k] == rest[j];
        assert s[k + 1] == rest[j];
      }
    }
    var r := [s[0]] + rest;
    forall i, j | 0 <= i < j < |r| ensures KeyLe(key(r[i]), key(r[j])) {
      if i > 0 {
        assert r[i] == rest[i - 1] && r[j] == rest[j - 1];
      }
    }
  }

  /** One ordering of `s` sorted by `key`: `sort_values` promises no more
      (its default algorithm is not stable), so callers rely only on
      `SortedBy` and on the result being a permutation. */
  function SortBy<T>(s: seq<T>, key: T -> Option<real>): (r: seq<T>)
    ensures multiset(r) == multiset(s)
    ensures |r| == |s|
    ensures SortedBy(r, key)
  {
    if s == [] then []
    else
      var rest := SortBy(s[1..], key);
      assert s == [s[0]] + s[1..];
      assert multiset(s) == multiset(s[1..]) + multiset{s[0]};
      Insert(s[0], rest, key)
  }
}
