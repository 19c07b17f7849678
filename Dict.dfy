// Python dicts as the engine uses them: insertion-ordered, one entry per key,
// assignment replacing a value in place, and json.dumps(..., sort_keys=True)
// writing the entries in key order.
module Dict {
  import opened Text

  /** A dict as the list of its items in insertion order. */
  type Dict<K, V> = seq<(K, V)>

  predicate UniqueKeys<K(==), V(==)>(d: Dict<K, V>) {
    forall i, j :: 0 <= i < j < |d| ==> d[i].0 != d[j].0
  }

  function KeySet<K(==), V(==)>(d: Dict<K, V>): set<K> {
    set i | 0 <= i < |d| :: d[i].0
  }

  lemma KeySetSnoc<K, V>(d: Dict<K, V>)
    requires d != []
    ensures KeySet(d) == KeySet(d[..|d| - 1]) + {d[|d| - 1].0}
  {
    var n := |d| - 1;
    forall k | k in KeySet(d) ensures k in KeySet(d[..n]) + {d[n].0} {
      var i :| 0 <= i < |d| && d[i].0 == k;
      if i < n { assert d[..n][i].0 == k; }
    }
  }

  /** dict(d): the mapping the items denote; a later item for the same key wins. */
  function ToMap<K(==), V(==)>(d: Dict<K, V>): (m: map<K, V>)
    ensures m.Keys == KeySet(d)
  {
    if d == [] then map[]
    else KeySetSnoc(d); ToMap(d[..|d| - 1])[d[|d| - 1].0 := d[|d| - 1].1]
  }

  /** With distinct keys, every item survives in the mapping. */
  lemma {:induction false} ToMapAt<K, V>(d: Dict<K, V>, i: nat)
    requires UniqueKeys(d) && i < |d|
    ensures ToMap(d)[d[i].0] == d[i].1
    decreases |d|
  {
    var n := |d| - 1;
    if i < n {
      ToMapAt(d[..n], i);
      assert d[n].0 != d[i].0;
    }
  }

  /** Position of key k, or |d| when k is absent. */
  function IndexOf<K(==), V(==)>(d: Dict<K, V>, k: K): (i: nat)
    ensures i <= |d|
    ensures i < |d| ==> d[i].0 == k
    ensures forall j :: 0 <= j < i ==> d[j].0 != k
  {
    if d == [] then 0
    else if d[0].0 == k then 0
    else 1 + IndexOf(d[1..], k)
  }

  /** d[k] = v: an existing key keeps its position and takes the new value, a new
      key goes to the end. */
  function Put<K(==), V(==)>(d: Dict<K, V>, k: K, v: V): (r: Dict<K, V>)
    requires UniqueKeys(d)
    ensures UniqueKeys(r)
    ensures |r| == if k in KeySet(d) then |d| else |d| + 1
    ensures forall i :: 0 <= i < |d| ==> r[i] == if d[i].0 == k then (k, v) else d[i]
    ensures k !in KeySet(d) ==> r[|d|] == (k, v)
    ensures ToMap(r) == ToMap(d)[k := v]
  {
    var i := IndexOf(d, k);
    if i < |d| then
      ToMapUpdate(d, i, v);
      d[i := (k, v)]
    else
      assert k !in KeySet(d);
      d + [(k, v)]
  }

  lemma {:induction false} ToMapUpdate<K, V>(d: Dict<K, V>, i: nat, v: V)
    requires UniqueKeys(d) && i < |d|
    ensures ToMap(d[i := (d[i].0, v)]) == ToMap(d)[d[i].0 := v]
    decreases |d|
  {
    var n := |d| - 1;
    var k := d[i].0;
    var e := d[i := (k, v)];
    if i == n {
      assert e[..n] == d[..n];
      OverwriteTwice(ToMap(d[..n]), k, d[n].1, v);
    } else {
      assert e[..n] == d[..n][i := (k, v)];
      ToMapUpdate(d[..n], i, v);
      assert d[n].0 != k;
      UpdatesCommute(ToMap(d[..n]), k, v, d[n].0, d[n].1);
    }
  }

  /** With distinct keys, the mapping is the rest's mapping plus the first item. */
  lemma {:induction false} ToMapFront<K, V>(d: Dict<K, V>)
    requires UniqueKeys(d) && d != []
    ensures d[0].0 !in ToMap(d[1..])
    ensures ToMap(d) == ToMap(d[1..])[d[0].0 := d[0].1]
    decreases |d|
  {
    FirstKeyOnce(d);
    var n := |d| - 1;
    if n > 0 {
      var front, back := d[..n], d[1..];
      assert UniqueKeys(front) by {
        forall i, j | 0 <= i < j < n ensures front[i].0 != front[j].0 {
          assert front[i] == d[i] && front[j] == d[j];
        }
      }
      ToMapFront(front);
      assert front[0] == d[0] && back[n - 1] == d[n];
      assert back[..n - 1] == front[1..];
      calc {
        ToMap(d);
        ToMap(front)[d[n].0 := d[n].1];
        ToMap(front[1..])[d[0].0 := d[0].1][d[n].0 := d[n].1];
        { UpdatesCommute(ToMap(front[1..]), d[0].0, d[0].1, d[n].0, d[n].1); }
        ToMap(front[1..])[d[n].0 := d[n].1][d[0].0 := d[0].1];
        ToMap(back)[d[0].0 := d[0].1];
      }
    }
  }

  /** With distinct keys, the first key does not occur again. */
  lemma FirstKeyOnce<K, V>(d: Dict<K, V>)
    requires UniqueKeys(d) && d != []
    ensures d[0].0 !in KeySet(d[1..])
  {
    forall i | 0 <= i < |d| - 1 ensures d[1..][i].0 != d[0].0 {
      assert d[1..][i] == d[i + 1];
    }
  }

  lemma OverwriteTwice<K, V>(m: map<K, V>, k: K, v1: V, v2: V)
    ensures m[k := v1][k := v2] == m[k := v2]
  {}

  /** Two dicts with the same key at every position have the same keys and are
      sorted alike. */
  lemma SameKeys<V, W>(a: Dict<string, V>, b: Dict<string, W>)
    requires |a| == |b| && forall i :: 0 <= i < |a| ==> a[i].0 == b[i].0
    ensures KeySet(a) == KeySet(b)
    ensures SortedByKey(a) ==> SortedByKey(b)
  {
    forall k | k in KeySet(a) ensures k in KeySet(b) {
      var i :| 0 <= i < |a| && a[i].0 == k;
      assert b[i].0 == k;
    }
  }

  /** After d[k] = v the dict has key k. */
  lemma PutHasKey<K, V>(d: Dict<K, V>, k: K, v: V)
    requires UniqueKeys(d)
    ensures k in KeySet(Put(d, k, v))
  {
    var r := Put(d, k, v);
    if k in KeySet(d) {
      var i :| 0 <= i < |d| && d[i].0 == k;
      assert r[i].0 == k;
    } else {
      assert r[|d|].0 == k;
    }
  }

  /** Assigning a key twice leaves the dict as the second assignment alone does. */
  lemma PutTwice<K, V>(d: Dict<K, V>, k: K, v1: V, v2: V)
    requires UniqueKeys(d)
    ensures Put(Put(d, k, v1), k, v2) == Put(d, k, v2)
  {
    var once := Put(d, k, v1);
    PutHasKey(d, k, v1);
    var twice, direct := Put(once, k, v2), Put(d, k, v2);
    forall i | 0 <= i < |direct| ensures twice[i] == direct[i] {
      if i < |d| {
        assert once[i] == if d[i].0 == k then (k, v1) else d[i];
      }
    }
  }

  lemma UpdatesCommute<K, V>(m: map<K, V>, a: K, va: V, b: K, vb: V)
    requires a != b
    ensures m[a := va][b := vb] == m[b := vb][a := va]
  {}

  /** dict(pairs): the dict built by assigning the pairs in order, which is what
      json.load makes of a JSON object. */
  function FromPairs<K(==), V(==)>(ps: seq<(K, V)>): (r: Dict<K, V>)
    ensures UniqueKeys(r)
    ensures ToMap(r) == ToMap(ps)
  {
    if ps == [] then []
    else
      var n := |ps| - 1;
      Put(FromPairs(ps[..n]), ps[n].0, ps[n].1)
  }

  /** Pairs that already have distinct keys come back unchanged. */
  lemma {:induction false} FromUniquePairs<K, V>(ps: seq<(K, V)>)
    requires UniqueKeys(ps)
    ensures FromPairs(ps) == ps
    decreases |ps|
  {
    if ps != [] {
      var n := |ps| - 1;
      var front := ps[..n];
      assert UniqueKeys(front) by {
        forall i, j | 0 <= i < j < n ensures front[i].0 != front[j].0 {
          assert front[i] == ps[i] && front[j] == ps[j];
        }
      }
      FromUniquePairs(front);
      assert ps[n].0 !in KeySet(front) by {
        forall i | 0 <= i < n ensures front[i].0 != ps[n].0 {
          assert front[i] == ps[i];
        }
      }
      PutNew(front, ps[n].0, ps[n].1);
      assert ps == front + [ps[n]];
    }
  }

  /** Assigning a key the dict lacks appends it. */
  lemma PutNew<K, V>(d: Dict<K, V>, k: K, v: V)
    requires UniqueKeys(d) && k !in KeySet(d)
    ensures Put(d, k, v) == d + [(k, v)]
  {
    var r := Put(d, k, v);
    forall i | 0 <= i < |d| ensures r[i] == d[i] {
      assert d[i].0 in KeySet(d);
    }
  }

  /** With distinct keys, an item is in the list exactly when the mapping has it. */
  lemma InToMap<K, V>(d: Dict<K, V>, x: (K, V))
    requires UniqueKeys(d)
    ensures x in d <==> x.0 in ToMap(d) && ToMap(d)[x.0] == x.1
  {
    if x in d {
      var i :| 0 <= i < |d| && d[i] == x;
      ToMapAt(d, i);
    }
    if x.0 in ToMap(d) && ToMap(d)[x.0] == x.1 {
      var i :| 0 <= i < |d| && d[i].0 == x.0;
      ToMapAt(d, i);
      assert d[i] == x;
    }
  }

  // ---- canonical (sorted-key) order ----

  predicate SortedByKey<V(==)>(d: Dict<string, V>) {
    forall i, j :: 0 <= i < j < |d| ==> Below(d[i].0, d[j].0)
  }

  function Insert<V(==)>(x: (string, V), s: Dict<string, V>): (r: Dict<string, V>)
    requires SortedByKey(s)
    requires forall i :: 0 <= i < |s| ==> s[i].0 != x.0
    ensures SortedByKey(r)
    ensures multiset(r) == multiset(s) + multiset{x}
  {
    if s == [] then [x]
    else if Below(x.0, s[0].0) then
      BelowFirst(x.0, s);
      SortedCons(x, s);
      [x] + s
    else
      BelowTotal(x.0, s[0].0);
      var t := Insert(x, s[1..]);
      assert s == [s[0]] + s[1..];
      AllAbove(s[0].0, x, s[1..], t);
      SortedCons(s[0], t);
      [s[0]] + t
  }

  /** Putting an item whose key is below every key in front of a sorted dict
      keeps it sorted. */
  lemma SortedCons<V>(x: (string, V), s: Dict<string, V>)
    requires SortedByKey(s)
    requires forall j :: 0 <= j < |s| ==> Below(x.0, s[j].0)
    ensures SortedByKey([x] + s)
  {
    var r := [x] + s;
    forall i, j | 0 <= i < j < |r| ensures Below(r[i].0, r[j].0) {
      if i == 0 {
        assert r[j] == s[j - 1];
      } else {
        assert r[i] == s[i - 1] && r[j] == s[j - 1];
      }
    }
  }

  /** A key below the first key of a sorted dict is below all its keys. */
  lemma BelowFirst<V>(k: string, s: Dict<string, V>)
    requires SortedByKey(s) && s != [] && Below(k, s[0].0)
    ensures forall j :: 0 <= j < |s| ==> Below(k, s[j].0)
  {
    forall j | 0 < j < |s| ensures Below(k, s[j].0) {
      BelowTransitive(k, s[0].0, s[j].0);
    }
  }

  /** A key below x's key and below every key of s is below every key of a
      sequence holding the items of s and x. */
  lemma AllAbove<V>(y: string, x: (string, V), s: Dict<string, V>, t: Dict<string, V>)
    requires Below(y, x.0)
    requires forall i :: 0 <= i < |s| ==> Below(y, s[i].0)
    requires multiset(t) == multiset(s) + multiset{x}
    ensures forall j :: 0 <= j < |t| ==> Below(y, t[j].0)
  {
    forall j | 0 <= j < |t| ensures Below(y, t[j].0) {
      assert t[j] in multiset(t);
      if t[j] != x {
        assert t[j] in multiset(s);
        var k :| 0 <= k < |s| && s[k] == t[j];
      }
    }
  }

  /** The entries in the order json.dumps(..., sort_keys=True) writes them. */
  function SortByKey<V(==)>(d: Dict<string, V>): (r: Dict<string, V>)
    requires UniqueKeys(d)
    ensures SortedByKey(r)
    ensures multiset(r) == multiset(d)
  {
    if d == [] then []
    else
      var s := SortByKey(d[1..]);
      OtherKeys(d, s);
      assert d == [d[0]] + d[1..];
      Insert(d[0], s)
  }

  /** A rearrangement of the tail of a dict with distinct keys lacks its first key. */
  lemma OtherKeys<V>(d: Dict<string, V>, s: Dict<string, V>)
    requires UniqueKeys(d) && d != [] && multiset(s) == multiset(d[1..])
    ensures forall i :: 0 <= i < |s| ==> s[i].0 != d[0].0
  {
    forall i | 0 <= i < |s| ensures s[i].0 != d[0].0 {
      assert s[i] in multiset(d[1..]);
      var k :| 0 <= k < |d[1..]| && d[1..][k] == s[i];
      assert d[k + 1] == s[i];
    }
  }

  lemma SortedKeysUnique<V>(d: Dict<string, V>)
    requires SortedByKey(d)
    ensures UniqueKeys(d)
  {
    forall i, j | 0 <= i < j < |d| ensures d[i].0 != d[j].0 {
      BelowIrreflexive(d[i].0);
    }
  }

  /** Two key-sorted lists with the same items are the same list. */
  lemma {:induction false} SortedUnique<V>(a: Dict<string, V>, b: Dict<string, V>)
    requires SortedByKey(a) && SortedByKey(b)
    requires forall x :: x in a <==> x in b
    ensures a == b
    decreases |a|
  {
    if b != [] {
      assert b[0] in a;
    }
    if a != [] {
      SameHead(a, b);
      SameTail(a, b);
      assert SortedByKey(a[1..]) && SortedByKey(b[1..]);
      SortedUnique(a[1..], b[1..]);
      assert a == [a[0]] + a[1..] && b == [b[0]] + b[1..];
    }
  }

  /** Key-sorted lists with the same items start with the same item. */
  lemma SameHead<V>(a: Dict<string, V>, b: Dict<string, V>)
    requires SortedByKey(a) && SortedByKey(b) && a != []
    requires forall x :: x in a <==> x in b
    ensures b != [] && a[0] == b[0]
  {
    assert a[0] in b;
    var j :| 0 <= j < |b| && b[j] == a[0];
    assert b[0] in a;
    var i :| 0 <= i < |a| && a[i] == b[0];
    if i != 0 {
      assert Below(a[0].0, b[0].0);
      if j == 0 {
        BelowIrreflexive(a[0].0);
      } else {
        assert Below(b[0].0, a[0].0);
        BelowAsymmetric(a[0].0, b[0].0);
      }
      assert false;
    }
  }

  /** After a shared first item, key-sorted lists with the same items have tails
      with the same items. */
  lemma SameTail<V>(a: Dict<string, V>, b: Dict<string, V>)
    requires SortedByKey(a) && SortedByKey(b) && a != [] && b != [] && a[0] == b[0]
    requires forall x :: x in a <==> x in b
    ensures forall x :: x in a[1..] <==> x in b[1..]
  {
    BelowIrreflexive(a[0].0);
    forall x ensures x in a[1..] ==> x in b[1..] {
      if x in a[1..] {
        var k :| 1 <= k < |a| && a[k] == x;
        assert Below(a[0].0, x.0);
        assert x in b;
        var l :| 0 <= l < |b| && b[l] == x;
        assert l != 0;
      }
    }
    forall x ensures x in b[1..] ==> x in a[1..] {
      if x in b[1..] {
        var k :| 1 <= k < |b| && b[k] == x;
        assert Below(b[0].0, x.0);
        assert x in a;
        var l :| 0 <= l < |a| && a[l] == x;
        assert l != 0;
      }
    }
  }

  /** Dicts that hold the same items in any insertion order have the same
      canonical (sorted-key) form. */
  lemma CanonicalOrderIndependent<V>(d1: Dict<string, V>, d2: Dict<string, V>)
    requires UniqueKeys(d1) && UniqueKeys(d2)
    requires ToMap(d1) == ToMap(d2)
    ensures SortByKey(d1) == SortByKey(d2)
  {
    var s1, s2 := SortByKey(d1), SortByKey(d2);
    forall x ensures x in s1 <==> x in s2 {
      InToMap(d1, x);
      InToMap(d2, x);
      assert x in s1 <==> x in multiset(d1);
      assert x in s2 <==> x in multiset(d2);
    }
    SortedUnique(s1, s2);
  }

  /** The canonical form denotes the same mapping as the dict it sorts. */
  lemma SortByKeyToMap<V>(d: Dict<string, V>)
    requires UniqueKeys(d)
    ensures ToMap(SortByKey(d)) == ToMap(d)
  {
    var s := SortByKey(d);
    SortedKeysUnique(s);
    forall k | k in ToMap(s) ensures k in ToMap(d) && ToMap(d)[k] == ToMap(s)[k] {
      var i :| 0 <= i < |s| && s[i].0 == k;
      ToMapAt(s, i);
      assert s[i] in multiset(d);
      InToMap(d, s[i]);
    }
    forall k | k in ToMap(d) ensures k in ToMap(s) {
      var i :| 0 <= i < |d| && d[i].0 == k;
      assert d[i] in multiset(s);
      InToMap(s, d[i]);
    }
  }
}
