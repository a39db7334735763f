/** Python's `dict`, which remembers insertion order, as a sequence of key/value pairs.
    `Put` is `{**d, **{k: v}}`: an existing key keeps its place, a new key goes last. */
module Dict {
  import opened Wrappers
  import Seqs

  type Dict<K, V> = seq<(K, V)>

  function Keys<K(==,!new), V(!new)>(d: Dict<K, V>): set<K>
  {
    set i | 0 <= i < |d| :: d[i].0
  }

  /** No key occurs twice, as in every Python dict. */
  ghost predicate DistinctKeys<K(!new), V(!new)>(d: Dict<K, V>)
  {
    forall i, j :: 0 <= i < j < |d| ==> d[i].0 != d[j].0
  }

  lemma KeysCons<K(!new), V(!new)>(e: (K, V), d: Dict<K, V>)
    ensures Keys([e] + d) == {e.0} + Keys(d)
  {
    var c := [e] + d;
    forall x | x in Keys(c) ensures x in {e.0} + Keys(d) {
      var i :| 0 <= i < |c| && c[i].0 == x;
      if i > 0 { assert d[i - 1].0 == x; }
    }
    forall x | x in Keys(d) ensures x in Keys(c) {
      var i :| 0 <= i < |d| && d[i].0 == x;
      assert c[i + 1].0 == x;
    }
    assert c[0].0 == e.0;
  }

  /** `d.get(k, None)` */
  function Get<K(==,!new), V(!new)>(d: Dict<K, V>, k: K): (r: Option<V>)
    ensures r.Some? <==> k in Keys(d)
    ensures r.Some? ==> (k, r.value) in d
  {
    if d == [] then None
    else if d[0].0 == k then Some(d[0].1)
    else
      KeysCons(d[0], d[1..]);
      Get(d[1..], k)
  }

  /** `{**d, **{k: v}}` */
  function Put<K(==,!new), V(!new)>(d: Dict<K, V>, k: K, v: V): (r: Dict<K, V>)
    ensures Keys(r) == Keys(d) + {k}
    ensures DistinctKeys(d) ==> DistinctKeys(r)
    ensures forall e :: e in r ==> e in d || e == (k, v)
  {
    if d == [] then
      KeysCons((k, v), d);
      [(k, v)]
    else if d[0].0 == k then
      assert d == [d[0]] + d[1..];
      KeysCons(d[0], d[1..]);
      KeysCons((k, v), d[1..]);
      DistinctCons(d[0], d[1..]);
      DistinctCons((k, v), d[1..]);
      [(k, v)] + d[1..]
    else
      var rest := Put(d[1..], k, v);
      assert d == [d[0]] + d[1..];
      KeysCons(d[0], d[1..]);
      KeysCons(d[0], rest);
      DistinctCons(d[0], d[1..]);
      DistinctCons(d[0], rest);
      [d[0]] + rest
  }

  /** A dict with a first entry has distinct keys when the rest has and does not
      repeat the first key. */
  lemma DistinctCons<K(!new), V(!new)>(e: (K, V), d: Dict<K, V>)
    ensures DistinctKeys([e] + d) <==> e.0 !in Keys(d) && DistinctKeys(d)
  {
    var c := [e] + d;
    assert forall i :: 0 <= i < |d| ==> c[i + 1] == d[i];
    if DistinctKeys(c) {
      assert forall j :: 1 <= j < |c| ==> c[0].0 != c[j].0;
    }
  }

  /** `list(d.values())` */
  function Values<K(==,!new), V(!new)>(d: Dict<K, V>): seq<V>
  {
    seq(|d|, i requires 0 <= i < |d| => d[i].1)
  }

  /** A test on keys and values as a test on entries. */
  function OnEntry<K, V>(keep: (K, V) -> bool): ((K, V)) -> bool
  {
    (e: (K, V)) => keep(e.0, e.1)
  }

  /** `{k: v for k, v in d.items() if keep(k, v)}` */
  function KeepIf<K(==,!new), V(!new)>(d: Dict<K, V>, keep: (K, V) -> bool): Dict<K, V>
  {
    Seqs.Filter(d, OnEntry(keep))
  }

  lemma KeepIfSnoc<K(!new), V(!new)>(d: Dict<K, V>, e: (K, V), keep: (K, V) -> bool)
    ensures KeepIf(d + [e], keep) == KeepIf(d, keep) + (if keep(e.0, e.1) then [e] else [])
  {
    Seqs.FilterSnoc(d, e, OnEntry(keep));
  }

  lemma KeepIfSame<K(!new), V(!new)>(d: Dict<K, V>, f: (K, V) -> bool, g: (K, V) -> bool)
    requires forall i :: 0 <= i < |d| ==> f(d[i].0, d[i].1) == g(d[i].0, d[i].1)
    ensures KeepIf(d, f) == KeepIf(d, g)
  {
    Seqs.FilterSame(d, OnEntry(f), OnEntry(g));
  }

  lemma KeepIfAll<K(!new), V(!new)>(d: Dict<K, V>, keep: (K, V) -> bool)
    requires forall i :: 0 <= i < |d| ==> keep(d[i].0, d[i].1)
    ensures KeepIf(d, keep) == d
  {
    Seqs.FilterAll(d, OnEntry(keep));
  }

  /** The values of a dict grown by one entry. */
  lemma ValuesSnoc<K(!new), V(!new)>(d: Dict<K, V>, e: (K, V))
    ensures Values(d + [e]) == Values(d) + [e.1]
  {
  }

  /** Looking up the key just put gives the new value; every other key is untouched. */
  lemma {:induction false} GetPut<K(!new), V(!new)>(d: Dict<K, V>, k: K, v: V, k': K)
    ensures Get(Put(d, k, v), k') == if k' == k then Some(v) else Get(d, k')
  {
    if d != [] && d[0].0 != k {
      GetPut(d[1..], k, v, k');
    }
  }

  /** In a dict, lookup finds the value paired with a key wherever it stands. */
  lemma GetMember<K(!new), V(!new)>(d: Dict<K, V>, k: K, v: V)
    requires DistinctKeys(d)
    requires (k, v) in d
    ensures Get(d, k) == Some(v)
  {
    var i :| 0 <= i < |d| && d[i] == (k, v);
    var w := Get(d, k).value;
    var j :| 0 <= j < |d| && d[j] == (k, w);
    assert i == j;
  }

  /** Dropping entries keeps the keys distinct. */
  lemma KeepIfDistinct<K(!new), V(!new)>(d: Dict<K, V>, keep: (K, V) -> bool)
    requires DistinctKeys(d)
    ensures DistinctKeys(KeepIf(d, keep))
  {
    var r := KeepIf(d, keep);
    forall i, j | 0 <= i < j < |r| ensures r[i].0 != r[j].0 {
      KeepIfInjective(d, OnEntry(keep), i, j);
    }
  }

  lemma {:induction false} KeepIfInjective<K(!new), V(!new)>(d: Dict<K, V>, f: ((K, V)) -> bool, i: int, j: int)
    requires DistinctKeys(d)
    requires 0 <= i < j < |Seqs.Filter(d, f)|
    ensures Seqs.Filter(d, f)[i].0 != Seqs.Filter(d, f)[j].0
  {
    var rest := Seqs.Filter(d[1..], f);
    assert d == [d[0]] + d[1..];
    assert DistinctKeys(d[1..]) by {
      forall a, b | 0 <= a < b < |d[1..]| ensures d[1..][a].0 != d[1..][b].0 {
        assert d[1..][a] == d[a + 1] && d[1..][b] == d[b + 1];
      }
    }
    if f(d[0]) {
      if i == 0 {
        assert Seqs.Filter(d, f)[j] == rest[j - 1];
        assert rest[j - 1] in d[1..];
        var m :| 0 <= m < |d[1..]| && d[1..][m] == rest[j - 1];
        assert d[m + 1] == rest[j - 1];
      } else {
        KeepIfInjective(d[1..], f, i - 1, j - 1);
      }
    } else {
      KeepIfInjective(d[1..], f, i, j);
    }
  }

  /** In a dict, the filtered dict holds a key exactly when the original held it
      with a value that passes the test, and holds it with the same value. */
  lemma GetKeepIf<K(!new), V(!new)>(d: Dict<K, V>, keep: (K, V) -> bool, k: K)
    requires DistinctKeys(d)
    ensures Get(KeepIf(d, keep), k) ==
            if Get(d, k).Some? && keep(k, Get(d, k).value) then Get(d, k) else None
  {
    var r := KeepIf(d, keep);
    KeepIfDistinct(d, keep);
    match Get(r, k)
    case Some(v) =>
      assert (k, v) in d && keep(k, v);
      GetMember(d, k, v);
    case None =>
  }

  /** In a dict, `Put` overwrites an existing key where it stands and appends a new one. */
  lemma {:induction false} PutInPlace<K(!new), V(!new)>(d: Dict<K, V>, k: K, v: V)
    requires DistinctKeys(d)
    ensures k !in Keys(d) ==> Put(d, k, v) == d + [(k, v)]
    ensures k in Keys(d) ==> |Put(d, k, v)| == |d|
    ensures k in Keys(d) ==> forall i :: 0 <= i < |d| ==> Put(d, k, v)[i] == if d[i].0 == k then (k, v) else d[i]
  {
    if d != [] {
      assert d == [d[0]] + d[1..];
      KeysCons(d[0], d[1..]);
      DistinctKeysTail(d);
      if d[0].0 == k {
        assert forall i :: 1 <= i < |d| ==> d[0].0 != d[i].0;
      } else {
        PutInPlace(d[1..], k, v);
      }
    }
  }

  lemma DistinctKeysTail<K(!new), V(!new)>(d: Dict<K, V>)
    requires DistinctKeys(d) && d != []
    ensures DistinctKeys(d[1..])
  {
    forall a, b | 0 <= a < b < |d[1..]| ensures d[1..][a].0 != d[1..][b].0 {
      assert d[1..][a] == d[a + 1] && d[1..][b] == d[b + 1];
    }
  }

  /** The values listed are exactly the values stored under some key. */
  lemma ValuesMember<K(!new), V(!new)>(d: Dict<K, V>, x: V)
    ensures x in Values(d) <==> exists k :: (k, x) in d
  {
    if x in Values(d) {
      var i :| 0 <= i < |d| && Values(d)[i] == x;
      assert (d[i].0, x) == d[i];
    }
    if exists k :: (k, x) in d {
      var k :| (k, x) in d;
      var i :| 0 <= i < |d| && d[i] == (k, x);
      assert Values(d)[i] == x;
    }
  }
}
