/**
 * An ECMAScript `Map` (section 24.1 of ECMA-262) as the list of its entries in
 * insertion order. `set` on a key already present overwrites the value where
 * the key stands; a new key is appended. Keys are compared by value.
 */
module JsMap {
  import opened Wrappers

  /** Index of the first entry whose key is `k`. */
  function IndexOfKey<K(==), V>(es: seq<(K, V)>, k: K): (r: Option<nat>)
    ensures r.Some? ==> r.value < |es| && es[r.value].0 == k
    ensures r.Some? ==> forall j :: 0 <= j < r.value ==> es[j].0 != k
    ensures r.None? <==> forall j :: 0 <= j < |es| ==> es[j].0 != k
  {
    if |es| == 0 then None
    else if es[0].0 == k then Some(0)
    else match IndexOfKey(es[1..], k)
      case None => None
      case Some(i) => Some(i + 1)
  }

  /** Value of the last entry whose key is `k`. */
  function LastValue<K(==), V>(es: seq<(K, V)>, k: K): (r: Option<V>)
    ensures r.None? <==> forall j :: 0 <= j < |es| ==> es[j].0 != k
    ensures r.Some? ==> exists j :: 0 <= j < |es| && es[j] == (k, r.value) && forall j' :: j < j' < |es| ==> es[j'].0 != k
  {
    if |es| == 0 then None
    else if es[|es| - 1].0 == k then Some(es[|es| - 1].1)
    else LastValue(es[..|es| - 1], k)
  }

  /** `m.set(k, v)`. */
  function Set<K(==), V>(m: seq<(K, V)>, k: K, v: V): seq<(K, V)>
  {
    match IndexOfKey(m, k)
    case Some(i) => m[i := (k, v)]
    case None => m + [(k, v)]
  }

  /** `new Map(es)`: an empty map, then `set` for each entry in turn. */
  function FromEntries<K(==), V>(es: seq<(K, V)>): seq<(K, V)>
  {
    if |es| == 0 then []
    else
      var n := |es| - 1;
      Set(FromEntries(es[..n]), es[n].0, es[n].1)
  }

  /** `Array.from(m.values())`. */
  function Values<K, V>(m: seq<(K, V)>): (r: seq<V>)
    ensures |r| == |m| && forall i :: 0 <= i < |m| ==> r[i] == m[i].1
  {
    seq(|m|, i requires 0 <= i < |m| => m[i].1)
  }

  /** No key stands in two entries. */
  predicate DistinctKeys<K(==), V>(m: seq<(K, V)>)
  {
    forall i, j :: 0 <= i < j < |m| ==> m[i].0 != m[j].0
  }

  /** The set of keys of a list of entries. */
  function KeySet<K, V>(es: seq<(K, V)>): set<K>
  {
    set i | 0 <= i < |es| :: es[i].0
  }

  /** Looking a key up after appending one entry. */
  lemma {:induction false} IndexOfKeySnoc<K, V>(p: seq<(K, V)>, e: (K, V), x: K)
    ensures IndexOfKey(p + [e], x) ==
      match IndexOfKey(p, x)
      case Some(i) => Some(i)
      case None => if e.0 == x then Some(|p|) else None
  {
    if |p| > 0 && p[0].0 != x {
      assert (p + [e])[1..] == p[1..] + [e];
      IndexOfKeySnoc(p[1..], e, x);
    }
  }

  /** `m` and `es` have the same keys. */
  ghost predicate SameKeys<K, V>(m: seq<(K, V)>, es: seq<(K, V)>)
  {
    && (forall i {:trigger IndexOfKey(es, m[i].0)} :: 0 <= i < |m| ==> IndexOfKey(es, m[i].0).Some?)
    && (forall j {:trigger IndexOfKey(m, es[j].0)} :: 0 <= j < |es| ==> IndexOfKey(m, es[j].0).Some?)
  }

  /** Each entry of `m` holds the value of the last entry of `es` with its key. */
  ghost predicate LastWriteWins<K, V>(m: seq<(K, V)>, es: seq<(K, V)>)
  {
    forall i {:trigger LastValue(es, m[i].0)} :: 0 <= i < |m| ==> LastValue(es, m[i].0) == Some(m[i].1)
  }

  /** The keys of `m` stand in the order of their first entries in `es`. */
  ghost predicate FirstInsertionOrder<K, V>(m: seq<(K, V)>, es: seq<(K, V)>)
  {
    forall i, j {:trigger IndexOfKey(es, m[i].0), IndexOfKey(es, m[j].0)} :: 0 <= i < j < |m| ==>
      && IndexOfKey(es, m[i].0).Some? && IndexOfKey(es, m[j].0).Some?
      && IndexOfKey(es, m[i].0).value < IndexOfKey(es, m[j].0).value
  }

  /**
   * `m` is what a Map built from `es` must hold, stated without reference to
   * how it is built: every key once; the keys of `es` and no others; each key
   * in the order of its first entry; each key with the value of its last entry.
   */
  ghost predicate Describes<K, V>(m: seq<(K, V)>, es: seq<(K, V)>)
  {
    DistinctKeys(m) && SameKeys(m, es) && LastWriteWins(m, es) && FirstInsertionOrder(m, es)
  }

  /** Looking a key up in the last-write sense after appending one entry. */
  lemma LastValueSnoc<K, V>(p: seq<(K, V)>, e: (K, V), x: K)
    ensures LastValue(p + [e], x) == if e.0 == x then Some(e.1) else LastValue(p, x)
  {
    assert (p + [e])[..|p|] == p;
  }

  /** Overwriting the value of an entry moves no key. */
  lemma {:induction false} IndexOfKeyUpdate<K, V>(m: seq<(K, V)>, idx: nat, v: V, x: K)
    requires idx < |m|
    ensures IndexOfKey(m[idx := (m[idx].0, v)], x) == IndexOfKey(m, x)
  {
    if idx > 0 && m[0].0 != x {
      assert m[idx := (m[idx].0, v)][1..] == m[1..][idx - 1 := (m[idx].0, v)];
      IndexOfKeyUpdate(m[1..], idx - 1, v, x);
    }
  }

  /** `set` on a key already present: keys unchanged. */
  lemma SetPresentKeys<K, V>(p: seq<(K, V)>, m0: seq<(K, V)>, k: K, v: V, idx: nat)
    requires Describes(m0, p)
    requires IndexOfKey(m0, k) == Some(idx)
    ensures DistinctKeys(m0[idx := (k, v)])
    ensures SameKeys(m0[idx := (k, v)], p + [(k, v)])
  {
    var es, m := p + [(k, v)], m0[idx := (k, v)];
    assert forall i :: 0 <= i < |m| ==> m[i].0 == m0[i].0;
    forall i | 0 <= i < |m0| ensures IndexOfKey(es, m0[i].0).Some? {
      IndexOfKeySnoc(p, (k, v), m0[i].0);
    }
    forall j | 0 <= j < |es| ensures IndexOfKey(m, es[j].0).Some? {
      IndexOfKeyUpdate(m0, idx, v, es[j].0);
      if j < |p| {
        assert es[j] == p[j];
      }
    }
  }

  /** `set` on a key already present: its value is the new one, the order unchanged. */
  lemma SetPresentValues<K, V>(p: seq<(K, V)>, m0: seq<(K, V)>, k: K, v: V, idx: nat)
    requires Describes(m0, p)
    requires IndexOfKey(m0, k) == Some(idx)
    ensures LastWriteWins(m0[idx := (k, v)], p + [(k, v)])
    ensures FirstInsertionOrder(m0[idx := (k, v)], p + [(k, v)])
  {
    var es, m := p + [(k, v)], m0[idx := (k, v)];
    forall i | 0 <= i < |m0|
      ensures m[i].0 == m0[i].0
      ensures IndexOfKey(es, m0[i].0) == IndexOfKey(p, m0[i].0)
      ensures LastValue(es, m[i].0) == Some(m[i].1)
    {
      IndexOfKeySnoc(p, (k, v), m0[i].0);
      LastValueSnoc(p, (k, v), m0[i].0);
    }
  }

  /** `set` on a new key: no key repeated. */
  lemma SetAbsentDistinct<K, V>(m0: seq<(K, V)>, k: K, v: V)
    requires DistinctKeys(m0)
    requires IndexOfKey(m0, k).None?
    ensures DistinctKeys(m0 + [(k, v)])
  {
    var m := m0 + [(k, v)];
    forall i, j | 0 <= i < j < |m| ensures m[i].0 != m[j].0 {
      assert m[i] == m0[i];
      if j < |m0| {
        assert m[j] == m0[j];
      }
    }
  }

  /** `set` on a new key: the keys of the entries, the new one included. */
  lemma SetAbsentKeys<K, V>(p: seq<(K, V)>, m0: seq<(K, V)>, k: K, v: V)
    requires Describes(m0, p)
    requires IndexOfKey(m0, k).None?
    ensures SameKeys(m0 + [(k, v)], p + [(k, v)])
  {
    var es, m := p + [(k, v)], m0 + [(k, v)];
    IndexOfKeySnoc(p, (k, v), k);
    forall i | 0 <= i < |m| ensures IndexOfKey(es, m[i].0).Some? {
      if i < |m0| {
        assert m[i] == m0[i];
        IndexOfKeySnoc(p, (k, v), m0[i].0);
      }
    }
    forall j | 0 <= j < |es| ensures IndexOfKey(m, es[j].0).Some? {
      IndexOfKeySnoc(m0, (k, v), es[j].0);
      if j < |p| {
        assert es[j] == p[j];
      }
    }
  }

  /** `set` on a new key: appended with its value, earlier values unchanged. */
  lemma SetAbsentValues<K, V>(p: seq<(K, V)>, m0: seq<(K, V)>, k: K, v: V)
    requires Describes(m0, p)
    requires IndexOfKey(m0, k).None?
    ensures LastWriteWins(m0 + [(k, v)], p + [(k, v)])
  {
    var es, m := p + [(k, v)], m0 + [(k, v)];
    LastValueSnoc(p, (k, v), k);
    forall i | 0 <= i < |m| ensures LastValue(es, m[i].0) == Some(m[i].1) {
      if i < |m0| {
        assert m[i] == m0[i];
        assert m0[i].0 != k;
        LastValueSnoc(p, (k, v), m0[i].0);
      }
    }
  }

  /** `set` on a new key: it comes after every earlier key. */
  lemma SetAbsentOrder<K, V>(p: seq<(K, V)>, m0: seq<(K, V)>, k: K, v: V)
    requires Describes(m0, p)
    requires IndexOfKey(m0, k).None?
    ensures FirstInsertionOrder(m0 + [(k, v)], p + [(k, v)])
  {
    SetAbsentKeys(p, m0, k, v);
    var es, m := p + [(k, v)], m0 + [(k, v)];
    assert IndexOfKey(p, k).None?;
    IndexOfKeySnoc(p, (k, v), k);
    forall i, j | 0 <= i < j < |m|
      ensures IndexOfKey(es, m[i].0).Some? && IndexOfKey(es, m[j].0).Some?
      ensures IndexOfKey(es, m[i].0).value < IndexOfKey(es, m[j].0).value
    {
      assert m[i] == m0[i];
      assert IndexOfKey(p, m0[i].0).Some?;
      IndexOfKeySnoc(p, (k, v), m0[i].0);
      if j < |m0| {
        assert m[j] == m0[j];
        IndexOfKeySnoc(p, (k, v), m0[j].0);
      } else {
        assert m[j] == (k, v);
      }
    }
  }

  /** `new Map(es)` holds exactly what `Describes` says. */
  lemma {:induction false} FromEntriesSpec<K, V>(es: seq<(K, V)>)
    ensures Describes(FromEntries(es), es)
  {
    if |es| > 0 {
      var n := |es| - 1;
      var p, k, v := es[..n], es[n].0, es[n].1;
      assert es == p + [(k, v)];
      FromEntriesSpec(p);
      var m0 := FromEntries(p);
      match IndexOfKey(m0, k)
      case Some(idx) =>
        SetPresentKeys(p, m0, k, v, idx);
        SetPresentValues(p, m0, k, v, idx);
      case None =>
        SetAbsentDistinct(m0, k, v);
        SetAbsentKeys(p, m0, k, v);
        SetAbsentValues(p, m0, k, v);
        SetAbsentOrder(p, m0, k, v);
    }
  }

  /** A list of entries with distinct keys has as many entries as keys. */
  lemma {:induction false} DistinctKeysCount<K, V>(m: seq<(K, V)>)
    requires DistinctKeys(m)
    ensures |KeySet(m)| == |m|
  {
    if |m| > 0 {
      var n := |m| - 1;
      DistinctKeysCount(m[..n]);
      assert KeySet(m) == KeySet(m[..n]) + {m[n].0};
      assert m[n].0 !in KeySet(m[..n]);
    }
  }

  /** `new Map(es)` has one entry per distinct key of `es`. */
  lemma FromEntriesSize<K, V>(es: seq<(K, V)>)
    ensures |FromEntries(es)| == |KeySet(es)|
  {
    var m := FromEntries(es);
    FromEntriesSpec(es);
    forall k ensures k in KeySet(m) <==> k in KeySet(es) {
      if k in KeySet(m) {
        var i :| 0 <= i < |m| && m[i].0 == k;
        var j := IndexOfKey(es, m[i].0).value;
        assert es[j].0 == k;
      }
      if k in KeySet(es) {
        var i :| 0 <= i < |es| && es[i].0 == k;
        var j := IndexOfKey(m, es[i].0).value;
        assert m[j].0 == k;
      }
    }
    assert KeySet(m) == KeySet(es);
    DistinctKeysCount(m);
  }
}
