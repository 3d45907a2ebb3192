/**
 Python's `dict` and `OrderedDict`: entries in insertion order under distinct keys.
 Assigning to a present key keeps its position; a new key goes last.
 */
module OrderedDict {
  import opened Common

  datatype Item<K, V> = Item(key: K, value: V)
  type Dict<K, V> = seq<Item<K, V>>

  /** The position of `k`, or `|d|` when absent. */
  function IndexOf<K(==), V>(d: Dict<K, V>, k: K): (i: nat)
    ensures i <= |d|
    ensures i < |d| ==> d[i].key == k
    ensures forall j :: 0 <= j < i ==> d[j].key != k
  {
    if d == [] then 0
    else if d[0].key == k then 0
    else 1 + IndexOf(d[1..], k)
  }

  predicate Has<K(==), V>(d: Dict<K, V>, k: K) {
    IndexOf(d, k) < |d|
  }

  function Get<K(==), V>(d: Dict<K, V>, k: K): Option<V> {
    var i := IndexOf(d, k);
    if i < |d| then Some(d[i].value) else None
  }

  function Put<K(==), V>(d: Dict<K, V>, k: K, v: V): Dict<K, V> {
    var i := IndexOf(d, k);
    if i < |d| then d[i := Item(k, v)] else d + [Item(k, v)]
  }

  /** `d.pop(k, None)`. */
  function Remove<K(==), V>(d: Dict<K, V>, k: K): Dict<K, V> {
    var i := IndexOf(d, k);
    if i < |d| then d[..i] + d[i + 1..] else d
  }

  ghost predicate Distinct<K, V>(d: Dict<K, V>) {
    forall i, j :: 0 <= i < j < |d| ==> d[i].key != d[j].key
  }

  /** In a well-formed dictionary the entry at position `i` is what a lookup finds. */
  lemma GetAt<K, V>(d: Dict<K, V>, i: nat)
    requires Distinct(d) && i < |d|
    ensures IndexOf(d, d[i].key) == i
    ensures Get(d, d[i].key) == Some(d[i].value)
  {
  }

  lemma PutDistinct<K, V>(d: Dict<K, V>, k: K, v: V)
    requires Distinct(d)
    ensures Distinct(Put(d, k, v))
  {
  }

  lemma GetEntry<K, V>(d: Dict<K, V>, x: Item<K, V>)
    requires Distinct(d) && x in d
    ensures Has(d, x.key) && Get(d, x.key) == Some(x.value)
  {
    var i :| 0 <= i < |d| && d[i] == x;
    GetAt(d, i);
  }

  lemma NotHas<K, V>(d: Dict<K, V>, k: K)
    requires forall x :: x in d ==> x.key != k
    ensures !Has(d, k)
  {
    assert forall i :: 0 <= i < |d| ==> d[i] in d;
  }

  lemma RemoveDistinct<K, V>(d: Dict<K, V>, k: K)
    requires Distinct(d)
    ensures Distinct(Remove(d, k))
  {
  }

  /** Removal takes out the entry of `k` and nothing else. */
  lemma RemoveEntry<K, V>(d: Dict<K, V>, k: K)
    requires Distinct(d)
    ensures forall x :: x in Remove(d, k) <==> x in d && x.key != k
    ensures |Remove(d, k)| == if Has(d, k) then |d| - 1 else |d|
  {
    var i, r := IndexOf(d, k), Remove(d, k);
    if i < |d| {
      assert d == d[..i] + [d[i]] + d[i + 1..];
    }
  }

  lemma PutEntry<K, V>(d: Dict<K, V>, k: K, v: V)
    requires Distinct(d)
    ensures forall x :: x in Put(d, k, v) <==> (x in d && x.key != k) || x == Item(k, v)
  {
    var i, r := IndexOf(d, k), Put(d, k, v);
    if i < |d| {
      assert r[i] == Item(k, v);
      forall x | x in d && x.key != k ensures x in r {
        var j :| 0 <= j < |d| && d[j] == x;
        assert r[j] == x;
      }
    }
  }

  /** A lookup depends only on which entries are there, not on where they are. */
  lemma GetByContent<K, V>(d: Dict<K, V>, e: Dict<K, V>, k: K)
    requires Distinct(d) && Distinct(e)
    requires forall x :: x in d && x.key == k ==> x in e
    requires forall x :: x in e && x.key == k ==> x in d
    ensures Get(d, k) == Get(e, k)
  {
    var i, j := IndexOf(d, k), IndexOf(e, k);
    if i < |d| {
      assert d[i] in d;
      GetEntry(e, d[i]);
    } else if j < |e| {
      assert e[j] in e;
      GetEntry(d, e[j]);
    }
  }

  lemma GetPut<K, V>(d: Dict<K, V>, k: K, v: V, q: K)
    requires Distinct(d)
    ensures Get(Put(d, k, v), q) == if q == k then Some(v) else Get(d, q)
  {
    PutDistinct(d, k, v);
    PutEntry(d, k, v);
    if q == k {
      GetEntry(Put(d, k, v), Item(k, v));
    } else {
      GetByContent(d, Put(d, k, v), q);
    }
  }

  /** Assigning to a present key keeps every place; a new key goes last. */
  lemma PutKeepsPlaces<K, V>(d: Dict<K, V>, k: K, v: V)
    requires Distinct(d)
    ensures Has(d, k) ==> |Put(d, k, v)| == |d| && forall i :: 0 <= i < |d| ==> Put(d, k, v)[i].key == d[i].key
    ensures !Has(d, k) ==> Put(d, k, v) == d + [Item(k, v)]
  {
  }

  lemma GetRemove<K, V>(d: Dict<K, V>, k: K, q: K)
    requires Distinct(d)
    ensures Get(Remove(d, k), q) == if q == k then None else Get(d, q)
  {
    RemoveDistinct(d, k);
    RemoveEntry(d, k);
    if q == k {
      NotHas(Remove(d, k), k);
    } else {
      GetByContent(d, Remove(d, k), q);
    }
  }
}
