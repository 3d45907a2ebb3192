/**
 `_TTLCache`: lazily expiring, evicting the oldest when it outgrows 1.5 times its size.
 `time.monotonic()` is a parameter of every operation that reads it.
 */
module TtlCache {
  import opened Common
  import opened Identifiers
  import opened OrderedDict

  /** A tuple key: its first component, which `invalidate` looks at, and the others. */
  datatype Field = Text(text: string) | Number(n: int) | Id(id: Uuid) | Absent
  datatype Key = Key(head: string, rest: seq<Field>)

  /** The results that are cached: a permission check's, or a lookup of accessible resources. */
  datatype Value = Allowed(allowed: bool) | Accessible(ids: seq<Uuid>, fullAccess: bool)

  datatype Stamped = Stamped(ts: real, value: Value)
  type Store = Dict<Key, Stamped>

  predicate Expired(x: Item<Key, Stamped>, now: real, ttl: real) {
    now - x.value.ts > ttl
  }

  /** `int(maxsize * 1.5)`, which truncates toward zero. */
  function Threshold(maxsize: int): int {
    if maxsize >= 0 then 3 * maxsize / 2 else -(-3 * maxsize / 2)
  }

  // ---- Deleting a list of keys ----

  function DeleteAll<K(==), V>(d: Dict<K, V>, ks: seq<K>): Dict<K, V> {
    if ks == [] then d else Remove(DeleteAll(d, ks[..|ks| - 1]), ks[|ks| - 1])
  }

  /** The keys of the entries that satisfy `p`, in order. */
  function KeysWhere<K(!new), V>(d: Dict<K, V>, p: Item<K, V> -> bool): (r: seq<K>)
    ensures forall k :: k in r <==> exists i :: 0 <= i < |d| && d[i].key == k && p(d[i])
    ensures |r| <= |d|
  {
    if d == [] then []
    else
      var rest := KeysWhere(d[..|d| - 1], p);
      if p(d[|d| - 1]) then rest + [d[|d| - 1].key] else rest
  }

  lemma {:induction false} KeysWhereDistinct<K(!new), V>(d: Dict<K, V>, p: Item<K, V> -> bool)
    requires Distinct(d)
    ensures forall i, j :: 0 <= i < j < |KeysWhere(d, p)| ==> KeysWhere(d, p)[i] != KeysWhere(d, p)[j]
  {
    if d != [] {
      var rest := d[..|d| - 1];
      KeysWhereDistinct(rest, p);
      forall i | 0 <= i < |KeysWhere(rest, p)| ensures KeysWhere(rest, p)[i] != d[|d| - 1].key {
        assert KeysWhere(rest, p)[i] in KeysWhere(rest, p);
      }
    }
  }

  /** Removing an entry does not reorder the others. */
  lemma RemoveKeepsOrder<K, V>(d: Dict<K, V>, k: K, a: K, b: K)
    requires Distinct(d) && Has(Remove(d, k), a) && Has(Remove(d, k), b)
    requires IndexOf(Remove(d, k), a) < IndexOf(Remove(d, k), b)
    ensures IndexOf(d, a) < IndexOf(d, b)
  {
    var i, r := IndexOf(d, k), Remove(d, k);
    if i < |d| {
      var p, q := IndexOf(r, a), IndexOf(r, b);
      GetAt(d, if p < i then p else p + 1);
      GetAt(d, if q < i then q else q + 1);
    }
  }

  lemma {:induction false} DeleteAllEntries<K, V>(d: Dict<K, V>, ks: seq<K>)
    requires Distinct(d)
    ensures Distinct(DeleteAll(d, ks))
    ensures forall x :: x in DeleteAll(d, ks) <==> x in d && x.key !in ks
  {
    if ks != [] {
      DeleteAllEntries(d, ks[..|ks| - 1]);
      RemoveDistinct(DeleteAll(d, ks[..|ks| - 1]), ks[|ks| - 1]);
      RemoveEntry(DeleteAll(d, ks[..|ks| - 1]), ks[|ks| - 1]);
      assert forall k :: k in ks <==> k in ks[..|ks| - 1] || k == ks[|ks| - 1];
    }
  }

  lemma {:induction false} DeleteAllSize<K, V>(d: Dict<K, V>, ks: seq<K>)
    requires Distinct(d)
    requires forall i, j :: 0 <= i < j < |ks| ==> ks[i] != ks[j]
    requires forall k :: k in ks ==> Has(d, k)
    ensures |DeleteAll(d, ks)| == |d| - |ks|
  {
    if ks != [] {
      var some, k := ks[..|ks| - 1], ks[|ks| - 1];
      DeleteAllSize(d, some);
      DeleteAllEntries(d, some);
      assert k in ks;
      assert d[IndexOf(d, k)] in DeleteAll(d, some);
      GetEntry(DeleteAll(d, some), d[IndexOf(d, k)]);
      RemoveEntry(DeleteAll(d, some), k);
    }
  }

  lemma {:induction false} DeleteAllKeepsOrder<K, V>(d: Dict<K, V>, ks: seq<K>, a: K, b: K)
    requires Distinct(d) && Has(DeleteAll(d, ks), a) && Has(DeleteAll(d, ks), b)
    requires IndexOf(DeleteAll(d, ks), a) < IndexOf(DeleteAll(d, ks), b)
    ensures Has(d, a) && Has(d, b) && IndexOf(d, a) < IndexOf(d, b)
  {
    if ks != [] {
      var e, k := DeleteAll(d, ks[..|ks| - 1]), ks[|ks| - 1];
      DeleteAllEntries(d, ks[..|ks| - 1]);
      GetRemove(e, k, a);
      GetRemove(e, k, b);
      RemoveKeepsOrder(e, k, a, b);
      DeleteAllKeepsOrder(d, ks[..|ks| - 1], a, b);
    }
  }

  // ---- Sorting by timestamp, stably ----

  /** Where `x` goes: after everything that is not newer. */
  function Slot(s: Store, x: Item<Key, Stamped>): (p: nat)
    ensures p <= |s|
    ensures forall i :: p <= i < |s| ==> s[i].value.ts > x.value.ts
    ensures p > 0 ==> s[p - 1].value.ts <= x.value.ts
  {
    if s == [] then 0
    else if s[|s| - 1].value.ts <= x.value.ts then |s|
    else Slot(s[..|s| - 1], x)
  }

  function Insert(s: Store, x: Item<Key, Stamped>): Store {
    s[..Slot(s, x)] + [x] + s[Slot(s, x)..]
  }

  /** Python's `sorted(..., key=timestamp)`. */
  function StableSort(d: Store): Store {
    if d == [] then [] else Insert(StableSort(d[..|d| - 1]), d[|d| - 1])
  }

  ghost predicate ByTime(s: Store) {
    forall i, j :: 0 <= i < j < |s| ==> s[i].value.ts <= s[j].value.ts
  }

  lemma InsertEntries(s: Store, x: Item<Key, Stamped>)
    ensures forall y :: y in Insert(s, x) <==> y in s || y == x
  {
    var p := Slot(s, x);
    assert s == s[..p] + s[p..];
  }

  lemma InsertByTime(s: Store, x: Item<Key, Stamped>)
    requires ByTime(s)
    ensures ByTime(Insert(s, x))
  {
    var p := Slot(s, x);
    forall i | 0 <= i < p ensures s[i].value.ts <= x.value.ts {
      assert s[i].value.ts <= s[p - 1].value.ts;
    }
  }

  lemma InsertDistinct(s: Store, x: Item<Key, Stamped>)
    requires Distinct(s) && !Has(s, x.key)
    ensures Distinct(Insert(s, x))
  {
    hide Slot;
    assert forall i :: 0 <= i < |s| ==> s[i].key != x.key;
  }

  lemma InsertSpec(s: Store, x: Item<Key, Stamped>)
    requires ByTime(s) && Distinct(s) && !Has(s, x.key)
    ensures ByTime(Insert(s, x)) && Distinct(Insert(s, x))
  {
    InsertByTime(s, x);
    InsertDistinct(s, x);
  }

  lemma InsertPositions(s: Store, x: Item<Key, Stamped>, k: Key)
    requires ByTime(s) && Distinct(s) && !Has(s, x.key) && Has(s, k)
    ensures var p := Slot(s, x);
      IndexOf(Insert(s, x), x.key) == p &&
      IndexOf(Insert(s, x), k) == if IndexOf(s, k) < p then IndexOf(s, k) else IndexOf(s, k) + 1
  {
    InsertSpec(s, x);
    var p, r, j := Slot(s, x), Insert(s, x), IndexOf(s, k);
    GetAt(r, p);
    GetAt(r, if j < p then j else j + 1);
  }

  lemma {:induction false} SortEntries(d: Store)
    ensures |StableSort(d)| == |d|
    ensures forall x :: x in StableSort(d) <==> x in d
  {
    if d != [] {
      var rest, x := d[..|d| - 1], d[|d| - 1];
      SortEntries(rest);
      InsertEntries(StableSort(rest), x);
      assert d == rest + [x];
    }
  }

  lemma {:induction false} SortSpec(d: Store)
    requires Distinct(d)
    ensures ByTime(StableSort(d)) && Distinct(StableSort(d))
    ensures |StableSort(d)| == |d|
    ensures forall x :: x in StableSort(d) <==> x in d
  {
    SortEntries(d);
    if d != [] {
      SortSpec(d[..|d| - 1]);
      LastIsNew(d);
      InsertSpec(StableSort(d[..|d| - 1]), d[|d| - 1]);
    }
  }

  lemma LastIsNew(d: Store)
    requires Distinct(d) && d != []
    ensures !Has(StableSort(d[..|d| - 1]), d[|d| - 1].key)
  {
    SortEntries(d[..|d| - 1]);
    NotHas(StableSort(d[..|d| - 1]), d[|d| - 1].key);
  }

  /** An entry of `d` before the last is in the sort of the rest, and is found there. */
  lemma EarlierIsSorted(d: Store, i: nat)
    requires Distinct(d) && i < |d| - 1
    ensures var s := StableSort(d[..|d| - 1]);
      Has(s, d[i].key) && s[IndexOf(s, d[i].key)] == d[i]
  {
    var s := StableSort(d[..|d| - 1]);
    SortSpec(d[..|d| - 1]);
    assert d[..|d| - 1][i] in s;
    var k :| 0 <= k < |s| && s[k] == d[i];
    GetAt(s, k);
  }

  /** Stability: an entry keeps its place before a later entry that is not older. */
  lemma {:induction false} SortIsStable(d: Store, i: nat, j: nat)
    requires Distinct(d) && i < j < |d| && d[i].value.ts <= d[j].value.ts
    ensures IndexOf(StableSort(d), d[i].key) < IndexOf(StableSort(d), d[j].key)
  {
    hide IndexOf, Insert;
    var rest, x := d[..|d| - 1], d[|d| - 1];
    SortSpec(rest);
    LastIsNew(d);
    EarlierIsSorted(d, i);
    InsertPositions(StableSort(rest), x, d[i].key);
    if j < |d| - 1 {
      EarlierIsSorted(d, j);
      InsertPositions(StableSort(rest), x, d[j].key);
      SortIsStable(rest, i, j);
    }
  }

  // ---- The operations ----

  function KeysOf<K, V>(d: Dict<K, V>): (r: seq<K>)
    ensures |r| == |d|
    ensures forall i :: 0 <= i < |d| ==> r[i] == d[i].key
  {
    seq(|d|, i requires 0 <= i < |d| => d[i].key)
  }

  function ExpiredKeys(d: Store, now: real, ttl: real): seq<Key> {
    KeysWhere(d, (x: Item<Key, Stamped>) => Expired(x, now, ttl))
  }

  function Unexpired(d: Store, now: real, ttl: real): Store {
    DeleteAll(d, ExpiredKeys(d, now, ttl))
  }

  /** The `n` oldest keys, all of them when there are fewer. */
  function OldestKeys(d: Store, n: nat): seq<Key> {
    KeysOf(StableSort(d))[..if n <= |StableSort(d)| then n else |StableSort(d)|]
  }

  /** `_evict`. */
  function Evicted(d: Store, now: real, ttl: real, maxsize: int): Store {
    var live := Unexpired(d, now, ttl);
    if |live| > maxsize then DeleteAll(live, OldestKeys(live, |live| - maxsize)) else live
  }

  function GetResult(d: Store, k: Key, now: real, ttl: real): Option<Value> {
    match Get(d, k)
    case Some(s) => if now - s.ts > ttl then None else Some(s.value)
    case None => None
  }

  function AfterGet(d: Store, k: Key, now: real, ttl: real): Store {
    if Has(d, k) && GetResult(d, k, now, ttl).None? then Remove(d, k) else d
  }

  /** `set`; `_evict` reads the clock again, at `later`. */
  function AfterSet(d: Store, k: Key, v: Value, now: real, later: real, ttl: real, maxsize: int): Store {
    var p := Put(d, k, Stamped(now, v));
    if |p| > Threshold(maxsize) then Evicted(p, later, ttl, maxsize) else p
  }

  /** `invalidate(*heads)`. */
  function AfterInvalidate(d: Store, heads: seq<string>): Store {
    if heads == [] then []
    else DeleteAll(d, KeysWhere(d, (x: Item<Key, Stamped>) => x.key.head in heads))
  }

  /** Lazy expiry: a read answers from an entry at most `ttl` old, drops an older one, and touches no other. */
  lemma GetExpires(d: Store, k: Key, now: real, ttl: real, q: Key)
    requires Distinct(d)
    ensures GetResult(d, k, now, ttl) ==
      if Has(d, k) && now <= d[IndexOf(d, k)].value.ts + ttl then Some(d[IndexOf(d, k)].value.value) else None
    ensures Get(AfterGet(d, k, now, ttl), q) ==
      if q == k && GetResult(d, k, now, ttl).None? then None else Get(d, q)
  {
    GetRemove(d, k, q);
  }

  // ---- What eviction keeps ----

  ghost function LiveEntries(d: Store, now: real, ttl: real): set<Item<Key, Stamped>> {
    set x | x in d && now <= x.value.ts + ttl
  }

  lemma {:induction false} EntriesSize<K, V>(d: Dict<K, V>)
    requires Distinct(d)
    ensures |set x | x in d| == |d|
  {
    if d != [] {
      var last, rest := d[|d| - 1], d[..|d| - 1];
      EntriesSize(rest);
      assert (set x | x in d) == (set x | x in rest) + {last};
      assert last !in rest;
    } else {
      assert (set x | x in d) == {};
    }
  }

  lemma UnexpiredSpec(d: Store, now: real, ttl: real)
    requires Distinct(d)
    ensures var live := Unexpired(d, now, ttl);
      && Distinct(live)
      && (forall x :: x in live <==> x in d && !Expired(x, now, ttl))
      && |live| == |LiveEntries(d, now, ttl)| <= |d|
  {
    var ks := ExpiredKeys(d, now, ttl);
    var live := Unexpired(d, now, ttl);
    DeleteAllEntries(d, ks);
    forall x | x in d ensures x.key in ks <==> Expired(x, now, ttl) {
      var i :| 0 <= i < |d| && d[i] == x;
    }
    EntriesSize(live);
    assert forall x :: x in live <==> x in LiveEntries(d, now, ttl);
    assert (set x | x in live) == LiveEntries(d, now, ttl);
    KeysWhereDistinct(d, (x: Item<Key, Stamped>) => Expired(x, now, ttl));
    DeleteAllSize(d, ks);
  }

  /** Older, or as old and inserted earlier. */
  ghost predicate Older(d: Store, x: Item<Key, Stamped>, y: Item<Key, Stamped>) {
    x.value.ts < y.value.ts || (x.value.ts == y.value.ts && IndexOf(d, x.key) < IndexOf(d, y.key))
  }

  lemma PrefixOfSortIsOlder(d: Store, p: nat, q: nat)
    requires Distinct(d) && p < q < |StableSort(d)|
    ensures Older(d, StableSort(d)[p], StableSort(d)[q])
  {
    hide StableSort, IndexOf;
    SortSpec(d);
    var s := StableSort(d);
    var x, y := s[p], s[q];
    assert x in s && y in s;
    var i :| 0 <= i < |d| && d[i] == x;
    var j :| 0 <= j < |d| && d[j] == y;
    GetAt(d, i);
    GetAt(d, j);
    GetAt(s, p);
    GetAt(s, q);
    assert x.value.ts <= y.value.ts;
    if x.value.ts == y.value.ts && j < i {
      SortIsStable(d, j, i);
    }
  }

  /** The `n` oldest keys are keys of `d`, all different, and in front of the sort. */
  lemma OldestKeysSpec(d: Store, n: nat)
    requires Distinct(d) && n <= |d|
    ensures var ks := OldestKeys(d, n);
      && |ks| == n == |StableSort(d)[..n]|
      && (forall i :: 0 <= i < n ==> ks[i] == StableSort(d)[i].key)
      && (forall i, j :: 0 <= i < j < n ==> ks[i] != ks[j])
      && (forall k :: k in ks ==> Has(d, k))
  {
    SortSpec(d);
    var s, ks := StableSort(d), OldestKeys(d, n);
    forall k | k in ks ensures Has(d, k) {
      var i :| 0 <= i < |ks| && ks[i] == k;
      assert s[i] in s;
      GetEntry(d, s[i]);
    }
  }

  lemma DroppedIsOlder(d: Store, n: nat, x: Item<Key, Stamped>, y: Item<Key, Stamped>)
    requires Distinct(d) && n <= |d| && x in d && y in d
    requires x.key in OldestKeys(d, n) && y.key !in OldestKeys(d, n)
    ensures Older(d, x, y)
  {
    hide StableSort, IndexOf, OldestKeys;
    SortSpec(d);
    OldestKeysSpec(d, n);
    var s, ks := StableSort(d), OldestKeys(d, n);
    var p :| 0 <= p < n && ks[p] == x.key;
    assert s[p] in s;
    SameKeySameEntry(d, s[p], x);
    assert forall i :: 0 <= i < n ==> ks[i] in ks;
    var q :| 0 <= q < |s| && s[q] == y;
    PrefixOfSortIsOlder(d, p, q);
  }

  /** Dropping the `n` oldest. */
  lemma DropOldest(d: Store, n: nat)
    requires Distinct(d) && n <= |d|
    ensures var r := DeleteAll(d, OldestKeys(d, n));
      && Distinct(r) && |r| == |d| - n
      && (forall x :: x in r ==> x in d)
      && (forall x, y :: x in d && x !in r && y in r ==> Older(d, x, y))
  {
    hide OldestKeys, StableSort, IndexOf;
    var ks := OldestKeys(d, n);
    OldestKeysSpec(d, n);
    DeleteAllEntries(d, ks);
    DeleteAllSize(d, ks);
    var r := DeleteAll(d, ks);
    forall x, y | x in d && x !in r && y in r ensures Older(d, x, y) {
      assert x.key in ks && y.key !in ks;
      DroppedIsOlder(d, n, x, y);
    }
  }

  lemma SameKeySameEntry<K, V>(d: Dict<K, V>, x: Item<K, V>, y: Item<K, V>)
    requires Distinct(d) && x in d && y in d && x.key == y.key
    ensures x == y
  {
  }

  function Max(a: int, b: int): int {
    if a < b then b else a
  }

  /**
   `_evict` leaves only unexpired entries, as many as fit; it drops an unexpired entry only when more
   than `maxsize` are unexpired, and then only one older than every survivor (ties by insertion).
   */
  lemma EvictKeepsNewest(d: Store, now: real, ttl: real, maxsize: int)
    requires Distinct(d)
    ensures var r, live := Evicted(d, now, ttl, maxsize), LiveEntries(d, now, ttl);
      && Distinct(r)
      && (forall x :: x in r ==> x in live)
      && |r| == (if |live| > maxsize then Max(maxsize, 0) else |live|) <= Max(maxsize, 0)
      && (forall x, y :: x in live && x !in r && y in r ==> Older(d, x, y))
  {
    UnexpiredSpec(d, now, ttl);
    var live := Unexpired(d, now, ttl);
    if |live| > maxsize {
      var n := if |live| - maxsize <= |live| then |live| - maxsize else |live|;
      SortSpec(live);
      assert OldestKeys(live, |live| - maxsize) == OldestKeys(live, n);
      DropOldest(live, n);
      var r := Evicted(d, now, ttl, maxsize);
      forall x, y | x in live && x !in r && y in r ensures Older(d, x, y) {
        assert Older(live, x, y);
        if x.value.ts == y.value.ts {
          GetEntry(live, x);
          GetEntry(live, y);
          DeleteAllKeepsOrder(d, ExpiredKeys(d, now, ttl), x.key, y.key);
        }
      }
    }
  }

  /** With a monotone clock and room for one entry, the entry just set survives, even under timestamp ties. */
  lemma SetKeepsNewKey(d: Store, k: Key, v: Value, now: real, later: real, ttl: real, maxsize: int)
    requires Distinct(d) && 2 * |d| <= 3 * maxsize && maxsize >= 1
    requires forall x :: x in d ==> x.value.ts <= now
    requires now <= later <= now + ttl
    ensures Get(AfterSet(d, k, v, now, later, ttl, maxsize), k) == Some(Stamped(now, v))
  {
    var p, x := Put(d, k, Stamped(now, v)), Item(k, Stamped(now, v));
    var r := AfterSet(d, k, v, now, later, ttl, maxsize);
    PutDistinct(d, k, Stamped(now, v));
    GetPut(d, k, Stamped(now, v), k);
    if |p| > Threshold(maxsize) {
      assert p == d + [x];
      EvictKeepsNewest(p, later, ttl, maxsize);
      assert x in p && x in LiveEntries(p, later, ttl);
      GetAt(p, |d|);
      if x !in r {
        LatestIsNotOlder(p, r, x);
      }
      var i :| 0 <= i < |r| && r[i] == x;
      GetAt(r, i);
    }
  }

  /**
   `set` evicts exactly when the store has outgrown 1.5 times `maxsize`, and then down to at most `maxsize`
   unexpired entries; otherwise it assigns and does nothing else.
   */
  lemma SetExactly(d: Store, k: Key, v: Value, now: real, later: real, ttl: real, maxsize: int)
    requires Distinct(d) && maxsize >= 0
    ensures var p, r := Put(d, k, Stamped(now, v)), AfterSet(d, k, v, now, later, ttl, maxsize);
      && (Has(d, k) ==> |p| == |d| && forall i :: 0 <= i < |d| ==> p[i].key == d[i].key)
      && (!Has(d, k) ==> p == d + [Item(k, Stamped(now, v))])
      && (2 * |p| <= 3 * maxsize ==> r == p)
      && (2 * |p| > 3 * maxsize ==> |r| <= maxsize && forall x :: x in r ==> x in p && later <= x.value.ts + ttl)
      && (Evicts(d, OpSet(k, v, now, later), maxsize) <==> 2 * |p| > 3 * maxsize)
  {
    hide Evicted, Older;
    PutDistinct(d, k, Stamped(now, v));
    PutKeepsPlaces(d, k, Stamped(now, v));
    EvictKeepsNewest(Put(d, k, Stamped(now, v)), later, ttl, maxsize);
  }

  /** `invalidate` removes exactly the entries whose key has one of the heads, all when it is given none. */
  lemma InvalidateExactly(d: Store, heads: seq<string>)
    requires Distinct(d)
    ensures var r := AfterInvalidate(d, heads);
      && Distinct(r)
      && forall x :: x in r <==> x in d && heads != [] && x.key.head !in heads
  {
    var p := (x: Item<Key, Stamped>) => x.key.head in heads;
    var ks := KeysWhere(d, p);
    DeleteAllEntries(d, ks);
    forall x | x in d ensures x.key in ks <==> x.key.head in heads {
      var i :| 0 <= i < |d| && d[i] == x;
      assert p(d[i]) <==> x.key.head in heads;
    }
  }

  lemma LatestIsNotOlder(p: Store, r: Store, x: Item<Key, Stamped>)
    requires Distinct(p) && p != [] && p[|p| - 1] == x && r != []
    requires forall y :: y in p ==> y.value.ts <= x.value.ts
    requires forall y :: y in r ==> y in p
    ensures exists y :: y in r && !Older(p, x, y)
  {
    var y := r[0];
    assert y in r;
    GetAt(p, |p| - 1);
    var j :| 0 <= j < |p| && p[j] == y;
    GetAt(p, j);
  }

  // ---- Whole runs of operations ----

  datatype Op =
    | OpGet(k: Key, now: real)
    | OpSet(k: Key, v: Value, now: real, later: real)
    | OpInvalidate(heads: seq<string>)
    | OpClear

  function Apply(d: Store, op: Op, ttl: real, maxsize: int): Store {
    match op
    case OpGet(k, now) => AfterGet(d, k, now, ttl)
    case OpSet(k, v, now, later) => AfterSet(d, k, v, now, later, ttl, maxsize)
    case OpInvalidate(heads) => AfterInvalidate(d, heads)
    case OpClear => []
  }

  /** Whether the operation calls `_evict`. */
  predicate Evicts(d: Store, op: Op, maxsize: int) {
    op.OpSet? && |Put(d, op.k, Stamped(op.now, op.v))| > Threshold(maxsize)
  }

  function Run(ops: seq<Op>, ttl: real, maxsize: int): Store {
    if ops == [] then [] else Apply(Run(ops[..|ops| - 1], ttl, maxsize), ops[|ops| - 1], ttl, maxsize)
  }

  function Sets(ops: seq<Op>): nat {
    if ops == [] then 0 else Sets(ops[..|ops| - 1]) + if ops[|ops| - 1].OpSet? then 1 else 0
  }

  function Evictions(ops: seq<Op>, ttl: real, maxsize: int): nat {
    if ops == [] then 0
    else
      var before := ops[..|ops| - 1];
      Evictions(before, ttl, maxsize) + if Evicts(Run(before, ttl, maxsize), ops[|ops| - 1], maxsize) then 1 else 0
  }

  lemma ApplySize(d: Store, op: Op, ttl: real, maxsize: int)
    requires Distinct(d)
    ensures var r := Apply(d, op, ttl, maxsize);
      && Distinct(r)
      && (op.OpSet? ==> |r| <= |d| + 1)
      && (!op.OpSet? ==> |r| <= |d|)
      && (Evicts(d, op, maxsize) ==> |r| <= Max(maxsize, 0))
      && (op.OpSet? && !Evicts(d, op, maxsize) ==> |r| <= Threshold(maxsize))
  {
    match op
    case OpGet(k, now) =>
      RemoveDistinct(d, k);
      RemoveEntry(d, k);
    case OpSet(k, v, now, later) =>
      PutDistinct(d, k, Stamped(now, v));
      var p := Put(d, k, Stamped(now, v));
      EvictKeepsNewest(p, later, ttl, maxsize);
      UnexpiredSpec(p, later, ttl);
    case OpInvalidate(heads) =>
      if heads != [] {
        InvalidateSize(d, (x: Item<Key, Stamped>) => x.key.head in heads);
      }
    case OpClear =>
  }

  lemma InvalidateSize(d: Store, p: Item<Key, Stamped> -> bool)
    requires Distinct(d)
    ensures Distinct(DeleteAll(d, KeysWhere(d, p))) && |DeleteAll(d, KeysWhere(d, p))| <= |d|
  {
    KeysWhereDistinct(d, p);
    DeleteAllEntries(d, KeysWhere(d, p));
    DeleteAllSize(d, KeysWhere(d, p));
  }

  /** An eviction gives back what it is charged: `Threshold + 1 - maxsize` entries. */
  lemma ApplyPotential(d: Store, op: Op, ttl: real, maxsize: int)
    requires Distinct(d) && |d| <= Max(Threshold(maxsize), 0)
    ensures var r := Apply(d, op, ttl, maxsize);
      && Distinct(r)
      && |r| <= Max(Threshold(maxsize), 0)
      && |r| + (if Evicts(d, op, maxsize) then Threshold(maxsize) + 1 - maxsize else 0)
         <= |d| + (if op.OpSet? then 1 else 0)
  {
    ApplySize(d, op, ttl, maxsize);
    if Evicts(d, op, maxsize) {
      assert |Put(d, op.k, Stamped(op.now, op.v))| <= |d| + 1;
    }
  }

  /**
   Amortized bound, for any clock readings: the size never exceeds 1.5 times `maxsize`, and each call of
   `_evict` is paid for by as many insertions as lie between that and `maxsize`, and one.
   */
  lemma AmortizedEviction(ops: seq<Op>, ttl: real, maxsize: int)
    ensures var d := Run(ops, ttl, maxsize);
      && Distinct(d)
      && (maxsize >= 0 ==> 2 * |d| <= 3 * maxsize)
      && (maxsize < 0 ==> d == [])
      && (maxsize >= 0 ==> |d| + Evictions(ops, ttl, maxsize) * (3 * maxsize / 2 + 1 - maxsize) <= Sets(ops))
  {
    hide Run, Evictions, Sets, Distinct;
    AmortizedByThreshold(ops, ttl, maxsize);
    var c := Threshold(maxsize) + 1 - maxsize;
    assert maxsize >= 0 ==> c == 3 * maxsize / 2 + 1 - maxsize;
  }

  lemma {:induction false} AmortizedByThreshold(ops: seq<Op>, ttl: real, maxsize: int)
    ensures var d := Run(ops, ttl, maxsize);
      && Distinct(d)
      && |d| <= Max(Threshold(maxsize), 0)
      && |d| + Evictions(ops, ttl, maxsize) * (Threshold(maxsize) + 1 - maxsize) <= Sets(ops)
  {
    hide Apply;
    if ops != [] {
      var before, op := ops[..|ops| - 1], ops[|ops| - 1];
      AmortizedByThreshold(before, ttl, maxsize);
      var d := Run(before, ttl, maxsize);
      var r, c := Apply(d, op, ttl, maxsize), Threshold(maxsize) + 1 - maxsize;
      assert Run(ops, ttl, maxsize) == r;
      ApplyPotential(d, op, ttl, maxsize);
      ChargeStep(ops, ttl, maxsize, c);
    }
  }

  /** The readings of the clock by `set` never go back, and `_evict` reads it within `ttl`. */
  ghost predicate MonotoneClock(ops: seq<Op>, ttl: real) {
    && (forall i :: 0 <= i < |ops| && ops[i].OpSet? ==> ops[i].now <= ops[i].later <= ops[i].now + ttl)
    && (forall i, j :: 0 <= i < j < |ops| && ops[i].OpSet? && ops[j].OpSet? ==> ops[i].now <= ops[j].now)
  }

  lemma ApplyEntries(d: Store, op: Op, ttl: real, maxsize: int)
    requires Distinct(d)
    ensures forall x :: x in Apply(d, op, ttl, maxsize) ==>
      x in d || (op.OpSet? && x == Item(op.k, Stamped(op.now, op.v)))
  {
    match op
    case OpGet(k, now) => RemoveEntry(d, k);
    case OpSet(k, v, now, later) =>
      PutDistinct(d, k, Stamped(now, v));
      PutEntry(d, k, Stamped(now, v));
      EvictKeepsNewest(Put(d, k, Stamped(now, v)), later, ttl, maxsize);
    case OpInvalidate(heads) =>
      if heads != [] {
        DeleteAllEntries(d, KeysWhere(d, (x: Item<Key, Stamped>) => x.key.head in heads));
      }
    case OpClear =>
  }

  /** Every entry was put there by some `set` of the run. */
  lemma {:induction false} EntriesWereSet(ops: seq<Op>, ttl: real, maxsize: int)
    ensures forall x :: x in Run(ops, ttl, maxsize) ==>
      exists i :: 0 <= i < |ops| && ops[i].OpSet? && x == Item(ops[i].k, Stamped(ops[i].now, ops[i].v))
  {
    hide Apply;
    if ops != [] {
      var before, op := ops[..|ops| - 1], ops[|ops| - 1];
      EntriesWereSet(before, ttl, maxsize);
      AmortizedEviction(before, ttl, maxsize);
      ApplyEntries(Run(before, ttl, maxsize), op, ttl, maxsize);
      forall x | x in Run(ops, ttl, maxsize)
        ensures exists i :: 0 <= i < |ops| && ops[i].OpSet? && x == Item(ops[i].k, Stamped(ops[i].now, ops[i].v))
      {
        if x in Run(before, ttl, maxsize) {
          var i :| 0 <= i < |before| && before[i].OpSet? && x == Item(before[i].k, Stamped(before[i].now, before[i].v));
          assert ops[i] == before[i];
        } else {
          assert ops[|ops| - 1] == op;
        }
      }
    }
  }

  /** In any run with a monotone clock, what was just set is there, whether or not `set` evicted. */
  lemma JustSetIsThere(ops: seq<Op>, ttl: real, maxsize: int)
    requires ops != [] && ops[|ops| - 1].OpSet? && maxsize >= 1 && MonotoneClock(ops, ttl)
    ensures var op := ops[|ops| - 1];
      Get(Run(ops, ttl, maxsize), op.k) == Some(Stamped(op.now, op.v))
  {
    hide AfterSet;
    var before, op := ops[..|ops| - 1], ops[|ops| - 1];
    EntriesWereSet(before, ttl, maxsize);
    AmortizedEviction(before, ttl, maxsize);
    var d := Run(before, ttl, maxsize);
    forall x | x in d ensures x.value.ts <= op.now {
      var i :| 0 <= i < |before| && before[i].OpSet? && x == Item(before[i].k, Stamped(before[i].now, before[i].v));
      assert ops[i] == before[i];
    }
    SetKeepsNewKey(d, op.k, op.v, op.now, op.later, ttl, maxsize);
  }

  lemma ChargeStep(ops: seq<Op>, ttl: real, maxsize: int, c: int)
    requires ops != []
    ensures var before, op := ops[..|ops| - 1], ops[|ops| - 1];
      Evictions(ops, ttl, maxsize) * c ==
      Evictions(before, ttl, maxsize) * c + if Evicts(Run(before, ttl, maxsize), op, maxsize) then c else 0
  {
    var before, op := ops[..|ops| - 1], ops[|ops| - 1];
    var e := Evictions(before, ttl, maxsize);
    assert (e + 1) * c == e * c + c;
  }
}
