/**
 The middleware's cache of minted tokens, and what it says about the mints so far.
 The log of successful mints is history: the code does not keep it.
 */
module ResolveCache {
  import opened Common
  import opened OrderedDict

  const RESOLVE_CACHE_MAX := 4096

  datatype Cached = Cached(token: string, deadline: real)
  type Cache = Dict<string, Cached>

  /** A successful mint: the answer of Duar as received. */
  datatype Mint = Mint(key: string, token: string, receivedAt: real, expiresIn: Option<real>)

  /** For how long a minted token is reused: 80% of a numeric `expires_in`, else 240 seconds. */
  function ReuseTime(expiresIn: Option<real>): real {
    if expiresIn.Some? then 0.8 * expiresIn.value else 240.0
  }

  function Entry(m: Mint): Cached {
    Cached(m.token, m.receivedAt + ReuseTime(m.expiresIn))
  }

  /** `OrderedDict.move_to_end`. */
  function MoveToEnd<K(==), V>(d: Dict<K, V>, k: K): Dict<K, V>
    requires Has(d, k)
  {
    Remove(d, k) + [d[IndexOf(d, k)]]
  }

  /** Drop entries from the front until the bound is met. */
  function Trim(cache: Cache): (r: Cache)
    ensures |r| <= RESOLVE_CACHE_MAX
  {
    if |cache| > RESOLVE_CACHE_MAX then cache[|cache| - RESOLVE_CACHE_MAX..] else cache
  }

  lemma TrimTail(cache: Cache)
    requires |cache| > RESOLVE_CACHE_MAX
    ensures Trim(cache[1..]) == Trim(cache)
  {
  }

  /** What a successful mint does to the cache. */
  function Store(cache: Cache, m: Mint): Cache {
    Trim(Remove(cache, m.key) + [Item(m.key, Entry(m))])
  }

  /** Assigning and then moving to the end puts the entry last, whatever was there before. */
  lemma PutThenMove<K, V>(d: Dict<K, V>, k: K, v: V)
    requires Distinct(d)
    ensures Has(Put(d, k, v), k)
    ensures MoveToEnd(Put(d, k, v), k) == Remove(d, k) + [Item(k, v)]
  {
    PutDistinct(d, k, v);
    var i := IndexOf(d, k);
    GetAt(Put(d, k, v), i);
  }

  /** The number of the most recent mint for `key`, or -1. */
  function LastMint(log: seq<Mint>, key: string): (n: int)
    ensures -1 <= n < |log|
    ensures n >= 0 ==> log[n].key == key
    ensures forall j :: n < j < |log| ==> log[j].key != key
  {
    if log == [] then -1
    else if log[|log| - 1].key == key then |log| - 1
    else LastMint(log[..|log| - 1], key)
  }

  lemma LastMintAfter(log: seq<Mint>, m: Mint, key: string)
    ensures LastMint(log + [m], key) == if key == m.key then |log| else LastMint(log, key)
  {
    assert (log + [m])[..|log|] == log;
  }

  /** Each entry is exactly what its key's last mint stored. */
  ghost predicate Mirrors(cache: Cache, log: seq<Mint>) {
    forall i :: 0 <= i < |cache| ==>
      var n := LastMint(log, cache[i].key);
      n >= 0 && cache[i].value == Entry(log[n])
  }

  /** Cache order is the order of last mints. */
  ghost predicate ByRecency(cache: Cache, log: seq<Mint>) {
    forall i, j :: 0 <= i < j < |cache| ==> LastMint(log, cache[i].key) < LastMint(log, cache[j].key)
  }

  ghost predicate CacheInv(cache: Cache, log: seq<Mint>) {
    && |cache| <= RESOLVE_CACHE_MAX
    && Distinct(cache)
    && Mirrors(cache, log)
    && ByRecency(cache, log)
  }

  lemma RemoveKeepsInv(cache: Cache, log: seq<Mint>, key: string)
    requires CacheInv(cache, log)
    ensures CacheInv(Remove(cache, key), log)
  {
    var i := IndexOf(cache, key);
    if i < |cache| {
      WithoutKeepsInv(cache, log, i);
    }
  }

  lemma WithoutKeepsInv(cache: Cache, log: seq<Mint>, i: nat)
    requires CacheInv(cache, log) && i < |cache|
    ensures CacheInv(cache[..i] + cache[i + 1..], log)
  {
    var r := cache[..i] + cache[i + 1..];
    assert forall j :: 0 <= j < |r| ==> r[j] == cache[if j < i then j else j + 1];
  }

  /** Appending the newest mint under a key that is not there. */
  lemma AppendNewest(rest: Cache, log: seq<Mint>, m: Mint)
    requires Distinct(rest) && Mirrors(rest, log) && ByRecency(rest, log)
    requires !Has(rest, m.key)
    ensures var full := rest + [Item(m.key, Entry(m))];
      Distinct(full) && Mirrors(full, log + [m]) && ByRecency(full, log + [m])
  {
    var full := rest + [Item(m.key, Entry(m))];
    LastMintAfter(log, m, m.key);
    forall i | 0 <= i < |rest|
      ensures rest[i].key != m.key && LastMint(log + [m], rest[i].key) == LastMint(log, rest[i].key)
    {
      LastMintAfter(log, m, rest[i].key);
    }
    assert Mirrors(full, log + [m]);
  }

  lemma SuffixKeepsInv(full: Cache, log: seq<Mint>, drop: nat)
    requires drop <= |full| <= RESOLVE_CACHE_MAX + drop
    requires Distinct(full) && Mirrors(full, log) && ByRecency(full, log)
    ensures CacheInv(full[drop..], log)
  {
    var r := full[drop..];
    assert forall j :: 0 <= j < |r| ==> r[j] == full[j + drop];
  }

  lemma StoreKeepsInv(cache: Cache, log: seq<Mint>, m: Mint)
    requires CacheInv(cache, log)
    ensures CacheInv(Store(cache, m), log + [m])
  {
    var rest := Remove(cache, m.key);
    RemoveKeepsInv(cache, log, m.key);
    GetRemove(cache, m.key, m.key);
    AppendNewest(rest, log, m);
    var full := rest + [Item(m.key, Entry(m))];
    SuffixKeepsInv(full, log + [m], |full| - |Store(cache, m)|);
  }

  lemma NewestAtEnd(rest: Cache, x: Item<string, Cached>)
    requires Distinct(rest) && forall y :: y in rest ==> y.key != x.key
    ensures var r := Trim(rest + [x]); Distinct(r) && r != [] && r[|r| - 1] == x
  {
    AppendDistinct(rest, x);
    SuffixDistinct(rest + [x], |rest| + 1 - |Trim(rest + [x])|);
  }

  lemma AppendDistinct(rest: Cache, x: Item<string, Cached>)
    requires Distinct(rest) && forall y :: y in rest ==> y.key != x.key
    ensures Distinct(rest + [x])
  {
    assert forall i :: 0 <= i < |rest| ==> rest[i] in rest;
  }

  lemma SuffixDistinct(full: Cache, drop: nat)
    requires Distinct(full) && drop <= |full|
    ensures Distinct(full[drop..])
  {
    assert forall j :: 0 <= j < |full| - drop ==> full[drop..][j] == full[drop + j];
  }

  /** The key just minted is in the cache, last, with what was minted. */
  lemma StoreKeepsNewest(cache: Cache, m: Mint)
    requires Distinct(cache)
    ensures Store(cache, m) != []
    ensures Store(cache, m)[|Store(cache, m)| - 1] == Item(m.key, Entry(m))
    ensures Get(Store(cache, m), m.key) == Some(Entry(m))
  {
    var r := Store(cache, m);
    RemoveDistinct(cache, m.key);
    RemoveEntry(cache, m.key);
    NewestAtEnd(Remove(cache, m.key), Item(m.key, Entry(m)));
    GetAt(r, |r| - 1);
  }

  ghost function Keys<K, V>(d: Dict<K, V>): set<K> {
    set x | x in d :: x.key
  }

  lemma {:induction false} KeysSize<K, V>(d: Dict<K, V>)
    requires Distinct(d)
    ensures |Keys(d)| == |d|
  {
    if d != [] {
      var last, rest := d[|d| - 1], d[..|d| - 1];
      KeysSize(rest);
      assert Keys(d) == Keys(rest) + {last.key};
      assert last.key !in Keys(rest);
    } else {
      assert Keys(d) == {};
    }
  }

  lemma StoreSubset(cache: Cache, m: Mint)
    requires Distinct(cache)
    ensures forall x :: x in Store(cache, m) ==> x in cache || x == Item(m.key, Entry(m))
  {
    RemoveEntry(cache, m.key);
    var full := Remove(cache, m.key) + [Item(m.key, Entry(m))];
    forall x | x in Store(cache, m) ensures x in full {
      var j :| 0 <= j < |Store(cache, m)| && Store(cache, m)[j] == x;
      assert x == full[j + |full| - |Store(cache, m)|];
    }
  }

  /** Another key survives a store unless it was dropped from the front. */
  lemma StoreKeepsOthers(cache: Cache, m: Mint, key: string)
    requires Distinct(cache) && key != m.key
    ensures Has(Store(cache, m), key) ==> Get(Store(cache, m), key) == Get(cache, key)
  {
    StoreSubset(cache, m);
    var r := Store(cache, m);
    var i := IndexOf(r, key);
    if i < |r| {
      assert r[i] in r;
      GetEntry(cache, r[i]);
    }
  }

  /** Assign, move to the end, trim: what `_mint` does, in its own steps. */
  lemma StoreInSteps(cache: Cache, m: Mint)
    requires Distinct(cache)
    ensures Has(Put(cache, m.key, Entry(m)), m.key)
    ensures Trim(MoveToEnd(Put(cache, m.key, Entry(m)), m.key)) == Store(cache, m)
  {
    PutThenMove(cache, m.key, Entry(m));
  }

  lemma SuffixHas(full: Cache, drop: nat, i: nat)
    requires drop <= |full| && i < |full|
    ensures drop <= i ==> Has(full[drop..], full[i].key)
  {
    if drop <= i {
      assert full[drop..][i - drop].key == full[i].key;
    }
  }

  /** In a dictionary sorted by recency, the front is older than the rest. */
  lemma FrontIsOlder(full: Cache, log: seq<Mint>, drop: nat, i: nat)
    requires Distinct(full) && ByRecency(full, log) && i < drop <= |full|
    ensures full[i].key !in Keys(full[drop..])
    ensures forall q :: q in Keys(full[drop..]) ==> LastMint(log, q) > LastMint(log, full[i].key)
  {
    forall q | q in Keys(full[drop..])
      ensures q != full[i].key && LastMint(log, q) > LastMint(log, full[i].key)
    {
      var j :| 0 <= j < |full[drop..]| && full[drop..][j].key == q;
      assert full[drop + j].key == q;
    }
  }

  /** A store evicts a key only when 4096 other keys have all been minted after it. */
  lemma EvictedOnlyWhenStale(cache: Cache, log: seq<Mint>, m: Mint, key: string) returns (newer: set<string>)
    requires CacheInv(cache, log)
    requires key != m.key && Has(cache, key) && !Has(Store(cache, m), key)
    ensures |newer| == 4096 && key !in newer
    ensures forall q :: q in newer ==> LastMint(log + [m], q) > LastMint(log + [m], key) >= 0
  {
    var rest := Remove(cache, m.key);
    RemoveKeepsInv(cache, log, m.key);
    GetRemove(cache, m.key, m.key);
    GetRemove(cache, m.key, key);
    AppendNewest(rest, log, m);
    var full := rest + [Item(m.key, Entry(m))];
    var drop := |full| - |Store(cache, m)|;
    var i := IndexOf(rest, key);
    assert full[i].key == key;
    SuffixHas(full, drop, i);
    newer := Keys(full[drop..]);
    StoreKeepsInv(cache, log, m);
    KeysSize(full[drop..]);
    FrontIsOlder(full, log + [m], drop, i);
    assert LastMint(log + [m], key) >= 0;
  }
}
