/** `_TTLCache` as the object it is: a dictionary field updated in place. */
module TtlCacheClass {
  import opened Common
  import opened OrderedDict
  import opened TtlCache

  class Cache {
    var store: Store
    const ttl: real
    const maxsize: int

    constructor (ttl: real, maxsize: int)
      ensures store == [] && this.ttl == ttl && this.maxsize == maxsize
    {
      store := [];
      this.ttl := ttl;
      this.maxsize := maxsize;
    }

    method Get(k: Key, now: real) returns (v: Option<Value>)
      modifies this
      ensures v == GetResult(old(store), k, now, ttl)
      ensures store == AfterGet(old(store), k, now, ttl)
    {
      var entry := OrderedDict.Get(store, k);
      if entry.None? {
        return None;
      }
      if now - entry.value.ts > ttl {
        store := Remove(store, k);
        return None;
      }
      return Some(entry.value.value);
    }

    method Set(k: Key, v: Value, now: real, later: real)
      modifies this
      ensures store == AfterSet(old(store), k, v, now, later, ttl, maxsize)
    {
      store := Put(store, k, Stamped(now, v));
      if |store| > Threshold(maxsize) {
        Evict(later);
      }
    }

    method Invalidate(heads: seq<string>)
      modifies this
      ensures store == AfterInvalidate(old(store), heads)
    {
      if heads == [] {
        store := [];
        return;
      }
      var toRemove := KeysWhere(store, (x: Item<Key, Stamped>) => x.key.head in heads);
      DeleteKeys(toRemove);
    }

    method Clear()
      modifies this
      ensures store == []
    {
      store := [];
    }

    method Evict(now: real)
      modifies this
      ensures store == Evicted(old(store), now, ttl, maxsize)
    {
      var expired := ExpiredKeys(store, now, ttl);
      DeleteKeys(expired);
      var overflow := |store| - maxsize;
      if overflow > 0 {
        var oldest := OldestKeys(store, overflow);
        DeleteKeys(oldest);
      }
    }

    /** `for k in keys: del store[k]`. */
    method DeleteKeys(keys: seq<Key>)
      modifies this
      ensures store == DeleteAll(old(store), keys)
    {
      var i := 0;
      while i < |keys|
        invariant 0 <= i <= |keys|
        invariant store == DeleteAll(old(store), keys[..i])
      {
        store := Remove(store, keys[i]);
        i := i + 1;
        assert keys[..i][..i - 1] == keys[..i - 1];
      }
      assert keys[..i] == keys;
    }
  }
}
