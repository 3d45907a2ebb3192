/** The cached part of `PermissionClient` as an object holding a cache object. */
module PermissionClientClass {
  import opened Common
  import opened OrderedDict
  import TtlCache
  import opened TtlCacheClass
  import PermissionClient

  class Client {
    const config: PermissionClient.Config
    const cache: Cache?
    var serviceName: string

    constructor (config: PermissionClient.Config, serviceName: string)
      ensures this.config == config && this.serviceName == serviceName
      ensures (cache != null) == (config.ttl > 0.0)
      ensures cache != null ==>
        fresh(cache) && cache.store == [] && cache.ttl == config.ttl && cache.maxsize == config.maxsize
    {
      this.config, this.serviceName := config, serviceName;
      if config.ttl > 0.0 {
        cache := new Cache(config.ttl, config.maxsize);
      } else {
        cache := null;
      }
    }

    /** The cache object, when there is one, is the protocol's store. */
    ghost predicate Holds(s: PermissionClient.State)
      reads this, cache
    {
      && (cache != null) == (config.ttl > 0.0)
      && s.service == serviceName
      && s.store == (if cache == null then [] else cache.store)
      && (cache != null ==> cache.ttl == config.ttl && cache.maxsize == config.maxsize)
    }

    /** `can` and `accessible` before their await. */
    method Begin(q: PermissionClient.Query, now: real, ghost s: PermissionClient.State, ghost id: nat)
        returns (hit: Option<TtlCache.Value>)
      requires Holds(s) && s.now == now
      modifies cache
      ensures hit == PermissionClient.Hit(config, s, q)
      ensures Holds(PermissionClient.StepRead(config, s, id, q))
    {
      if cache == null {
        return None;
      }
      hit := cache.Get(PermissionClient.KeyOf(config, q), now);
    }

    /** `can` and `accessible` after a successful await. */
    method Finish(q: PermissionClient.Query, reply: PermissionClient.Reply, now: real, later: real,
                  ghost s: PermissionClient.State, ghost id: nat)
        returns (v: TtlCache.Value)
      requires Holds(s) && s.now == now && later >= now
      requires !reply.Failure? && id in s.calls && s.calls[id].query == q
      modifies cache
      ensures PermissionClient.Says(reply, v)
      ensures v == PermissionClient.ValueOf(reply)
      ensures Holds(PermissionClient.StepRespond(config, s, id, reply, later - now))
    {
      hide TtlCache.AfterSet, PermissionClient.KeyOf;
      v := PermissionClient.ValueOf(reply);
      if cache != null {
        cache.Set(PermissionClient.KeyOf(config, q), v, now, later);
      }
    }

    /** The assignment of a realm discovery; it leaves the cache alone. */
    method Rescope(scope: string, ghost s: PermissionClient.State)
      requires Holds(s)
      modifies this
      ensures Holds(PermissionClient.Step(config, s, PermissionClient.Event.Rescope(scope)))
    {
      serviceName := scope;
    }

    /** What every successful write does before it returns. */
    method InvalidateCache(ghost s: PermissionClient.State)
      requires Holds(s)
      modifies cache
      ensures Holds(PermissionClient.Step(config, s, PermissionClient.WriteSucceeds))
    {
      if cache != null {
        cache.Invalidate(["accessible", "can"]);
      }
    }
  }
}
