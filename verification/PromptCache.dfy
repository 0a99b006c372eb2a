/**
 The exact-match response cache of cave-llm-gateway. The fingerprint of a request is an arbitrary function.
 */
module PromptCache {
  import opened Machine
  import opened Text

  datatype Request = Request(model: string, messages: seq<string>)

  datatype Response = Response(text: string, promptTokens: U32, completionTokens: U32)

  datatype CacheConfig = CacheConfig(enabled: bool, ttl: nat, maxEntries: nat)

  datatype Entry = Entry(response: Response, insertedAt: int, ttl: nat, hits: nat)

  type Store = map<nat, Entry>

  predicate IsExpired(e: Entry, now: int) {
    e.ttl != 0 && now - e.insertedAt > e.ttl
  }

  datatype Probe = Hit(response: Response) | Stale | Absent

  function Lookup(config: CacheConfig, store: Store, key: nat, now: int): Probe {
    if !config.enabled || key !in store then Absent
    else if IsExpired(store[key], now) then Stale
    else Hit(store[key].response)
  }

  function NewEntry(config: CacheConfig, response: Response, now: int): Entry {
    Entry(response, now, config.ttl, 0)
  }

  function Touched(e: Entry): Entry {
    e.(hits := e.hits + 1)
  }

  function Inserted(store: Store, victim: Option<nat>, key: nat, e: Entry): Store {
    (if victim.None? then store else store - {victim.value})[key := e]
  }

  function Bound(config: CacheConfig): nat {
    if config.maxEntries > 1 then config.maxEntries else 1
  }

  class Cache {
    const config: CacheConfig
    const fingerprint: Request -> nat
    var store: Store
    var hits: nat
    var misses: nat

    constructor (config: CacheConfig, fingerprint: Request -> nat)
      ensures this.config == config && this.fingerprint == fingerprint && store == map[] && hits == 0 && misses == 0
    {
      this.config := config;
      this.fingerprint := fingerprint;
      store := map[];
      hits := 0;
      misses := 0;
    }

    method Get(req: Request, now: int) returns (r: Option<Response>)
      modifies this
      ensures var key := fingerprint(req);
              if !config.enabled then r == None && store == old(store) && hits == old(hits) && misses == old(misses)
              else if key !in old(store) then
                r == None && store == old(store) && hits == old(hits) && misses == old(misses) + 1
              else
                var Entry(response, at, ttl, n) := old(store)[key];
                if ttl == 0 || now - at <= ttl then
                  && r == Some(response) && store == old(store)[key := Entry(response, at, ttl, n + 1)]
                  && hits == old(hits) + 1 && misses == old(misses)
                else r == None && store == old(store) - {key} && hits == old(hits) && misses == old(misses) + 1
    {
      if !config.enabled {
        return None;
      }
      var key := fingerprint(req);
      if key in store {
        var e := store[key];
        if IsExpired(e, now) {
          store := store - {key};
          misses := misses + 1;
          return None;
        }
        store := store[key := Touched(e)];
        hits := hits + 1;
        return Some(e.response);
      }
      misses := misses + 1;
      return None;
    }

    /** When the cache is full some entry goes first; which one is not determined. */
    method Insert(req: Request, response: Response, now: int) returns (ghost victim: Option<nat>)
      modifies this`store
      ensures !config.enabled ==> store == old(store)
      ensures victim.Some? ==> victim.value in old(store)
      ensures config.enabled ==> (victim.Some? <==> |old(store)| >= config.maxEntries && old(store) != map[])
      ensures config.enabled ==>
                store == Inserted(old(store), victim, fingerprint(req), Entry(response, now, config.ttl, 0))
      ensures |old(store)| <= Bound(config) ==> |store| <= Bound(config)
    {
      victim := None;
      if !config.enabled {
        return;
      }
      if |store| >= config.maxEntries && store != map[] {
        var key :| key in store;
        victim := Some(key);
        store := store - {key};
      }
      store := store[fingerprint(req) := NewEntry(config, response, now)];
    }

    method Invalidate(req: Request) returns (present: bool)
      modifies this`store
      ensures present == (fingerprint(req) in old(store)) && store == old(store) - {fingerprint(req)}
    {
      present := fingerprint(req) in store;
      store := store - {fingerprint(req)};
    }
  }
}
