/** The consistent-hash pool as objects: the hasher with its maps, ring and cache, and the server pool that
    calls back into it. */
module HasherPool {
  import opened Basics
  import opened LruModel
  import opened LruCache
  import M = HasherModel

  class ConstHasher<R(!new)> {
    const ops: M.Ring<R>
    const cache: LRUCache<seq<string>>
    var hasher: R
    var hashKeyToServer: map<string, string>
    var serverToHashkey: map<string, string>
    var serverPool: CheckedServerPool?<R>

    ghost predicate Valid()
      reads this, cache, cache.list, serverPool
    {
      cache.Valid() && serverPool != null && serverPool.actions == this
    }

    ghost function Model(): (h: M.Hasher<R>)
      requires Valid()
      reads this, cache, cache.list, serverPool
    {
      M.Hasher(hasher, hashKeyToServer, serverToHashkey, serverPool.servers, serverPool.droppedServers, cache.Model())
    }

    constructor (ops: M.Ring<R>, capacity: nat)
      ensures this.ops == ops && hasher == ops.empty && hashKeyToServer == map[] && serverToHashkey == map[]
      ensures serverPool == null && fresh(cache) && cache.Valid() && cache.list == []
      ensures cache.Model() == Run(capacity, [])
    {
      this.ops := ops;
      cache := new LRUCache(capacity);
      hasher := ops.empty;
      hashKeyToServer, serverToHashkey, serverPool := map[], map[], null;
    }

    static method Create(ops: M.Ring<R>, capacity: nat, downPolicy: string) returns (h: ConstHasher<R>)
      ensures fresh(h) && h.Valid() && h.ops == ops && h.Model() == M.Start(ops, capacity)
      ensures fresh(h.cache) && fresh(h.serverPool) && h.serverPool.downPolicy == downPolicy && h.cache.list == []
    {
      h := new ConstHasher(ops, capacity);
      h.serverPool := new CheckedServerPool(h, downPolicy);
    }

    method OnServerUp(url: string)
      requires Valid()
      modifies `hasher, cache
      ensures Valid() && Model() == M.ServerUp(ops, old(Model()), url) && cache.list == []
    {
      var hashKey := if url in serverToHashkey then serverToHashkey[url] else "";
      hasher := ops.add(hasher, hashKey);
      cache.Clear();
    }

    method OnServerDown(url: string)
      requires Valid()
      modifies `hasher, cache
      ensures Valid() && Model() == M.ServerDown(ops, old(Model()), url) && cache.list == []
    {
      var hashKey := if url in serverToHashkey then serverToHashkey[url] else "";
      hasher := ops.remove(hasher, hashKey);
      cache.Clear();
    }

    method PurgeServer(url: string) returns (ok: bool)
      requires Valid()
      modifies this, cache, serverPool
      ensures Valid() && serverPool == old(serverPool) && Model() == M.PurgeServer(ops, old(Model()), url)
      ensures ok == (url in old(serverToHashkey))
      ensures forall x :: x in cache.list ==> x in old(cache.list)
    {
      hide M.PurgeActive, M.Others;
      if url !in serverToHashkey {
        return false;
      }
      var did := serverPool.PurgeServer(url);
      var hashkey := serverToHashkey[url];
      hashKeyToServer := hashKeyToServer - {hashkey};
      serverToHashkey := serverToHashkey - {url};
      ok := true;
    }

    method AddServer(url: string, hashkey: string)
      requires Valid()
      modifies this, cache, serverPool
      ensures Valid() && serverPool == old(serverPool) && Model() == M.AddServer(ops, old(Model()), url, hashkey)
      ensures forall x :: x in cache.list ==> x in old(cache.list)
    {
      if url in serverToHashkey {
        return;
      }
      serverToHashkey := serverToHashkey[url := hashkey];
      hashKeyToServer := hashKeyToServer[hashkey := url];
      serverPool.AddServer(url);
    }

    /** The list comes from the cache or the ring; an error is reported on a miss only. */
    method GetN(key: string, num: int) returns (servers: seq<string>, err: bool)
      requires Valid()
      modifies cache, cache.list
      ensures Valid() && Model() == M.Ask(ops, old(Model()), key, num)
      ensures servers == M.Answer(ops, old(Model()), key, num)
      ensures err <==> !Has(old(Model()).cache.items, M.CompositeKey(key, num)) && ops.getN(old(hasher), key, num).1
      ensures forall x :: x in cache.list ==> x in old(cache.list) || fresh(x)
      ensures M.Coherent(ops, old(Model())) && 0 <= num < 65536 ==>
              && M.Coherent(ops, Model())
              && M.Answers(hashKeyToServer, ops.getN(hasher, key, num).0, servers)
    {
      hide Has, Lookup, Drop, Evict, Sum, Distinct, M.Coherent, M.CompositeKey, ItemsOf, Keyed, Sound, Stored;
      var cacheKey := M.CompositeKey(key, num);
      if 0 <= num < 65536 && M.Coherent(ops, Model()) {
        M.AskCoherent(ops, Model(), key, num);
      }
      var srv := cache.Get(cacheKey);
      if srv.None? {
        var found := ops.getN(hasher, key, num);
        servers := RealServers(found.0);
        var gone := cache.Set(cacheKey, servers, |servers|);
        err := found.1;
      } else {
        servers, err := srv.value, false;
      }
    }

    method RealServers(keys: seq<string>) returns (servers: seq<string>)
      ensures servers == M.Named(hashKeyToServer, keys)
    {
      servers := [];
      for i := 0 to |keys|
        invariant |servers| == i && forall j :: 0 <= j < i ==> servers[j] == M.At(hashKeyToServer, keys[j])
      {
        servers := servers + [if keys[i] in hashKeyToServer then hashKeyToServer[keys[i]] else ""];
      }
    }
  }

  class CheckedServerPool<R(!new)> {
    const actions: ConstHasher<R>
    const downPolicy: string
    var servers: seq<string>
    var droppedServers: seq<string>

    ghost predicate Valid()
      reads this, actions, actions.cache, actions.cache.list
    {
      actions.serverPool == this && actions.Valid()
    }

    constructor (actions: ConstHasher<R>, downPolicy: string)
      ensures this.actions == actions && this.downPolicy == downPolicy && servers == [] && droppedServers == []
    {
      this.actions, this.downPolicy := actions, downPolicy;
      servers, droppedServers := [], [];
    }

    method ReAddAllDroppedServers()
      requires Valid()
      modifies this, actions`hasher, actions.cache
      ensures Valid()
      ensures actions.Model() == M.ReAddAll(actions.ops, old(actions.Model()), downPolicy == "remove_node")
      ensures forall x :: x in actions.cache.list ==> x in old(actions.cache.list)
    {
      hide M.ServerUp, ItemsOf, Keyed, Sound;
      var newServers := servers;
      ghost var goal := M.AllUp(actions.ops, actions.Model(), droppedServers);
      ghost var start := actions.Model();
      for idx := 0 to |droppedServers|
        invariant Valid() && servers == old(servers) && droppedServers == old(droppedServers)
        invariant newServers == servers + droppedServers[..idx]
        invariant downPolicy == "remove_node" ==>
                    M.AllUp(actions.ops, actions.Model(), droppedServers[idx..]) == goal
        invariant downPolicy != "remove_node" ==> actions.Model() == start
        invariant forall x :: x in actions.cache.list ==> x in old(actions.cache.list)
      {
        assert droppedServers[idx..][1..] == droppedServers[idx + 1..];
        if downPolicy == "remove_node" {
          actions.OnServerUp(droppedServers[idx]);
        }
        newServers := newServers + [droppedServers[idx]];
      }
      droppedServers := [];
      servers := newServers;
    }

    method AddServer(url: string)
      requires Valid()
      modifies this, actions`hasher, actions.cache
      ensures Valid()
      ensures actions.Model() == M.ServerUp(actions.ops, old(actions.Model()), url).(servers := old(servers) + [url])
      ensures actions.cache.list == []
    {
      actions.OnServerUp(url);
      servers := servers + [url];
    }

    method PurgeServer(url: string) returns (did: bool)
      requires Valid()
      modifies this, actions`hasher, actions.cache
      ensures Valid() && did == (url in old(servers))
      ensures actions.Model() ==
              M.PurgeActive(actions.ops, old(actions.Model()), old(servers), url)
              .(servers := M.Others(old(servers), url))
      ensures forall x :: x in actions.cache.list ==> x in old(actions.cache.list)
    {
      hide M.ServerDown, ItemsOf, Keyed, Sound;
      var newServers: seq<string> := [];
      did := false;
      ghost var goal := M.PurgeActive(actions.ops, actions.Model(), servers, url);
      for idx := 0 to |servers|
        invariant Valid() && servers == old(servers) && droppedServers == old(droppedServers)
        invariant M.PurgeActive(actions.ops, actions.Model(), servers[idx..], url) == goal
        invariant newServers + M.Others(servers[idx..], url) == M.Others(servers, url)
        invariant did == (url in servers[..idx])
        invariant forall x :: x in actions.cache.list ==> x in old(actions.cache.list)
      {
        assert servers[idx..][1..] == servers[idx + 1..];
        if servers[idx] == url {
          actions.OnServerDown(servers[idx]);
          did := true;
        } else {
          newServers := newServers + [servers[idx]];
        }
      }
      assert servers[|servers|..] == [];
      servers := newServers;
    }

    /** `at` is the position the given pointer has in the active list, past its end if it has none. */
    method DropServer(at: nat)
      requires Valid()
      modifies this, actions`hasher, actions.cache
      ensures Valid()
      ensures actions.Model() == M.DropServer(actions.ops, old(actions.Model()), downPolicy == "remove_node", at)
      ensures forall x :: x in actions.cache.list ==> x in old(actions.cache.list)
    {
      hide Step, ItemsOf, Keyed, Sound;
      var newServers: seq<string> := [];
      ghost var start := actions.Model();
      for idx := 0 to |servers|
        invariant Valid() && servers == old(servers)
        invariant newServers == if idx <= at then servers[..idx] else servers[..at] + servers[at + 1..idx]
        invariant actions.Model() ==
                  if idx <= at then start
                  else (if downPolicy == "remove_node" then M.ServerDown(actions.ops, start, servers[at]) else start)
                       .(dropped := start.dropped + [servers[at]])
        invariant forall x :: x in actions.cache.list ==> x in old(actions.cache.list)
      {
        if idx == at {
          droppedServers := droppedServers + [servers[idx]];
          if downPolicy == "remove_node" {
            actions.OnServerDown(servers[idx]);
          }
        } else {
          newServers := newServers + [servers[idx]];
        }
      }
      servers := newServers;
    }
  }
}
