/** The consistent-hash pool as values: the ring, the two server maps, the active and dropped servers and
    the lookup cache, and what holds after any run of pool changes and lookups. */
module HasherModel {
  import opened Basics
  import Bits
  import opened LruModel

  /** The ring library: a state, adding and removing a member, and a lookup that may fail. */
  datatype Ring<!R> = Ring(empty: R, add: (R, string) -> R, remove: (R, string) -> R,
                           members: R -> set<string>, getN: (R, string, int) -> (seq<string>, bool))

  /** What is relied on: add and remove change the members by that member only, and a lookup returns
      members. */
  ghost predicate Laws<R(!new)>(ops: Ring<R>)
  {
    && ops.members(ops.empty) == {}
    && (forall r, k :: ops.members(ops.add(r, k)) == ops.members(r) + {k})
    && (forall r, k :: ops.members(ops.remove(r, k)) == ops.members(r) - {k})
    && (forall r, k, n, x :: x in ops.getN(r, k, n).0 ==> x in ops.members(r))
  }

  datatype Hasher<R> = Hasher(ring: R, keyToServer: map<string, string>, serverToKey: map<string, string>,
                              servers: seq<string>, dropped: seq<string>, cache: Cache<seq<string>>)

  /** A lookup in a map of strings: the empty string where there is no entry. */
  function At(m: map<string, string>, k: string): (v: string)
  {
    if k in m then m[k] else ""
  }

  function ServerUp<R>(ops: Ring<R>, h: Hasher<R>, url: string): (g: Hasher<R>)
  {
    h.(ring := ops.add(h.ring, At(h.serverToKey, url)), cache := Step(h.cache, Clear))
  }

  function ServerDown<R>(ops: Ring<R>, h: Hasher<R>, url: string): (g: Hasher<R>)
  {
    h.(ring := ops.remove(h.ring, At(h.serverToKey, url)), cache := Step(h.cache, Clear))
  }

  function AllUp<R>(ops: Ring<R>, h: Hasher<R>, urls: seq<string>): (g: Hasher<R>)
    ensures g == h.(ring := g.ring, cache := g.cache)
    decreases |urls|
  {
    if |urls| == 0 then h else AllUp(ops, ServerUp(ops, h, urls[0]), urls[1..])
  }

  function AddServer<R>(ops: Ring<R>, h: Hasher<R>, url: string, key: string): (g: Hasher<R>)
  {
    if url in h.serverToKey then h
    else
      var g := h.(serverToKey := h.serverToKey[url := key], keyToServer := h.keyToServer[key := url]);
      ServerUp(ops, g, url).(servers := g.servers + [url])
  }

  function Others(servers: seq<string>, url: string): (rest: seq<string>)
    ensures forall s :: s in rest <==> s in servers && s != url
    decreases |servers|
  {
    if |servers| == 0 then []
    else if servers[0] == url then Others(servers[1..], url)
    else [servers[0]] + Others(servers[1..], url)
  }

  /** One `ServerDown` for each active server with that URL. */
  function PurgeActive<R>(ops: Ring<R>, h: Hasher<R>, servers: seq<string>, url: string): (g: Hasher<R>)
    ensures g == h.(ring := g.ring, cache := g.cache)
    decreases |servers|
  {
    if |servers| == 0 then h
    else PurgeActive(ops, if servers[0] == url then ServerDown(ops, h, url) else h, servers[1..], url)
  }

  function PurgeServer<R>(ops: Ring<R>, h: Hasher<R>, url: string): (g: Hasher<R>)
  {
    if url !in h.serverToKey then h
    else
      var g := PurgeActive(ops, h, h.servers, url).(servers := Others(h.servers, url));
      g.(keyToServer := g.keyToServer - {g.serverToKey[url]}, serverToKey := g.serverToKey - {url})
  }

  /** Drops the server at a position of the active list; a pointer into an older list matches none. */
  function DropServer<R>(ops: Ring<R>, h: Hasher<R>, removeNode: bool, at: nat): (g: Hasher<R>)
  {
    if at >= |h.servers| then h
    else
      var url := h.servers[at];
      var g := if removeNode then ServerDown(ops, h, url) else h;
      g.(servers := h.servers[..at] + h.servers[at + 1..], dropped := h.dropped + [url])
  }

  function ReAddAll<R>(ops: Ring<R>, h: Hasher<R>, removeNode: bool): (g: Hasher<R>)
  {
    var g := if removeNode then AllUp(ops, h, h.dropped) else h;
    g.(servers := h.servers + h.dropped, dropped := [])
  }

  /** The key under which a lookup is cached: the key, a colon, and the number as two bytes. */
  function CompositeKey(key: string, num: int): (k: string)
  {
    key + [':', ((num % 256) as char), ((num / 256 % 256) as char)]
  }

  function Named(m: map<string, string>, keys: seq<string>): (names: seq<string>)
    ensures |names| == |keys| && forall i :: 0 <= i < |keys| ==> names[i] == At(m, keys[i])
    decreases |keys|
  {
    if |keys| == 0 then [] else [At(m, keys[0])] + Named(m, keys[1..])
  }

  /** The answer without the cache: the ring's members for the key, as servers. */
  function Fresh<R>(ops: Ring<R>, h: Hasher<R>, key: string, num: int): (names: seq<string>)
  {
    Named(h.keyToServer, ops.getN(h.ring, key, num).0)
  }

  /** What a lookup returns. */
  function Answer<R>(ops: Ring<R>, h: Hasher<R>, key: string, num: int): (names: seq<string>)
  {
    var k := CompositeKey(key, num);
    if Has(h.cache.items, k) then Lookup(h.cache.items, k).value else Fresh(ops, h, key, num)
  }

  /** A lookup touches the cache, or fills it on a miss, whether or not the ring reported an error. */
  function Ask<R>(ops: Ring<R>, h: Hasher<R>, key: string, num: int): (g: Hasher<R>)
  {
    var k := CompositeKey(key, num);
    if Has(h.cache.items, k) then h.(cache := Step(h.cache, Get(k)))
    else
      var names := Fresh(ops, h, key, num);
      h.(cache := Step(Step(h.cache, Get(k)), Set(k, names, |names|)))
  }

  datatype Event = Add(url: string, key: string) | Drop(at: nat) | ReAdd | Purge(url: string)
                 | GetN(key: string, num: int)

  function Next<R>(ops: Ring<R>, h: Hasher<R>, removeNode: bool, e: Event): (g: Hasher<R>)
  {
    match e
    case Add(url, key) => AddServer(ops, h, url, key)
    case Drop(at) => DropServer(ops, h, removeNode, at)
    case ReAdd => ReAddAll(ops, h, removeNode)
    case Purge(url) => PurgeServer(ops, h, url)
    case GetN(key, num) => Ask(ops, h, key, num)
  }

  /** A new server has a hash key of its own, a dropped server is not purged, and lookups ask for fewer
      than 65536 servers. */
  predicate Proper<R>(h: Hasher<R>, e: Event)
  {
    match e
    case Add(url, key) => url in h.serverToKey || key !in h.keyToServer
    case Purge(url) => url !in h.dropped
    case GetN(_, num) => 0 <= num < 65536
    case Drop(_) => true
    case ReAdd => true
  }

  predicate ProperRun<R>(ops: Ring<R>, h: Hasher<R>, removeNode: bool, es: seq<Event>)
    decreases |es|
  {
    |es| == 0 || (Proper(h, es[0]) && ProperRun(ops, Next(ops, h, removeNode, es[0]), removeNode, es[1..]))
  }

  function After<R>(ops: Ring<R>, h: Hasher<R>, removeNode: bool, es: seq<Event>): (g: Hasher<R>)
    decreases |es|
  {
    if |es| == 0 then h else After(ops, Next(ops, h, removeNode, es[0]), removeNode, es[1..])
  }

  function Start<R>(ops: Ring<R>, capacity: nat): (h: Hasher<R>)
  {
    Hasher(ops.empty, map[], map[], [], [], Cache([], 0, capacity))
  }

  // The cache agrees with the ring

  /** Two lookups share a cache entry exactly when the keys are equal and the numbers agree modulo 65536. */
  lemma CompositeInjective(key: string, num: int, key': string, num': int)
    ensures CompositeKey(key, num) == CompositeKey(key', num') <==> key == key' && num % 65536 == num' % 65536
  {
    var a, b := CompositeKey(key, num), CompositeKey(key', num');
    Digits(num);
    Digits(num');
    if a == b {
      assert |key| == |key'|;
      assert key == a[..|key|] && key' == b[..|key'|];
      assert a[|key| + 1] == b[|key| + 1] && a[|key| + 2] == b[|key| + 2];
      assert num % 256 == num' % 256;
      assert num / 256 % 256 == num' / 256 % 256;
    }
    if num % 65536 == num' % 65536 {
      assert num % 256 == num' % 256 && num / 256 % 256 == num' / 256 % 256;
    }
  }

  lemma Digits(num: int)
    ensures num % 65536 == num / 256 % 256 * 256 + num % 256
    ensures num % 256 == num % 65536 % 256 && num / 256 % 256 == num % 65536 / 256
  {
    var q := num / 256;
    assert num == 256 * q + num % 256;
    assert q == 256 * (q / 256) + q % 256;
    assert num == 65536 * (q / 256) + (q % 256 * 256 + num % 256);
    Bits.DivModUnique(num, 65536, q / 256, q % 256 * 256 + num % 256);
    Bits.DivModUnique(num % 65536, 256, q % 256, num % 256);
  }

  /** Every cached answer is the one the ring gives now. */
  ghost predicate Coherent<R>(ops: Ring<R>, h: Hasher<R>)
  {
    forall key: string, num: int :: 0 <= num < 65536 && Has(h.cache.items, CompositeKey(key, num)) ==>
      Lookup(h.cache.items, CompositeKey(key, num)).value == Fresh(ops, h, key, num)
  }

  lemma ClearedCoherent<R>(ops: Ring<R>, h: Hasher<R>)
    requires h.cache.items == []
    ensures Coherent(ops, h)
  {
  }

  lemma AskCoherent<R>(ops: Ring<R>, h: Hasher<R>, key: string, num: int)
    requires Coherent(ops, h) && 0 <= num < 65536
    ensures Coherent(ops, Ask(ops, h, key, num))
    ensures Answer(ops, h, key, num) == Fresh(ops, h, key, num)
    ensures Answers(h.keyToServer, ops.getN(h.ring, key, num).0, Answer(ops, h, key, num))
  {
    FreshAnswers(ops, h, key, num);
    hide Fresh, Has, Lookup, CompositeKey, Evict;
    var k := CompositeKey(key, num);
    var g := Ask(ops, h, key, num);
    forall key': string, num': int | 0 <= num' < 65536 && Has(g.cache.items, CompositeKey(key', num'))
      ensures Lookup(g.cache.items, CompositeKey(key', num')).value == Fresh(ops, g, key', num')
    {
      var k' := CompositeKey(key', num');
      CompositeInjective(key, num, key', num');
      FreshSame(ops, h, g, key', num');
      TouchKeeps(h.cache, k, k');
      if !Has(h.cache.items, k) {
        var names := Fresh(ops, h, key, num);
        StoredKeeps(Step(h.cache, Get(k)), k, names, |names|, k');
      }
    }
  }

  /** The names are those of the servers with these hash keys, one for one. */
  ghost predicate Answers(m: map<string, string>, keys: seq<string>, names: seq<string>)
  {
    && |names| == |keys|
    && (forall i :: 0 <= i < |keys| ==> names[i] == if keys[i] in m then m[keys[i]] else "")
  }

  lemma FreshAnswers<R>(ops: Ring<R>, h: Hasher<R>, key: string, num: int)
    ensures Answers(h.keyToServer, ops.getN(h.ring, key, num).0, Fresh(ops, h, key, num))
  {
  }

  lemma FreshSame<R>(ops: Ring<R>, h: Hasher<R>, g: Hasher<R>, key: string, num: int)
    requires g.ring == h.ring && g.keyToServer == h.keyToServer
    ensures Fresh(ops, g, key, num) == Fresh(ops, h, key, num)
  {
  }

  /** The second of two lookups that share a cache entry returns what the first one asked for. */
  lemma LargeNumbersCollide<R>(ops: Ring<R>, h: Hasher<R>, key: string, num: int, num': int)
    requires num % 65536 == num' % 65536 && !Has(h.cache.items, CompositeKey(key, num))
    requires Has(Ask(ops, h, key, num).cache.items, CompositeKey(key, num))
    ensures Answer(ops, Ask(ops, h, key, num), key, num') == Fresh(ops, h, key, num)
  {
    hide Fresh, Has, Lookup, CompositeKey, Evict;
    var k := CompositeKey(key, num);
    CompositeInjective(key, num, key, num');
    var names := Fresh(ops, h, key, num);
    StoredKeeps(Step(h.cache, Get(k)), k, names, |names|, k);
  }

  /** A ring over one key that has no answer for one number of servers. */
  function Silent(num: int): (ops: Ring<set<string>>)
    ensures Laws(ops)
  {
    Ring({}, (r: set<string>, k: string) => r + {k}, (r: set<string>, k: string) => r - {k}, (r: set<string>) => r,
         (r: set<string>, _: string, n: int) => (if n != num && "a" in r then ["a"] else [], false))
  }

  /** For any two different numbers equal modulo 65536 there is a ring, and for every cache capacity, policy
      and key a run of one add and one lookup, after which the lookup of the second number is wrong. So the
      guard `0 <= num < 65536` of `Proper` cannot be widened by any number. */
  lemma LargeNumbersBreak(num: int, num': int, capacity: nat, removeNode: bool, url: string, key: string)
    requires num != num' && num % 65536 == num' % 65536
    ensures var ops := Silent(num);
            var h := After(ops, Start(ops, capacity), removeNode, [Add(url, "a"), GetN(key, num)]);
            Answer(ops, h, key, num') == [] && Fresh(ops, h, key, num') == [url]
  {
    hide CompositeKey, Laws;
    var ops := Silent(num);
    var e, f := Add(url, "a"), GetN(key, num);
    assert [e, f][1..] == [f] && [f][1..] == [];
    var h0 := AddServer(ops, Start(ops, capacity), url, "a");
    assert h0.keyToServer["a"] == url && "a" in h0.ring;
    var k := CompositeKey(key, num);
    assert Fresh(ops, h0, key, num) == [];
    var h := Ask(ops, h0, key, num);
    assert h.cache.items == [Item(k, [], 0)];
    assert After(ops, h0, removeNode, [f]) == h;
    LargeNumbersCollide(ops, h0, key, num, num');
    assert ops.getN(h.ring, key, num').0 == ["a"];
    assert Named(h.keyToServer, ["a"]) == [url];
  }

  // The ring agrees with the pool

  /** The servers whose keys belong in the ring: the active ones, and the dropped ones too unless the
      policy takes a down server out of the ring. */
  predicate Live<R>(h: Hasher<R>, removeNode: bool, s: string)
  {
    s in h.servers || (!removeNode && s in h.dropped)
  }

  /** The two maps are inverse to each other and list exactly the pool's servers. */
  ghost predicate Paired<R>(h: Hasher<R>)
  {
    && (forall s :: s in h.serverToKey <==> s in h.servers || s in h.dropped)
    && (forall s :: s in h.serverToKey ==>
          h.serverToKey[s] in h.keyToServer && h.keyToServer[h.serverToKey[s]] == s)
    && (forall k :: k in h.keyToServer ==>
          h.keyToServer[k] in h.serverToKey && h.serverToKey[h.keyToServer[k]] == k)
  }

  function AllServers<R>(h: Hasher<R>): (m: multiset<string>)
  {
    multiset(h.servers) + multiset(h.dropped)
  }

  /** No server is listed twice, so none is both active and dropped. */
  ghost predicate NoTwice<R>(h: Hasher<R>)
  {
    forall s :: AllServers(h)[s] <= 1
  }

  /** The ring's members are exactly the hash keys of the live servers. */
  ghost predicate RingIs<R>(ops: Ring<R>, h: Hasher<R>, removeNode: bool)
  {
    forall k :: k in ops.members(h.ring) <==> k in h.keyToServer && Live(h, removeNode, h.keyToServer[k])
  }

  ghost predicate Agree<R>(ops: Ring<R>, h: Hasher<R>, removeNode: bool)
  {
    Paired(h) && NoTwice(h) && RingIs(ops, h, removeNode)
  }

  lemma Unlisted(s: seq<string>, x: string)
    ensures multiset(s)[x] == 0 <==> x !in s
  {
  }

  lemma AddAgree<R(!new)>(ops: Ring<R>, h: Hasher<R>, removeNode: bool, url: string, key: string)
    requires Laws(ops) && Agree(ops, h, removeNode) && url !in h.serverToKey && key !in h.keyToServer
    ensures Agree(ops, AddServer(ops, h, url, key), removeNode)
  {
    hide Step;
    var g := AddServer(ops, h, url, key);
    assert url !in h.servers && url !in h.dropped;
    forall s ensures AllServers(g)[s] <= 1 {
      Unlisted(h.servers, url);
      Unlisted(h.dropped, url);
      assert AllServers(h)[s] <= 1;
    }
    assert ops.members(g.ring) == ops.members(h.ring) + {key};
  }

  /** Adding a server keeps pool, maps and ring in agreement exactly when it is known already or its hash key
      is not in use. */
  lemma AddExactly<R(!new)>(ops: Ring<R>, h: Hasher<R>, removeNode: bool, url: string, key: string)
    requires Laws(ops) && Agree(ops, h, removeNode)
    ensures Agree(ops, AddServer(ops, h, url, key), removeNode) <==> url in h.serverToKey || key !in h.keyToServer
  {
    hide Laws, Step;
    if url !in h.serverToKey {
      if key in h.keyToServer {
        var g, was := AddServer(ops, h, url, key), h.keyToServer[key];
        assert was != url && g.serverToKey[was] == key && g.keyToServer[key] == url;
        assert !Paired(g);
      } else {
        AddAgree(ops, h, removeNode, url, key);
      }
    }
  }

  /** Dropping a server and bringing the dropped ones back conserve the servers of the pool. */
  lemma DropConserves<R>(ops: Ring<R>, h: Hasher<R>, removeNode: bool, at: nat)
    ensures AllServers(DropServer(ops, h, removeNode, at)) == AllServers(h)
    ensures at < |h.servers| && NoTwice(h) ==>
            forall s :: s in DropServer(ops, h, removeNode, at).servers <==> s in h.servers && s != h.servers[at]
  {
    if at < |h.servers| {
      var a, b, url := h.servers[..at], h.servers[at + 1..], h.servers[at];
      assert h.servers == a + [url] + b;
      var g := DropServer(ops, h, removeNode, at);
      assert g.servers == a + b && g.dropped == h.dropped + [url];
      assert multiset(h.servers) == multiset(a) + multiset{url} + multiset(b);
      if NoTwice(h) {
        assert AllServers(h)[url] <= 1;
        Unlisted(g.servers, url);
      }
    }
  }

  lemma ReAddConserves<R>(ops: Ring<R>, h: Hasher<R>, removeNode: bool)
    ensures AllServers(ReAddAll(ops, h, removeNode)) == AllServers(h)
  {
  }

  lemma DropAgree<R(!new)>(ops: Ring<R>, h: Hasher<R>, removeNode: bool, at: nat)
    requires Laws(ops) && Agree(ops, h, removeNode) && at < |h.servers|
    ensures Agree(ops, DropServer(ops, h, removeNode, at), removeNode)
  {
    hide Step;
    var url := h.servers[at];
    var g := DropServer(ops, h, removeNode, at);
    DropConserves(ops, h, removeNode, at);
    assert url in h.servers;
    assert forall s :: s in g.dropped <==> s in h.dropped || s == url;
    assert Paired(g);
    hide DropServer, AllServers;
    DropRing(ops, h, g, removeNode, url);
  }

  lemma DropRing<R(!new)>(ops: Ring<R>, h: Hasher<R>, g: Hasher<R>, removeNode: bool, url: string)
    requires Paired(h) && NoTwice(h) && RingIs(ops, h, removeNode) && url in h.servers
    requires g.keyToServer == h.keyToServer
    requires ops.members(g.ring) ==
             ops.members(h.ring) - (if removeNode then {h.serverToKey[url]} else {})
    requires forall s :: s in g.servers <==> s in h.servers && s != url
    requires forall s :: s in g.dropped <==> s in h.dropped || s == url
    ensures RingIs(ops, g, removeNode)
  {
  }

  lemma {:induction false} AllUpRing<R(!new)>(ops: Ring<R>, h: Hasher<R>, urls: seq<string>)
    requires Laws(ops)
    ensures var g := AllUp(ops, h, urls);
            && (forall k :: k in ops.members(g.ring) <==>
                  k in ops.members(h.ring) || exists i :: 0 <= i < |urls| && At(h.serverToKey, urls[i]) == k)
            && (if |urls| == 0 then g == h else g.cache.items == [])
    decreases |urls|
  {
    if |urls| > 0 {
      var m := ServerUp(ops, h, urls[0]);
      AllUpRing(ops, m, urls[1..]);
      AllUpCache(ops, m, urls[1..]);
      var g := AllUp(ops, h, urls);
      forall k ensures k in ops.members(g.ring) <==>
                         k in ops.members(h.ring) || exists i :: 0 <= i < |urls| && At(h.serverToKey, urls[i]) == k
      {
        if i :| 0 <= i < |urls[1..]| && At(m.serverToKey, urls[1..][i]) == k {
          assert At(h.serverToKey, urls[i + 1]) == k;
        }
        if i :| 1 <= i < |urls| && At(h.serverToKey, urls[i]) == k {
          assert At(m.serverToKey, urls[1..][i - 1]) == k;
        }
      }
    }
  }

  lemma {:induction false} AllUpCache<R>(ops: Ring<R>, h: Hasher<R>, urls: seq<string>)
    requires h.cache.items == []
    ensures AllUp(ops, h, urls).cache.items == []
    decreases |urls|
  {
    if |urls| > 0 {
      AllUpCache(ops, ServerUp(ops, h, urls[0]), urls[1..]);
    }
  }

  lemma ReAddAgree<R(!new)>(ops: Ring<R>, h: Hasher<R>, removeNode: bool)
    requires Laws(ops) && Agree(ops, h, removeNode)
    ensures Agree(ops, ReAddAll(ops, h, removeNode), removeNode)
  {
    hide AllUp;
    var g := ReAddAll(ops, h, removeNode);
    ReAddConserves(ops, h, removeNode);
    AllUpRing(ops, h, h.dropped);
    assert Paired(g);
    assert forall s :: Live(g, removeNode, s) <==> s in h.servers || s in h.dropped;
    forall k ensures k in ops.members(g.ring) <==> k in g.keyToServer && Live(g, removeNode, g.keyToServer[k]) {
      if removeNode && k in h.keyToServer && h.keyToServer[k] in h.dropped {
        var i :| 0 <= i < |h.dropped| && h.dropped[i] == h.keyToServer[k];
        assert At(h.serverToKey, h.dropped[i]) == k;
      }
    }
  }

  lemma {:induction false} PurgeActiveRing<R(!new)>(ops: Ring<R>, h: Hasher<R>, servers: seq<string>, url: string)
    requires Laws(ops)
    ensures var g := PurgeActive(ops, h, servers, url);
            if url in servers then
              ops.members(g.ring) == ops.members(h.ring) - {At(h.serverToKey, url)} && g.cache.items == []
            else g == h
    decreases |servers|
  {
    if |servers| > 0 {
      PurgeActiveRing(ops, if servers[0] == url then ServerDown(ops, h, url) else h, servers[1..], url);
    }
  }

  lemma {:induction false} OthersCount(servers: seq<string>, url: string)
    ensures forall s :: multiset(Others(servers, url))[s] == if s == url then 0 else multiset(servers)[s]
    decreases |servers|
  {
    if |servers| > 0 {
      OthersCount(servers[1..], url);
      assert servers == [servers[0]] + servers[1..];
    }
  }

  lemma PurgeAgree<R(!new)>(ops: Ring<R>, h: Hasher<R>, removeNode: bool, url: string)
    requires Laws(ops) && Agree(ops, h, removeNode) && url in h.servers
    ensures Agree(ops, PurgeServer(ops, h, url), removeNode) && PurgeServer(ops, h, url).cache.items == []
  {
    hide PurgeActive, Others, Laws;
    var g := PurgeServer(ops, h, url);
    assert AllServers(h)[url] <= 1;
    Unlisted(h.servers, url);
    Unlisted(h.dropped, url);
    PurgeActiveRing(ops, h, h.servers, url);
    PurgeNoTwice(h, g, url);
    hide NoTwice;
    PurgePaired(h, g, url);
    PurgeRing(ops, h, g, removeNode, url);
  }

  lemma PurgeNoTwice<R>(h: Hasher<R>, g: Hasher<R>, url: string)
    requires NoTwice(h) && g.servers == Others(h.servers, url) && g.dropped == h.dropped
    ensures NoTwice(g)
  {
    OthersCount(h.servers, url);
    forall s ensures AllServers(g)[s] <= 1 {
      assert AllServers(h)[s] <= 1;
    }
  }

  lemma PurgePaired<R>(h: Hasher<R>, g: Hasher<R>, url: string)
    requires Paired(h) && url in h.servers && url !in h.dropped
    requires g.servers == Others(h.servers, url) && g.dropped == h.dropped
    requires g.keyToServer == h.keyToServer - {h.serverToKey[url]} && g.serverToKey == h.serverToKey - {url}
    ensures Paired(g)
  {
    hide Others;
  }

  lemma PurgeRing<R>(ops: Ring<R>, h: Hasher<R>, g: Hasher<R>, removeNode: bool, url: string)
    requires Paired(h) && RingIs(ops, h, removeNode) && url in h.servers && url !in h.dropped
    requires g.servers == Others(h.servers, url) && g.dropped == h.dropped
    requires g.keyToServer == h.keyToServer - {h.serverToKey[url]}
    requires ops.members(g.ring) == ops.members(h.ring) - {h.serverToKey[url]}
    ensures RingIs(ops, g, removeNode)
  {
    hide Others;
  }

  /** A purge keeps pool, maps and ring in agreement exactly when the server is not a dropped one: a
      dropped server stays on its list without a hash key. */
  lemma PurgeExactly<R(!new)>(ops: Ring<R>, h: Hasher<R>, removeNode: bool, url: string)
    requires Laws(ops) && Agree(ops, h, removeNode)
    ensures Agree(ops, PurgeServer(ops, h, url), removeNode) <==> url !in h.dropped
  {
    hide PurgeActive, Others;
    if url in h.servers {
      assert AllServers(h)[url] <= 1;
      Unlisted(h.servers, url);
      Unlisted(h.dropped, url);
      PurgeAgree(ops, h, removeNode, url);
    } else if url in h.dropped {
      assert url in PurgeServer(ops, h, url).dropped && url !in PurgeServer(ops, h, url).serverToKey;
    }
  }

  lemma AgreeSame<R>(ops: Ring<R>, h: Hasher<R>, g: Hasher<R>, removeNode: bool)
    requires Agree(ops, h, removeNode) && g == h.(cache := g.cache)
    ensures Agree(ops, g, removeNode)
  {
    assert AllServers(g) == AllServers(h);
  }

  lemma StepAgree<R(!new)>(ops: Ring<R>, h: Hasher<R>, removeNode: bool, e: Event)
    requires Laws(ops) && Agree(ops, h, removeNode) && Proper(h, e)
    ensures Agree(ops, Next(ops, h, removeNode, e), removeNode)
  {
    hide Laws;
    match e
    case Add(url, key) => AddExactly(ops, h, removeNode, url, key);
    case Drop(at) =>
      if at < |h.servers| {
        DropAgree(ops, h, removeNode, at);
      }
    case ReAdd => ReAddAgree(ops, h, removeNode);
    case Purge(url) => PurgeExactly(ops, h, removeNode, url);
    case GetN(key, num) => AgreeSame(ops, h, Ask(ops, h, key, num), removeNode);
  }

  lemma CoherentSame<R>(ops: Ring<R>, h: Hasher<R>, g: Hasher<R>)
    requires Coherent(ops, h) && g.ring == h.ring && g.keyToServer == h.keyToServer && g.cache == h.cache
    ensures Coherent(ops, g)
  {
    hide Fresh, Has, Lookup, CompositeKey;
    forall key: string, num: int | 0 <= num < 65536 && Has(g.cache.items, CompositeKey(key, num))
      ensures Lookup(g.cache.items, CompositeKey(key, num)).value == Fresh(ops, g, key, num)
    {
      FreshSame(ops, h, g, key, num);
    }
  }

  lemma StepCoherent<R(!new)>(ops: Ring<R>, h: Hasher<R>, removeNode: bool, e: Event)
    requires Laws(ops) && Paired(h) && Coherent(ops, h) && Proper(h, e)
    ensures Coherent(ops, Next(ops, h, removeNode, e))
  {
    hide Coherent, Laws, PurgeActive, Others, AllUp, Ask, Step;
    var g := Next(ops, h, removeNode, e);
    match e
    case GetN(key, num) => AskCoherent(ops, h, key, num);
    case ReAdd =>
      AllUpRing(ops, h, h.dropped);
      if !removeNode || |h.dropped| == 0 {
        CoherentSame(ops, h, g);
      } else {
        ClearedCoherent(ops, g);
      }
    case Add(url, key) => ChangedCoherent(ops, h, g);
    case Drop(at) => ChangedCoherent(ops, h, g);
    case Purge(url) =>
      PurgeActiveRing(ops, h, h.servers, url);
      if url in h.serverToKey {
        ClearedCoherent(ops, g);
      }
  }

  lemma ChangedCoherent<R>(ops: Ring<R>, h: Hasher<R>, g: Hasher<R>)
    requires Coherent(ops, h)
    requires || (g.ring == h.ring && g.keyToServer == h.keyToServer && g.cache == h.cache)
             || g.cache == Step(h.cache, Clear)
    ensures Coherent(ops, g)
  {
    hide Coherent;
    if g.cache == Step(h.cache, Clear) {
      ClearedCoherent(ops, g);
    } else {
      CoherentSame(ops, h, g);
    }
  }

  lemma {:induction false} RunAgrees<R(!new)>(ops: Ring<R>, h: Hasher<R>, removeNode: bool, es: seq<Event>)
    requires Laws(ops) && Agree(ops, h, removeNode) && Coherent(ops, h) && ProperRun(ops, h, removeNode, es)
    ensures var g := After(ops, h, removeNode, es); Agree(ops, g, removeNode) && Coherent(ops, g)
    decreases |es|
  {
    hide Laws, Coherent, Next, Proper, RingIs, NoTwice, Paired;
    if |es| > 0 {
      StepAgree(ops, h, removeNode, es[0]);
      StepCoherent(ops, h, removeNode, es[0]);
      RunAgrees(ops, Next(ops, h, removeNode, es[0]), removeNode, es[1..]);
    }
  }

  /** After any proper run, under either down policy: the active and dropped lists are disjoint and hold
      each server once, the ring's members are exactly the hash keys of the live servers, and every lookup
      answers with the servers of the keys that the ring gives for that key and number, one for one, which are
      live servers. */
  lemma PoolRingAndCacheAgree<R(!new)>(ops: Ring<R>, capacity: nat, removeNode: bool, es: seq<Event>, key: string,
                                       num: int)
    requires Laws(ops) && ProperRun(ops, Start(ops, capacity), removeNode, es) && 0 <= num < 65536
    ensures var h := After(ops, Start(ops, capacity), removeNode, es);
            && Agree(ops, h, removeNode)
            && (forall s :: s in h.servers ==> s !in h.dropped)
            && (forall s :: s in Answer(ops, h, key, num) ==> Live(h, removeNode, s))
            && var keys := ops.getN(h.ring, key, num).0;
               && |Answer(ops, h, key, num)| == |keys|
               && (forall i :: 0 <= i < |keys| ==>
                     keys[i] in h.keyToServer && Answer(ops, h, key, num)[i] == h.keyToServer[keys[i]])
  {
    hide After, ProperRun, Coherent;
    ClearedCoherent(ops, Start(ops, capacity));
    RunAgrees(ops, Start(ops, capacity), removeNode, es);
    var h := After(ops, Start(ops, capacity), removeNode, es);
    AskCoherent(ops, h, key, num);
    AnswerLive(ops, h, removeNode, key, num);
    var keys := ops.getN(h.ring, key, num).0;
    forall i | 0 <= i < |keys| ensures keys[i] in h.keyToServer {
      assert keys[i] in keys;
    }
    forall s | s in h.servers ensures s !in h.dropped {
      assert AllServers(h)[s] <= 1;
      Unlisted(h.servers, s);
      Unlisted(h.dropped, s);
    }
  }

  lemma AnswerLive<R(!new)>(ops: Ring<R>, h: Hasher<R>, removeNode: bool, key: string, num: int)
    requires Laws(ops) && RingIs(ops, h, removeNode)
    ensures forall s :: s in Fresh(ops, h, key, num) ==> Live(h, removeNode, s)
  {
    var keys := ops.getN(h.ring, key, num).0;
    forall s | s in Fresh(ops, h, key, num) ensures Live(h, removeNode, s) {
      var i :| 0 <= i < |keys| && At(h.keyToServer, keys[i]) == s;
      assert keys[i] in keys;
    }
  }

  /** When down servers keep their place in the ring, purging a dropped one leaves cached answers that
      still name it, while the ring's answer no longer does. */
  lemma PurgeDroppedIsStale<R>(ops: Ring<R>, h: Hasher<R>, url: string, key: string, num: int)
    requires Agree(ops, h, false) && Coherent(ops, h) && 0 <= num < 65536
    requires url in h.dropped && url != "" && url in Fresh(ops, h, key, num)
    requires Has(h.cache.items, CompositeKey(key, num))
    ensures var g := PurgeServer(ops, h, url); url in Answer(ops, g, key, num) && url !in Fresh(ops, g, key, num)
  {
    hide Has, Lookup, CompositeKey;
    var g := PurgeServer(ops, h, url);
    assert AllServers(h)[url] <= 1;
    Unlisted(h.servers, url);
    Unlisted(h.dropped, url);
    InactivePurge(ops, h, h.servers, url);
    assert g.cache == h.cache;
    assert Answer(ops, g, key, num) == Fresh(ops, h, key, num);
  }

  lemma {:induction false} InactivePurge<R>(ops: Ring<R>, h: Hasher<R>, servers: seq<string>, url: string)
    requires url !in servers
    ensures PurgeActive(ops, h, servers, url) == h
    decreases |servers|
  {
    if |servers| > 0 {
      InactivePurge(ops, h, servers[1..], url);
    }
  }

  /** Purging a dropped server and re-adding leaves the ring with the empty string as its member. */
  lemma PurgeDroppedThenReAdd<R(!new)>(ops: Ring<R>, capacity: nat, url: string, key: string)
    requires Laws(ops)
    ensures var h := After(ops, Start(ops, capacity), true, [Add(url, key), Drop(0), Purge(url), ReAdd]);
            ops.members(h.ring) == {""} && h.servers == [url] && h.keyToServer == map[]
  {
    hide Laws, Step;
    var h0 := Start(ops, capacity);
    var h1 := AddServer(ops, h0, url, key);
    var h2 := DropServer(ops, h1, true, 0);
    var h3 := PurgeServer(ops, h2, url);
    var h4 := ReAddAll(ops, h3, true);
    Four(ops, h0, Add(url, key), Drop(0), Purge(url), ReAdd);
    assert h2.servers == [] && h2.dropped == [url];
    assert h3.serverToKey == map[] && h3.keyToServer == map[];
    LawsUsed(ops, key);
    assert AllUp(ops, h3, [url]) == AllUp(ops, ServerUp(ops, h3, url), [url][1..]);
    AllUpRing(ops, h3, h3.dropped);
    assert h3.ring == ops.remove(ops.add(ops.empty, key), key);
  }

  lemma LawsUsed<R(!new)>(ops: Ring<R>, key: string)
    requires Laws(ops)
    ensures ops.members(ops.remove(ops.add(ops.empty, key), key)) == {}
  {
  }

  lemma Four<R>(ops: Ring<R>, h: Hasher<R>, a: Event, b: Event, c: Event, d: Event)
    ensures After(ops, h, true, [a, b, c, d]) ==
            Next(ops, Next(ops, Next(ops, Next(ops, h, true, a), true, b), true, c), true, d)
  {
    hide Next;
    assert [a, b, c, d][1..] == [b, c, d] && [b, c, d][1..] == [c, d] && [c, d][1..] == [d] && [d][1..] == [];
    var h1 := Next(ops, h, true, a);
    var h2 := Next(ops, h1, true, b);
    var h3 := Next(ops, h2, true, c);
    assert After(ops, h3, true, [d]) == Next(ops, h3, true, d);
    assert After(ops, h2, true, [c, d]) == After(ops, h3, true, [d]);
    assert After(ops, h1, true, [b, c, d]) == After(ops, h2, true, [c, d]);
  }

  // The cache counts servers

  /** Every entry is as large as its list is long. */
  predicate Measured(items: seq<Item<seq<string>>>)
    decreases |items|
  {
    |items| == 0 || (items[0].size == |items[0].value| && Measured(items[1..]))
  }

  lemma {:induction false} MeasuredDrop(items: seq<Item<seq<string>>>, k: string)
    requires Measured(items)
    ensures Measured(LruModel.Drop(items, k))
    ensures Has(items, k) ==> Lookup(items, k).size == |Lookup(items, k).value|
    decreases |items|
  {
    if |items| > 0 {
      MeasuredDrop(items[1..], k);
      if items[0].key != k {
        assert LruModel.Drop(items, k)[1..] == LruModel.Drop(items[1..], k);
      }
    }
  }

  lemma {:induction false} MeasuredInit(items: seq<Item<seq<string>>>)
    requires Measured(items) && |items| > 0
    ensures Measured(items[..|items| - 1])
    decreases |items|
  {
    if |items| > 1 {
      assert items[1..][..|items| - 2] == items[..|items| - 1][1..];
      MeasuredInit(items[1..]);
    }
  }

  lemma AskMeasured<R>(ops: Ring<R>, h: Hasher<R>, key: string, num: int)
    requires Measured(h.cache.items)
    ensures Measured(Ask(ops, h, key, num).cache.items)
  {
    hide CompositeKey, Fresh;
    var k := CompositeKey(key, num);
    MeasuredDrop(h.cache.items, k);
    if Has(h.cache.items, k) {
      assert Touch(h.cache, k).items[1..] == LruModel.Drop(h.cache.items, k);
    } else {
      var names := Fresh(ops, h, key, num);
      var d := Stored(h.cache, k, names, |names|);
      assert d.items[1..] == LruModel.Drop(h.cache.items, k);
      MeasuredInit(d.items);
    }
  }

  lemma StepMeasured<R(!new)>(ops: Ring<R>, h: Hasher<R>, removeNode: bool, e: Event)
    requires Laws(ops) && Measured(h.cache.items)
    ensures Measured(Next(ops, h, removeNode, e).cache.items)
  {
    hide Laws, Ask, AllUp, PurgeActive, Others, Measured;
    NothingMeasured();
    match e
    case GetN(key, num) => AskMeasured(ops, h, key, num);
    case ReAdd => AllUpRing(ops, h, h.dropped);
    case Purge(url) => PurgeActiveRing(ops, h, h.servers, url);
    case Add(url, key) =>
    case Drop(at) =>
  }

  lemma NothingMeasured()
    ensures Measured([])
  {
  }

  /** After any run the size of each cached answer is its number of servers, so the cache's capacity is a
      number of servers. */
  lemma {:induction false} RunMeasured<R(!new)>(ops: Ring<R>, h: Hasher<R>, removeNode: bool, es: seq<Event>)
    requires Laws(ops) && Measured(h.cache.items)
    ensures Measured(After(ops, h, removeNode, es).cache.items)
    decreases |es|
  {
    hide Laws, Next, Measured;
    if |es| > 0 {
      StepMeasured(ops, h, removeNode, es[0]);
      RunMeasured(ops, Next(ops, h, removeNode, es[0]), removeNode, es[1..]);
    }
  }

  /** Dropping a server and adding the dropped ones again moves it to the end; nothing else changes but the
      cache, and the ring is back to all servers. */
  lemma DropThenReAdd<R(!new)>(ops: Ring<R>, h: Hasher<R>, removeNode: bool, at: nat)
    requires Laws(ops) && Agree(ops, h, removeNode) && at < |h.servers|
    ensures var g := Next(ops, Next(ops, h, removeNode, Event.Drop(at)), removeNode, ReAdd);
            && g.servers == h.servers[..at] + h.servers[at + 1..] + h.dropped + [h.servers[at]]
            && g.dropped == [] && g.serverToKey == h.serverToKey && g.keyToServer == h.keyToServer
            && (forall k :: k in ops.members(g.ring) <==> k in h.keyToServer)
  {
    hide Laws, Agree;
    var d := Next(ops, h, removeNode, Event.Drop(at));
    var g := Next(ops, d, removeNode, ReAdd);
    StepAgree(ops, h, removeNode, Event.Drop(at));
    StepAgree(ops, d, removeNode, ReAdd);
    AllUpRing(ops, d, d.dropped);
    RingOfAll(ops, g, removeNode);
  }

  lemma RingOfAll<R>(ops: Ring<R>, h: Hasher<R>, removeNode: bool)
    requires Agree(ops, h, removeNode) && h.dropped == []
    ensures forall k :: k in ops.members(h.ring) <==> k in h.keyToServer
  {
  }

  /** The servers of these adds that are new, in order. */
  function Arrivals(known: set<string>, es: seq<Event>): (urls: seq<string>)
    requires forall i :: 0 <= i < |es| ==> es[i].Add?
    decreases |es|
  {
    if |es| == 0 then []
    else if es[0].url in known then Arrivals(known, es[1..])
    else [es[0].url] + Arrivals(known + {es[0].url}, es[1..])
  }

  /** Servers that are added come behind those already active, each once, in the order of the first add. */
  lemma {:induction false} AddsInOrder<R>(ops: Ring<R>, h: Hasher<R>, removeNode: bool, es: seq<Event>)
    requires forall i :: 0 <= i < |es| ==> es[i].Add?
    ensures var g := After(ops, h, removeNode, es);
            g.servers == h.servers + Arrivals(h.serverToKey.Keys, es) && g.dropped == h.dropped
    decreases |es|
  {
    hide DropServer, ReAddAll, PurgeServer, Ask, At;
    if |es| > 0 {
      var g := Next(ops, h, removeNode, es[0]);
      assert g.serverToKey.Keys == h.serverToKey.Keys + {es[0].url};
      AddsInOrder(ops, g, removeNode, es[1..]);
      if es[0].url in h.serverToKey {
        assert g.serverToKey.Keys == h.serverToKey.Keys;
      }
    }
  }
}
