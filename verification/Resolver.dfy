/** The service resolver of pkg/discovery, as the sequential code on its mutable caches. */
module Resolver {
  import opened Common
  import opened RoundRobin

  datatype Instance = Instance(id: string, address: string)

  /** A cache as a value. No update time stands for Go's zero time; `index` is the 64-bit ticket. */
  datatype CacheData = CacheData(instances: seq<Instance>, lastUpdate: Option<int>, index: nat)

  datatype PickResult = Picked(instance: Instance) | DiscoverFailed | NoInstances

  function Empty(): CacheData { CacheData([], None, 0) }

  function CacheOf(caches: map<string, CacheData>, service: string): CacheData {
    if service in caches then caches[service] else Empty()
  }

  predicate Usable(c: CacheData, ttl: int, now: int) {
    c.lastUpdate.Some? && now - c.lastUpdate.value < ttl && c.instances != []
  }

  /** One Pick on its service's cache: the cache is read at `now`, and what Discover returns is
      installed at `later`. */
  function PickOn(c: CacheData, ttl: int, now: int, discovered: Option<seq<Instance>>,
                  later: int): (CacheData, PickResult) {
    if Usable(c, ttl, now) then Select(c)
    else match discovered
      case None => (c, DiscoverFailed)
      case Some(list) =>
        var installed := c.(instances := list, lastUpdate := Some(later));
        if list == [] then (installed, NoInstances) else Select(installed)
  }

  function Select(c: CacheData): (CacheData, PickResult)
    requires c.instances != []
  {
    (c.(index := (c.index + 1) % WRAP), Picked(c.instances[c.index % |c.instances|]))
  }

  class ServiceCache {
    var instances: seq<Instance>
    var lastUpdate: Option<int>
    var index: nat

    constructor ()
      ensures Data() == Empty()
    {
      instances, lastUpdate, index := [], None, 0;
    }

    function Data(): CacheData reads this { CacheData(instances, lastUpdate, index) }

    /** The section under the read lock: the list, and whether it is not too old. */
    method ReadSection(ttl: int, now: int) returns (list: seq<Instance>, valid: bool)
      ensures list == instances && (valid <==> lastUpdate.Some? && now - lastUpdate.value < ttl)
    {
      list := instances;
      valid := lastUpdate.Some? && now - lastUpdate.value < ttl;
    }

    /** The atomic add, and the instance its ticket selects. */
    method Take(list: seq<Instance>) returns (x: Instance)
      requires list != []
      modifies this`index
      ensures index == (old(index) + 1) % WRAP && x == list[old(index) % |list|]
    {
      var idx := index;
      index := (index + 1) % WRAP;
      return list[idx % |list|];
    }

    /** The part of Pick that works on one cache. A Discover error leaves it alone. */
    method PickFrom(ttl: int, now: int, discovered: Option<seq<Instance>>, later: int) returns (r: PickResult)
      modifies this
      ensures Data() == PickOn(old(Data()), ttl, now, discovered, later).0
      ensures r == PickOn(old(Data()), ttl, now, discovered, later).1
      ensures r.DiscoverFailed? ==> Data() == old(Data())
    {
      var list, valid := ReadSection(ttl, now);
      if !valid || |list| == 0 {
        if discovered.None? {
          return DiscoverFailed;
        }
        Install(discovered.value, later);
        list := instances;
      }
      if |list| == 0 {
        return NoInstances;
      }
      var x := Take(list);
      return Picked(x);
    }

    method Install(list: seq<Instance>, now: int)
      modifies this
      ensures Data() == old(Data()).(instances := list, lastUpdate := Some(now))
    {
      instances := list;
      lastUpdate := Some(now);
    }
  }

  class Resolver {
    var caches: map<string, ServiceCache>
    const ttl: int

    constructor (ttl: int)
      ensures Valid() && Contents() == map[] && this.ttl == ttl
    {
      caches := map[];
      this.ttl := ttl;
    }

    /** No two services share a cache object. */
    ghost predicate Valid() reads this {
      forall s, t :: s in caches && t in caches && s != t ==> caches[s] != caches[t]
    }

    function Contents(): map<string, CacheData>
      reads this, caches.Values
    {
      map s | s in caches :: caches[s].Data()
    }

    /** The first lookup, under the read lock. */
    method ReadLocked(service: string) returns (found: Option<ServiceCache>)
      ensures found == if service in caches then Some(caches[service]) else None
    {
      if service in caches { return Some(caches[service]); }
      return None;
    }

    /** The second lookup and the creation, under the write lock. Another caller may have created the cache since
        the first lookup, so nothing is assumed about the table. */
    method WriteLocked(service: string) returns (sc: ServiceCache)
      requires Valid()
      modifies this
      ensures Valid()
      ensures service in caches && caches[service] == sc
      ensures service in old(caches) ==> caches == old(caches)
      ensures service !in old(caches) ==> fresh(sc) && caches == old(caches)[service := sc]
      ensures sc.Data() == CacheOf(old(Contents()), service)
      ensures Contents() == old(Contents())[service := CacheOf(old(Contents()), service)]
    {
      if service in caches {
        sc := caches[service];
        return;
      }
      sc := new ServiceCache();
      caches := caches[service := sc];
    }

    /** The service's one cache object, created if it is missing; no other entry changes. */
    method GetOrCreateCache(service: string) returns (sc: ServiceCache)
      requires Valid()
      modifies this
      ensures Valid()
      ensures service in caches && caches[service] == sc
      ensures service in old(caches) ==> caches == old(caches)
      ensures service !in old(caches) ==> fresh(sc) && caches == old(caches)[service := sc]
      ensures sc.Data() == CacheOf(old(Contents()), service)
      ensures Contents() == old(Contents())[service := CacheOf(old(Contents()), service)]
    {
      var found := ReadLocked(service);
      if found.Some? {
        return found.value;
      }
      sc := WriteLocked(service);
    }

    method Pick(service: string, now: int, discovered: Option<seq<Instance>>, later: int) returns (r: PickResult)
      requires Valid()
      modifies this, caches.Values
      ensures Valid() && fresh(caches.Values - old(caches.Values))
      ensures forall s :: s in old(caches) ==> s in caches && caches[s] == old(caches)[s]
      ensures r == PickOn(CacheOf(old(Contents()), service), ttl, now, discovered, later).1
      ensures Contents()
        == old(Contents())[service := PickOn(CacheOf(old(Contents()), service), ttl, now, discovered, later).0]
    {
      ghost var was := Contents();
      var sc := GetOrCreateCache(service);
      assert fresh(sc) || sc in old(caches.Values);
      r := PickFromCache(service, sc, ttl, now, discovered, later);
      UpdateTwice(was, service, CacheOf(was, service), sc.Data());
    }

    /** Work on one cache object changes the resolver's contents at its own service only. */
    method PickFromCache(service: string, sc: ServiceCache, ttl: int, now: int, discovered: Option<seq<Instance>>,
                         later: int)
      returns (r: PickResult)
      requires Valid() && service in caches && caches[service] == sc
      modifies sc
      ensures r == PickOn(old(sc.Data()), ttl, now, discovered, later).1
      ensures sc.Data() == PickOn(old(sc.Data()), ttl, now, discovered, later).0
      ensures Contents() == old(Contents())[service := sc.Data()]
    {
      ghost var others := Contents();
      r := sc.PickFrom(ttl, now, discovered, later);
      OneCacheChanged(others, service, sc);
    }

    /** One update received by a background watcher. */
    method InstallWatched(service: string, list: seq<Instance>, now: int)
      requires Valid()
      modifies this, caches.Values
      ensures Valid() && fresh(caches.Values - old(caches.Values))
      ensures forall s :: s in old(caches) ==> s in caches && caches[s] == old(caches)[s]
      ensures Contents()
        == old(Contents())[service := CacheOf(old(Contents()), service).(instances := list, lastUpdate := Some(now))]
    {
      var sc := GetOrCreateCache(service);
      ghost var was, others := old(Contents()), Contents();
      assert fresh(sc) || sc in old(caches.Values);
      sc.Install(list, now);
      OneCacheChanged(others, service, sc);
      UpdateTwice(was, service, CacheOf(was, service), sc.Data());
    }

    /** When every other cache still holds what it held, the contents differ at one service only. */
    lemma OneCacheChanged(before: map<string, CacheData>, service: string, sc: ServiceCache)
      requires Valid() && service in caches && caches[service] == sc
      requires before.Keys == caches.Keys
      requires forall s :: s in caches && s != service ==> caches[s].Data() == before[s]
      ensures Contents() == before[service := sc.Data()]
    {
      assert Contents().Keys == before[service := sc.Data()].Keys;
    }
  }

  lemma UpdateTwice<K, V>(m: map<K, V>, k: K, a: V, b: V)
    ensures m[k := a][k := b] == m[k := b]
  {}

  // ---------------------------------------------------------------- sequential runs

  datatype Call =
    | PickCall(service: string, now: int, discovered: Option<seq<Instance>>, later: int)
    | Watched(service: string, list: seq<Instance>, now: int)

  function After(caches: map<string, CacheData>, ttl: int, call: Call): map<string, CacheData> {
    var c := CacheOf(caches, call.service);
    caches[call.service :=
      match call
      case PickCall(_, now, discovered, later) => PickOn(c, ttl, now, discovered, later).0
      case Watched(_, list, now) => c.(instances := list, lastUpdate := Some(now))]
  }

  function Run(ttl: int, calls: seq<Call>): map<string, CacheData> {
    if calls == [] then map[] else After(Run(ttl, calls[..|calls|-1]), ttl, calls[|calls|-1])
  }

  /** The result of the k-th call of a run, when it is a Pick. */
  function ResultAt(ttl: int, calls: seq<Call>, k: nat): PickResult
    requires k < |calls| && calls[k].PickCall?
  {
    var call := calls[k];
    PickOn(CacheOf(Run(ttl, calls[..k]), call.service), ttl, call.now, call.discovered, call.later).1
  }

  /** Call `j` installed `list` for the service at time `t`. */
  predicate Installs(call: Call, service: string, list: seq<Instance>, t: int) {
    call.service == service &&
    match call
    case PickCall(_, _, discovered, later) => discovered == Some(list) && later == t
    case Watched(_, l, now) => l == list && now == t
  }

  lemma {:induction false} CachedListWasInstalled(ttl: int, calls: seq<Call>, service: string) returns (j: nat)
    requires CacheOf(Run(ttl, calls), service).lastUpdate.Some?
    ensures j < |calls|
    ensures var c := CacheOf(Run(ttl, calls), service); Installs(calls[j], service, c.instances, c.lastUpdate.value)
  {
    var p, call := calls[..|calls|-1], calls[|calls|-1];
    var before, after := CacheOf(Run(ttl, p), service), CacheOf(Run(ttl, calls), service);
    if after.instances == before.instances && after.lastUpdate == before.lastUpdate {
      j := CachedListWasInstalled(ttl, p, service);
    } else {
      j := |calls| - 1;
    }
  }

  /** A successful Pick returns a member of the list it has just discovered, or of one that an
      earlier call installed less than the ttl before. */
  lemma PickedIsFresh(ttl: int, calls: seq<Call>, k: nat)
    requires k < |calls| && calls[k].PickCall? && ResultAt(ttl, calls, k).Picked?
    ensures var x := ResultAt(ttl, calls, k).instance;
            || (calls[k].discovered.Some? && x in calls[k].discovered.value)
            || exists j, list, t ::
                 0 <= j < k && Installs(calls[j], calls[k].service, list, t) && x in list && calls[k].now - t < ttl
  {
    var call := calls[k];
    var c := CacheOf(Run(ttl, calls[..k]), call.service);
    if Usable(c, ttl, call.now) {
      var j := CachedListWasInstalled(ttl, calls[..k], call.service);
      assert Installs(calls[j], call.service, c.instances, c.lastUpdate.value);
    }
  }

  function SuccessfulPicks(ttl: int, calls: seq<Call>, service: string): nat {
    if calls == [] then 0
    else
      SuccessfulPicks(ttl, calls[..|calls|-1], service) + if LastPickSucceeds(ttl, calls, service) then 1 else 0
  }

  /** The ticket counter is the number of successful picks, modulo 2^64. */
  lemma {:induction false} TicketCountsPicks(ttl: int, calls: seq<Call>, service: string)
    ensures CacheOf(Run(ttl, calls), service).index == SuccessfulPicks(ttl, calls, service) % WRAP
  {
    if calls != [] {
      var k := |calls| - 1;
      TicketCountsPicks(ttl, calls[..k], service);
      CallAdvances(ttl, calls, service);
      NextTicket(SuccessfulPicks(ttl, calls[..k], service));
    }
  }

  predicate LastPickSucceeds(ttl: int, calls: seq<Call>, service: string) {
    calls != [] &&
    var k := |calls| - 1;
    calls[k].service == service && calls[k].PickCall? && ResultAt(ttl, calls, k).Picked?
  }

  lemma CallAdvances(ttl: int, calls: seq<Call>, service: string)
    requires calls != []
    ensures var before := CacheOf(Run(ttl, calls[..|calls|-1]), service).index;
            CacheOf(Run(ttl, calls), service).index ==
            if LastPickSucceeds(ttl, calls, service) then (before + 1) % WRAP else before
  {
    var k := |calls| - 1;
    var call := calls[k];
    if call.PickCall? && call.service == service {
      PickAdvances(CacheOf(Run(ttl, calls[..k]), service), ttl, call.now, call.discovered, call.later);
    }
  }

  lemma PickAdvances(c: CacheData, ttl: int, now: int, discovered: Option<seq<Instance>>, later: int)
    ensures var (after, r) := PickOn(c, ttl, now, discovered, later);
            after.index == if r.Picked? then (c.index + 1) % WRAP else c.index
  {
  }
}
