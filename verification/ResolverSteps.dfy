/** The resolver's code section by section: each is a step of the concurrent machine on objects that stand for
    the machine's. */
module ResolverSteps {
  import opened Common
  import opened RoundRobin
  import opened R = Resolver
  import C = ResolverConcurrency
  import F = ResolverFreshness

  /** Which object each cache id of the machine stands for; different ids stand for different objects. */
  type Objects = map<C.CacheId, ServiceCache>

  /** The resolver's table holds, for the same services, the objects of the machine's table. */
  ghost predicate Mirrors(r: R.Resolver, s: C.State, objs: Objects)
    reads r
  {
    && r.caches.Keys == s.caches.Keys
    && (forall v :: v in r.caches ==> s.caches[v] in objs && objs[s.caches[v]] == r.caches[v])
    && (forall c :: c in objs ==> c < s.next)
    && Injective(objs)
  }

  ghost predicate Injective(objs: Objects) {
    forall c, d :: c in objs && d in objs && c != d ==> objs[c] != objs[d]
  }

  /** The objects' counters are the machine's. */
  ghost predicate Counts(s: C.State, objs: Objects)
    reads objs.Values
  {
    forall c :: c in objs ==> c in s.index && c in s.choices && s.index[c] == objs[c].index
  }

  lemma MirrorsValid(r: R.Resolver, s: C.State, objs: Objects)
    requires Mirrors(r, s, objs) && C.Shared(s)
    ensures r.Valid()
  {}

  /** The object the machine says the caller holds. */
  ghost predicate Holds(s: C.State, objs: Objects, who: C.PickId, sc: ServiceCache) {
    && who in s.callers && C.CacheHeld(s.callers[who].1).Some?
    && C.CacheHeld(s.callers[who].1).value in objs && objs[C.CacheHeld(s.callers[who].1).value] == sc
  }

  /** The first lookup: the caller holds the object it returns, or goes on to the second lookup. */
  method ReadLocked(r: R.Resolver, ghost s: C.State, ghost objs: Objects, ghost who: C.PickId, service: string)
    returns (found: Option<ServiceCache>, ghost t: C.State)
    requires Mirrors(r, s, objs) && Counts(s, objs) && who in s.callers && s.callers[who] == (service, C.Looking)
    ensures C.Apply(s, C.Event(who, service, C.ReadLocked)) == Some(t) && Mirrors(r, t, objs) && Counts(t, objs)
    ensures found == if service in r.caches then Some(r.caches[service]) else None
    ensures found.Some? ==> Holds(t, objs, who, found.value)
    ensures found.None? ==> who in t.callers && t.callers[who] == (service, C.Missed)
  {
    t := C.Apply(s, C.Event(who, service, C.ReadLocked)).value;
    found := r.ReadLocked(service);
  }

  /** The second lookup and the creation. The caller holds the object that the table then has for the service,
      whether another caller created it meanwhile or this one does. */
  method WriteLocked(r: R.Resolver, ghost s: C.State, ghost objs: Objects, ghost who: C.PickId, service: string)
    returns (sc: ServiceCache, ghost t: C.State, ghost objects: Objects)
    requires Mirrors(r, s, objs) && Counts(s, objs) && C.Shared(s)
    requires who in s.callers && s.callers[who] == (service, C.Missed)
    modifies r
    ensures C.Apply(s, C.Event(who, service, C.WriteLocked)) == Some(t)
    ensures Mirrors(r, t, objects) && Counts(t, objects)
    ensures Holds(t, objects, who, sc) && service in r.caches && r.caches[service] == sc
    ensures forall c :: c in objs ==> c in objects && objects[c] == objs[c]
    ensures service in old(r.caches) ==> objects == objs
  {
    MirrorsValid(r, s, objs);
    t := WriteLockedEffect(s, who, service);
    sc := SecondLookup(r, service);
    objects := objs;
    if service in s.caches {
      MirrorsSame(r, s, t, objs);
    } else {
      CountsNew(s, t, objs, sc);
      MirrorsNew(r, s, t, objs, service, sc);
      objects := objs[s.next := sc];
    }
  }

  /** The second lookup on the table alone. */
  method SecondLookup(r: R.Resolver, service: string) returns (sc: ServiceCache)
    requires r.Valid()
    modifies r
    ensures service in r.caches && r.caches[service] == sc
    ensures service in old(r.caches) ==> r.caches == old(r.caches)
    ensures service !in old(r.caches) ==>
      fresh(sc) && sc.index == 0 && r.caches == old(r.caches)[service := sc]
  {
    sc := r.WriteLocked(service);
  }

  lemma MirrorsSame(r: R.Resolver, s: C.State, t: C.State, objs: Objects)
    requires Mirrors(r, s, objs) && Counts(s, objs)
    requires t.caches == s.caches && t.next == s.next && t.index == s.index && t.choices == s.choices
    ensures Mirrors(r, t, objs) && Counts(t, objs)
  {}

  lemma CountsNew(s: C.State, t: C.State, objs: Objects, sc: ServiceCache)
    requires Counts(s, objs) && s.next !in objs && sc.index == 0
    requires t.index == s.index[s.next := 0] && t.choices == s.choices[s.next := []]
    ensures Counts(t, objs[s.next := sc])
  {}

  lemma MirrorsNew(r: R.Resolver, s: C.State, t: C.State, objs: Objects, service: string, sc: ServiceCache)
    requires service in r.caches && r.caches[service] == sc && r.caches.Keys == s.caches.Keys + {service}
    requires forall v :: v in s.caches ==> s.caches[v] in objs && objs[s.caches[v]] == r.caches[v]
    requires service !in s.caches && Injective(objs) && sc !in objs.Values && forall c :: c in objs ==> c < s.next
    requires t.caches == s.caches[service := s.next] && t.next == s.next + 1
    ensures Mirrors(r, t, objs[s.next := sc])
  {}

  /** What the machine's step does to its table and to the caller. */
  lemma WriteLockedEffect(s: C.State, who: C.PickId, service: string) returns (t: C.State)
    requires who in s.callers && s.callers[who] == (service, C.Missed)
    ensures C.Apply(s, C.Event(who, service, C.WriteLocked)) == Some(t) && service in t.caches
    ensures if service in s.caches then t.caches == s.caches && t.next == s.next
            else t.caches == s.caches[service := s.next] && t.next == s.next + 1
    ensures if service in s.caches then t.index == s.index && t.choices == s.choices
            else t.index == s.index[s.next := 0] && t.choices == s.choices[s.next := []]
    ensures who in t.callers && t.callers[who] == (service, C.Holding(t.caches[service]))
  {
    t := C.Apply(s, C.Event(who, service, C.WriteLocked)).value;
  }

  /** Drawing a ticket: the machine's step on this object, and the position it chooses is the instance returned. */
  method Take(ghost r: R.Resolver, ghost s: C.State, ghost objs: Objects, ghost who: C.PickId,
              ghost service: string, sc: ServiceCache, list: seq<Instance>)
    returns (x: Instance, ghost t: C.State)
    requires list != [] && Mirrors(r, s, objs) && Counts(s, objs) && Holds(s, objs, who, sc)
    requires s.callers[who].0 == service && s.callers[who].1.Loaded? && s.callers[who].1.n == |list|
    modifies sc`index
    ensures C.Apply(s, C.Event(who, service, C.Take)) == Some(t) && Holds(t, objs, who, sc)
    ensures Mirrors(r, t, objs) && Counts(t, objs)
    ensures t.callers[who].1.Chose? && t.callers[who].1.position < |list| && x == list[t.callers[who].1.position]
  {
    t := C.Apply(s, C.Event(who, service, C.Take)).value;
    x := sc.Take(list);
  }

  /** The read-locked section of Pick is a step of the freshness machine of this cache. */
  method ReadSection(sc: ServiceCache, ttl: int, now: int, ghost s: F.State, ghost p: F.PickId)
    returns (list: seq<Instance>, valid: bool, ghost t: F.State)
    requires s.instances == sc.instances && s.lastUpdate == sc.lastUpdate && F.At(s, p, F.Begun)
    ensures F.Apply(ttl, s, F.Read(p, now)) == Some(t) && p in t.picks
    ensures list == sc.instances && (valid <==> sc.lastUpdate.Some? && now - sc.lastUpdate.value < ttl)
    ensures t.picks[p] == if valid && list != [] then F.Ready(list) else F.Discovering
    ensures t.instances == sc.instances && t.lastUpdate == sc.lastUpdate
  {
    t := F.Apply(ttl, s, F.Read(p, now)).value;
    list, valid := sc.ReadSection(ttl, now);
  }

  /** So is the write-locked section that installs what Discover returned. */
  method InstallSection(sc: ServiceCache, ttl: int, list: seq<Instance>, later: int, ghost s: F.State,
                        ghost p: F.PickId)
    returns (ghost t: F.State)
    requires s.instances == sc.instances && s.lastUpdate == sc.lastUpdate && F.At(s, p, F.Discovered(list))
    modifies sc
    ensures F.Apply(ttl, s, F.Install(p, later)) == Some(t) && p in t.picks
    ensures t.picks[p] == if list == [] then F.GivenUp else F.Ready(list)
    ensures t.instances == sc.instances && t.lastUpdate == sc.lastUpdate && sc.index == old(sc.index)
  {
    t := F.Apply(ttl, s, F.Install(p, later)).value;
    sc.Install(list, later);
  }
}
