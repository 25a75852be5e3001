/** One service's cache under any interleaving of picks and watcher updates: how old the list can be that an
    instance is picked from. Each section under the cache's lock is one step; Discover runs outside it. */
module ResolverFreshness {
  import opened Common
  import opened Resolver

  type PickId = nat

  datatype Progress =
    | Begun
    | Discovering                          // the cached list was too old or empty
    | Discovered(list: seq<Instance>)      // before the write-locked section
    | Ready(list: seq<Instance>)
    | Chosen(instance: Instance)
    | GivenUp

  datatype State = State(instances: seq<Instance>, lastUpdate: Option<int>, picks: map<PickId, Progress>)

  datatype Event =
    | Begin(p: PickId)
    | Read(p: PickId, now: int)
    | Answer(p: PickId, found: Option<seq<Instance>>)
    | Install(p: PickId, time: int)
    | Take(p: PickId, ticket: nat)
    | Watch(list: seq<Instance>, time: int)

  function Initial(): State { State([], None, map[]) }

  predicate At(s: State, p: PickId, at: Progress) { p in s.picks && s.picks[p] == at }

  function Apply(ttl: int, s: State, e: Event): Option<State> {
    match e
    case Watch(list, time) => Some(s.(instances := list, lastUpdate := Some(time)))
    case Begin(p) => if p in s.picks then None else Some(Move(s, p, Begun))
    case Read(p, now) =>
      if !At(s, p, Begun) then None
      else if Usable(CacheData(s.instances, s.lastUpdate, 0), ttl, now) then Some(Move(s, p, Ready(s.instances)))
      else Some(Move(s, p, Discovering))
    case Answer(p, found) =>
      if !At(s, p, Discovering) then None
      else Some(Move(s, p, if found.Some? then Discovered(found.value) else GivenUp))
    case Install(p, time) =>
      if p !in s.picks || !s.picks[p].Discovered? then None
      else
        var list := s.picks[p].list;
        Some(State(list, Some(time), s.picks[p := if list == [] then GivenUp else Ready(list)]))
    case Take(p, ticket) =>
      if p !in s.picks || !s.picks[p].Ready? || s.picks[p].list == [] then None
      else Some(Move(s, p, Chosen(s.picks[p].list[ticket % |s.picks[p].list|])))
  }

  function Move(s: State, p: PickId, to: Progress): State { s.(picks := s.picks[p := to]) }

  function Run(ttl: int, es: seq<Event>): Option<State> {
    if es == [] then Some(Initial())
    else match Run(ttl, es[..|es|-1])
      case None => None
      case Some(s) => Apply(ttl, s, es[|es|-1])
  }

  // ---------------------------------------------------------------- where a list comes from

  /** Pick `p` was given `list` by its own Discover call. */
  predicate OwnAnswer(es: seq<Event>, p: PickId, list: seq<Instance>) {
    exists i :: 0 <= i < |es| && es[i] == Answer(p, Some(list))
  }

  /** Event `i` put `list` into the cache at time `t`: a watcher's update, or a pick's own answer. */
  predicate InstalledAt(es: seq<Event>, i: nat, list: seq<Instance>, t: int) {
    && i < |es|
    && (es[i] == Watch(list, t)
        || (es[i].Install? && es[i].time == t && OwnAnswer(es[..i], es[i].p, list)))
  }

  /** Pick `p` read the list from the cache less than the ttl after the time it was installed at. */
  ghost predicate ReadFresh(ttl: int, es: seq<Event>, p: PickId, list: seq<Instance>) {
    exists i: nat, j: nat, t: int, now: int ::
      i < j < |es| && InstalledAt(es, i, list, t) && es[j] == Read(p, now) && now - t < ttl
  }

  ghost predicate Fresh(ttl: int, es: seq<Event>, p: PickId, list: seq<Instance>) {
    OwnAnswer(es, p, list) || ReadFresh(ttl, es, p, list)
  }

  ghost predicate FreshProgress(ttl: int, es: seq<Event>, p: PickId, at: Progress) {
    match at
    case Discovered(list) => OwnAnswer(es, p, list)
    case Ready(list) => Fresh(ttl, es, p, list)
    case Chosen(x) => exists list: seq<Instance> :: Fresh(ttl, es, p, list) && x in list
    case _ => true
  }

  ghost predicate CacheSourced(es: seq<Event>, s: State) {
    s.lastUpdate.Some? ==> exists i: nat :: InstalledAt(es, i, s.instances, s.lastUpdate.value)
  }

  ghost predicate PicksFresh(ttl: int, es: seq<Event>, s: State) {
    forall p :: p in s.picks ==> FreshProgress(ttl, es, p, s.picks[p])
  }

  lemma OwnAnswerLater(es: seq<Event>, e: Event, p: PickId, list: seq<Instance>)
    requires OwnAnswer(es, p, list)
    ensures OwnAnswer(es + [e], p, list)
  {
    var i :| 0 <= i < |es| && es[i] == Answer(p, Some(list));
    assert (es + [e])[i] == es[i];
  }

  lemma InstalledLater(es: seq<Event>, e: Event, i: nat, list: seq<Instance>, t: int)
    requires InstalledAt(es, i, list, t)
    ensures InstalledAt(es + [e], i, list, t)
  {
    assert (es + [e])[..i] == es[..i];
  }

  lemma FreshLater(ttl: int, es: seq<Event>, e: Event, p: PickId, list: seq<Instance>)
    requires Fresh(ttl, es, p, list)
    ensures Fresh(ttl, es + [e], p, list)
  {
    if OwnAnswer(es, p, list) {
      OwnAnswerLater(es, e, p, list);
    } else {
      var i: nat, j: nat, t: int, now: int :|
        i < j < |es| && InstalledAt(es, i, list, t) && es[j] == Read(p, now) && now - t < ttl;
      InstalledLater(es, e, i, list, t);
      assert (es + [e])[j] == es[j];
    }
  }

  lemma FreshProgressLater(ttl: int, es: seq<Event>, e: Event, p: PickId, at: Progress)
    requires FreshProgress(ttl, es, p, at)
    ensures FreshProgress(ttl, es + [e], p, at)
  {
    match at
    case Discovered(list) => OwnAnswerLater(es, e, p, list);
    case Ready(list) => FreshLater(ttl, es, e, p, list);
    case Chosen(x) =>
      var list: seq<Instance> :| Fresh(ttl, es, p, list) && x in list;
      FreshLater(ttl, es, e, p, list);
    case _ =>
  }

  lemma CacheStep(ttl: int, es: seq<Event>, s: State, e: Event, t: State)
    requires CacheSourced(es, s) && PicksFresh(ttl, es, s) && Apply(ttl, s, e) == Some(t)
    ensures CacheSourced(es + [e], t)
  {
    var n := |es|;
    assert (es + [e])[n] == e && (es + [e])[..n] == es;
    match e
    case Watch(list, time) => assert InstalledAt(es + [e], n, list, time);
    case Install(p, time) =>
      assert FreshProgress(ttl, es, p, s.picks[p]);
      assert InstalledAt(es + [e], n, t.instances, time);
    case _ =>
      if s.lastUpdate.Some? {
        var i: nat :| InstalledAt(es, i, s.instances, s.lastUpdate.value);
        InstalledLater(es, e, i, s.instances, s.lastUpdate.value);
      }
  }

  /** A read of a usable list is a fresh read. */
  lemma ReadIsFresh(ttl: int, es: seq<Event>, s: State, p: PickId, now: int)
    requires CacheSourced(es, s) && Usable(CacheData(s.instances, s.lastUpdate, 0), ttl, now)
    ensures ReadFresh(ttl, es + [Read(p, now)], p, s.instances)
  {
    var i: nat :| InstalledAt(es, i, s.instances, s.lastUpdate.value);
    InstalledLater(es, Read(p, now), i, s.instances, s.lastUpdate.value);
    assert (es + [Read(p, now)])[|es|] == Read(p, now);
  }

  /** The pick that moves stays fresh. */
  lemma MoverFresh(ttl: int, es: seq<Event>, s: State, e: Event, t: State)
    requires CacheSourced(es, s) && PicksFresh(ttl, es, s) && Apply(ttl, s, e) == Some(t) && !e.Watch?
    ensures e.p in t.picks && FreshProgress(ttl, es + [e], e.p, t.picks[e.p])
  {
    assert (es + [e])[|es|] == e;
    match e
    case Begin(_) =>
    case Read(p, now) =>
      if t.picks[p].Ready? { ReadIsFresh(ttl, es, s, p, now); }
    case Answer(_, _) =>
    case Install(p, _) =>
      OwnAnswerLater(es, e, p, s.picks[p].list);
    case Take(p, _) =>
      FreshLater(ttl, es, e, p, s.picks[p].list);
  }

  lemma {:induction false} FreshAlways(ttl: int, es: seq<Event>)
    requires Run(ttl, es).Some?
    ensures CacheSourced(es, Run(ttl, es).value) && PicksFresh(ttl, es, Run(ttl, es).value)
  {
    if es != [] {
      var init, e := es[..|es|-1], es[|es|-1];
      FreshAlways(ttl, init);
      assert init + [e] == es;
      var s, t := Run(ttl, init).value, Run(ttl, es).value;
      CacheStep(ttl, init, s, e, t);
      forall p | p in t.picks ensures FreshProgress(ttl, es, p, t.picks[p]) {
        if !e.Watch? && p == e.p {
          MoverFresh(ttl, init, s, e, t);
        } else {
          FreshProgressLater(ttl, init, e, p, s.picks[p]);
        }
      }
    }
  }

  /** Whatever picks and watcher updates are interleaved with it, a pick chooses from the list its own Discover
      returned, or from one that was installed, by a watcher or by some pick's answer, less than the ttl before it
      read the cache. */
  lemma PickIsFresh(ttl: int, es: seq<Event>, p: PickId, x: Instance)
    requires Run(ttl, es).Some? && At(Run(ttl, es).value, p, Chosen(x))
    ensures exists list: seq<Instance> :: Fresh(ttl, es, p, list) && x in list
  {
    FreshAlways(ttl, es);
    assert FreshProgress(ttl, es, p, Run(ttl, es).value.picks[p]);
  }
}
