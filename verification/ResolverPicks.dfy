/** Which instance each Pick of a sequence of calls returns, and how evenly they are chosen. */
module ResolverPicks {
  import opened Common
  import opened RoundRobin
  import opened Resolver

  /** A list, and the time it was installed. */
  datatype Listed = Listed(list: seq<Instance>, time: int)

  predicate StillGood(l: Option<Listed>, ttl: int, now: int) {
    l.Some? && l.value.list != [] && now - l.value.time < ttl
  }

  /** The list last installed for a service, read off the calls: by a watcher's update, or by a Pick that found
      nothing good enough and whose Discover answered. */
  function LastInstalled(ttl: int, calls: seq<Call>, service: string): Option<Listed> {
    if calls == [] then None
    else
      var before, last := LastInstalled(ttl, calls[..|calls|-1], service), calls[|calls|-1];
      if last.service != service then before
      else
        match last
        case Watched(_, list, now) => Some(Listed(list, now))
        case PickCall(_, now, discovered, later) =>
          if StillGood(before, ttl, now) || discovered.None? then before else Some(Listed(discovered.value, later))
  }

  /** The list that Pick `k` chooses from: the one installed last if it is good enough, and otherwise what Discover
      answers, if it does. */
  function SourceAt(ttl: int, calls: seq<Call>, k: nat): Option<seq<Instance>>
    requires k < |calls| && calls[k].PickCall?
  {
    var l := LastInstalled(ttl, calls[..k], calls[k].service);
    if StillGood(l, ttl, calls[k].now) then Some(l.value.list) else calls[k].discovered
  }

  ghost predicate Holds(c: CacheData, l: Option<Listed>) {
    if l.Some? then c.instances == l.value.list && c.lastUpdate == Some(l.value.time)
    else c.instances == [] && c.lastUpdate.None?
  }

  lemma PickKeeps(c: CacheData, l: Option<Listed>, ttl: int, now: int, discovered: Option<seq<Instance>>, later: int)
    requires Holds(c, l)
    ensures Usable(c, ttl, now) <==> StillGood(l, ttl, now)
    ensures Holds(PickOn(c, ttl, now, discovered, later).0,
                  if StillGood(l, ttl, now) || discovered.None? then l else Some(Listed(discovered.value, later)))
  {}

  lemma {:induction false} CacheIsLastInstalled(ttl: int, calls: seq<Call>, service: string)
    ensures Holds(CacheOf(Run(ttl, calls), service), LastInstalled(ttl, calls, service))
  {
    if calls != [] {
      var init, last := calls[..|calls|-1], calls[|calls|-1];
      CacheIsLastInstalled(ttl, init, service);
      if last.service == service && last.PickCall? {
        PickKeeps(CacheOf(Run(ttl, init), service), LastInstalled(ttl, init, service), ttl, last.now, last.discovered,
                  last.later);
      }
    }
  }

  /** Every Pick: it fails if it has to ask Discover and gets no answer, finds no instances if its list is empty, and
      otherwise returns the member of its list that its ticket, the number of successful picks before it, selects. */
  lemma PickExact(ttl: int, calls: seq<Call>, k: nat)
    requires k < |calls| && calls[k].PickCall?
    ensures var r := ResultAt(ttl, calls, k);
            match SourceAt(ttl, calls, k)
            case None => r == DiscoverFailed
            case Some(list) =>
              if list == [] then r == NoInstances
              else r == Picked(list[(SuccessfulPicks(ttl, calls[..k], calls[k].service) % WRAP) % |list|])
  {
    CacheIsLastInstalled(ttl, calls[..k], calls[k].service);
    TicketCountsPicks(ttl, calls[..k], calls[k].service);
  }

  // ---------------------------------------------------------------- fairness of what is returned

  predicate PicksAt(calls: seq<Call>, k: nat, service: string) {
    k < |calls| && calls[k].PickCall? && calls[k].service == service
  }

  /** How often the picks of a service from call `from` on have returned `x`. */
  function TimesReturned(ttl: int, calls: seq<Call>, from: nat, service: string, x: Instance): nat {
    if |calls| <= from then 0
    else
      var k := |calls| - 1;
      TimesReturned(ttl, calls[..k], from, service, x)
      + if PicksAt(calls, k, service) && ResultAt(ttl, calls, k) == Picked(x) then 1 else 0
  }

  /** Every pick of the service from call `from` on chooses from `list`. */
  ghost predicate ChooseFrom(ttl: int, calls: seq<Call>, from: nat, service: string, list: seq<Instance>) {
    forall k: nat :: from <= k && PicksAt(calls, k, service) ==> SourceAt(ttl, calls, k) == Some(list)
  }

  lemma ChooseFromPrefix(ttl: int, calls: seq<Call>, from: nat, service: string, list: seq<Instance>)
    requires calls != [] && ChooseFrom(ttl, calls, from, service, list)
    ensures ChooseFrom(ttl, calls[..|calls|-1], from, service, list)
  {
    var init := calls[..|calls|-1];
    forall k: nat | from <= k && PicksAt(init, k, service) ensures SourceAt(ttl, init, k) == Some(list) {
      assert PicksAt(calls, k, service) && init[..k] == calls[..k];
    }
  }

  /** The picks of a service from call `from` on. */
  function PicksSince(ttl: int, calls: seq<Call>, from: nat, service: string): nat
    requires from <= |calls|
  {
    if |calls| == from then 0
    else PicksSince(ttl, calls[..|calls|-1], from, service) + if PicksAt(calls, |calls| - 1, service) then 1 else 0
  }

  lemma {:induction false} AllSucceed(ttl: int, calls: seq<Call>, from: nat, service: string, list: seq<Instance>)
    requires from <= |calls| && list != [] && ChooseFrom(ttl, calls, from, service, list)
    ensures SuccessfulPicks(ttl, calls, service)
         == SuccessfulPicks(ttl, calls[..from], service) + PicksSince(ttl, calls, from, service)
  {
    if |calls| == from {
      assert calls[..from] == calls;
    } else {
      var n := |calls| - 1;
      ChooseFromPrefix(ttl, calls, from, service, list);
      AllSucceed(ttl, calls[..n], from, service, list);
      assert calls[..n][..from] == calls[..from];
      if PicksAt(calls, n, service) { PickExact(ttl, calls, n); }
    }
  }

  lemma TicketAfter(s: nat, i: nat)
    ensures Ticket(s % WRAP, i) == (s + i) % WRAP
  {}

  /** The picks that choose from one list, whose members differ, return its positions as often as as many tickets
      select them. */
  lemma {:induction false} ReturnedIsCount(ttl: int, calls: seq<Call>, from: nat, service: string,
                                           list: seq<Instance>, p: nat)
    requires from <= |calls| && p < |list| && Distinct(list) && ChooseFrom(ttl, calls, from, service, list)
    ensures var start := SuccessfulPicks(ttl, calls[..from], service) % WRAP;
            TimesReturned(ttl, calls, from, service, list[p])
            == Count(start, PicksSince(ttl, calls, from, service), |list|, p)
  {
    if from < |calls| {
      var n := |calls| - 1;
      ChooseFromPrefix(ttl, calls, from, service, list);
      ReturnedIsCount(ttl, calls[..n], from, service, list, p);
      assert calls[..n][..from] == calls[..from];
      if PicksAt(calls, n, service) { OneMoreReturned(ttl, calls, from, service, list, p); }
    }
  }

  lemma OneMoreReturned(ttl: int, calls: seq<Call>, from: nat, service: string, list: seq<Instance>, p: nat)
    requires from < |calls| && p < |list| && Distinct(list) && ChooseFrom(ttl, calls, from, service, list)
    requires PicksAt(calls, |calls| - 1, service)
    ensures var start := SuccessfulPicks(ttl, calls[..from], service) % WRAP;
            var m := PicksSince(ttl, calls[..|calls|-1], from, service);
            && PicksSince(ttl, calls, from, service) == m + 1
            && (ResultAt(ttl, calls, |calls| - 1) == Picked(list[p]) <==> Ticket(start, m) % |list| == p)
  {
    PickReturns(ttl, calls, from, service, list);
    var start := SuccessfulPicks(ttl, calls[..from], service) % WRAP;
    SamePosition(list, Ticket(start, PicksSince(ttl, calls[..|calls|-1], from, service)) % |list|, p);
  }

  lemma SamePosition<T>(list: seq<T>, i: nat, j: nat)
    requires Distinct(list) && i < |list| && j < |list|
    ensures list[i] == list[j] <==> i == j
  {}

  /** The last pick returns the position of the ticket after those drawn from call `from` on. */
  lemma PickReturns(ttl: int, calls: seq<Call>, from: nat, service: string, list: seq<Instance>)
    requires from < |calls| && list != [] && ChooseFrom(ttl, calls, from, service, list)
    requires PicksAt(calls, |calls| - 1, service)
    ensures var start, n := SuccessfulPicks(ttl, calls[..from], service) % WRAP, |calls| - 1;
            ResultAt(ttl, calls, n)
            == Picked(list[Ticket(start, PicksSince(ttl, calls[..n], from, service)) % |list|])
  {
    var n := |calls| - 1;
    ChooseFromPrefix(ttl, calls, from, service, list);
    AllSucceed(ttl, calls[..n], from, service, list);
    assert calls[..n][..from] == calls[..from];
    PickExact(ttl, calls, n);
    TicketAfter(SuccessfulPicks(ttl, calls[..from], service), PicksSince(ttl, calls[..n], from, service));
  }

  /** As long as its picks choose from one list and the ticket does not wrap, a service's instances are returned
      floor(m/n) or ceil(m/n) times each by m picks. */
  lemma PicksFair(ttl: int, calls: seq<Call>, from: nat, service: string, list: seq<Instance>)
    requires from <= |calls| && list != [] && Distinct(list) && ChooseFrom(ttl, calls, from, service, list)
    requires SuccessfulPicks(ttl, calls[..from], service) % WRAP + PicksSince(ttl, calls, from, service) <= WRAP
    ensures var m := PicksSince(ttl, calls, from, service);
            forall p :: 0 <= p < |list| ==>
              Floor(m, |list|) <= TimesReturned(ttl, calls, from, service, list[p]) <= Ceiling(m, |list|)
  {
    var start := SuccessfulPicks(ttl, calls[..from], service) % WRAP;
    FairWithoutWrap(start, PicksSince(ttl, calls, from, service), |list|);
    forall p: nat | p < |list|
      ensures TimesReturned(ttl, calls, from, service, list[p])
           == Count(start, PicksSince(ttl, calls, from, service), |list|, p)
    {
      ReturnedIsCount(ttl, calls, from, service, list, p);
    }
  }

  /** Across k wraps of the ticket two instances differ by at most k + 1. */
  lemma PicksNearlyFair(ttl: int, calls: seq<Call>, from: nat, service: string, list: seq<Instance>, p: nat, q: nat,
                        k: nat)
    requires from <= |calls| && p < |list| && q < |list| && Distinct(list)
    requires ChooseFrom(ttl, calls, from, service, list)
    requires SuccessfulPicks(ttl, calls[..from], service) % WRAP
      + PicksSince(ttl, calls, from, service) <= (k + 1) * WRAP
    ensures TimesReturned(ttl, calls, from, service, list[p]) <= TimesReturned(ttl, calls, from, service, list[q]) + k
      + 1
  {
    ReturnedIsCount(ttl, calls, from, service, list, p);
    ReturnedIsCount(ttl, calls, from, service, list, q);
    NearlyFairAcrossWraps(SuccessfulPicks(ttl, calls[..from], service) % WRAP,
                          PicksSince(ttl, calls, from, service), |list|, p, q, k);
  }
}
