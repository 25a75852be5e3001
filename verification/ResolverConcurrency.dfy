/** The resolver under any interleaving: double-checked creation of one cache per service, and
    concurrent picks drawing tickets from its counter. */
module ResolverConcurrency {
  import opened Common
  import opened RoundRobin

  type PickId = nat
  type CacheId = nat
  type Service = string

  /** Where a caller is; `n` is the length of the instance list it read or discovered. */
  datatype Caller =
    | Looking                     // before the read-locked lookup
    | Missed                      // the read-locked lookup found nothing
    | Holding(cache: CacheId)     // getOrCreateCache returned this object
    | Loaded(cache: CacheId, n: nat)
    | Chose(cache: CacheId, n: nat, position: nat)
    | Failed(cache: CacheId)

  /** One ticket drawn: the length it was reduced by and the position chosen. */
  datatype Choice = Choice(n: nat, position: nat)

  /** `index` and `choices` belong to cache objects; `choices` is history. */
  datatype State = State(caches: map<Service, CacheId>, next: CacheId, callers: map<PickId, (Service, Caller)>,
                         index: map<CacheId, nat>, choices: map<CacheId, seq<Choice>>)

  datatype Act =
    | Enter
    | ReadLocked                // lookup under the read lock
    | WriteLocked               // second lookup, and creation, under the write lock
    | Load(n: nat)              // a usable list of length n was read, or discovered and installed
    | Fail                      // Discover failed, or there are no instances
    | Take                      // the atomic add and the selection

  datatype Event = Event(who: PickId, service: Service, act: Act)

  function Initial(): State { State(map[], 0, map[], map[], map[]) }

  function Apply(s: State, e: Event): Option<State> {
    if e.act.Enter? then
      if e.who in s.callers then None else Some(s.(callers := s.callers[e.who := (e.service, Looking)]))
    else if e.who !in s.callers || s.callers[e.who].0 != e.service then None
    else
      match (s.callers[e.who].1, e.act)
      case (Looking, ReadLocked) =>
        Some(Move(s, e, if e.service in s.caches then Holding(s.caches[e.service]) else Missed))
      case (Missed, WriteLocked) =>
        if e.service in s.caches then Some(Move(s, e, Holding(s.caches[e.service])))
        else Some(Move(s, e, Holding(s.next)).(caches := s.caches[e.service := s.next], next := s.next + 1,
                                               index := s.index[s.next := 0], choices := s.choices[s.next := []]))
      case (Holding(c), Load(n)) => if n == 0 then None else Some(Move(s, e, Loaded(c, n)))
      case (Holding(c), Fail) => Some(Move(s, e, Failed(c)))
      case (Loaded(c, n), Take) =>
        if n == 0 || c !in s.index || c !in s.choices then None
        else
          var p := s.index[c] % n;
          Some(Move(s, e, Chose(c, n, p)).(index := s.index[c := (s.index[c] + 1) % WRAP],
                                           choices := s.choices[c := s.choices[c] + [Choice(n, p)]]))
      case _ => None
  }

  function Move(s: State, e: Event, at: Caller): State {
    s.(callers := s.callers[e.who := (e.service, at)])
  }

  function Run(es: seq<Event>): Option<State> {
    if es == [] then Some(Initial())
    else match Run(es[..|es|-1])
      case None => None
      case Some(s) => Apply(s, es[|es|-1])
  }

  // ---------------------------------------------------------------- one cache per service

  function CacheHeld(at: Caller): Option<CacheId> {
    match at
    case Looking => None
    case Missed => None
    case Holding(c) => Some(c)
    case Loaded(c, _) => Some(c)
    case Chose(c, _, _) => Some(c)
    case Failed(c) => Some(c)
  }

  /** What caller `p` holds, if anything, is the object the table has for its service. */
  predicate HoldsTables(s: State, p: PickId)
    requires p in s.callers
  {
    var (service, at) := s.callers[p];
    CacheHeld(at).Some? ==> service in s.caches && CacheHeld(at).value == s.caches[service]
  }

  ghost predicate Shared(s: State) {
    && (forall v :: v in s.caches ==> s.caches[v] < s.next)
    && (forall v, w :: v in s.caches && w in s.caches && v != w ==> s.caches[v] != s.caches[w])
    && (forall p :: p in s.callers ==> HoldsTables(s, p))
  }

  /** Whatever the interleaving, every caller of a service works on the service's one cache object,
      and no two services share one. */
  lemma {:induction false} CallersShareOneCache(es: seq<Event>)
    requires Run(es).Some?
    ensures Shared(Run(es).value)
  {
    if es != [] {
      CallersShareOneCache(es[..|es|-1]);
      SharedStep(Run(es[..|es|-1]).value, es[|es|-1], Run(es).value);
    }
  }

  lemma SharedStep(s: State, e: Event, t: State)
    requires Shared(s) && Apply(s, e) == Some(t)
    ensures Shared(t)
  {
    CachesGrow(s, e, t);
    OnlyMover(s, e, t);
    forall p | p in t.callers ensures HoldsTables(t, p) {
      if p == e.who {
        MoverHoldsTables(s, e, t);
      } else {
        assert HoldsTables(s, p);
      }
    }
  }

  /** A step moves one caller. */
  lemma OnlyMover(s: State, e: Event, t: State)
    requires Apply(s, e) == Some(t)
    ensures e.who in t.callers && t.callers == s.callers[e.who := t.callers[e.who]]
  {}

  /** A step leaves the cache table alone, or adds one new object for a service that has none. */
  lemma CachesGrow(s: State, e: Event, t: State)
    requires Apply(s, e) == Some(t)
    ensures (t.caches == s.caches && t.next == s.next)
         || (e.service !in s.caches && t.caches == s.caches[e.service := s.next] && t.next == s.next + 1)
  {
  }

  lemma MoverHoldsTables(s: State, e: Event, t: State)
    requires Apply(s, e) == Some(t) && e.who in t.callers && (forall p :: p in s.callers ==> HoldsTables(s, p))
    ensures HoldsTables(t, e.who)
  {
    if e.act.Load? || e.act.Fail? || e.act.Take? {
      MoverKeepsCache(s, e, t);
      assert HoldsTables(s, e.who);
    }
  }

  /** Once a caller holds a cache object it goes on with that one. */
  lemma MoverKeepsCache(s: State, e: Event, t: State)
    requires Apply(s, e) == Some(t) && (e.act.Load? || e.act.Fail? || e.act.Take?)
    ensures t.caches == s.caches && e.who in s.callers && e.who in t.callers
    ensures s.callers[e.who].0 == t.callers[e.who].0
    ensures CacheHeld(s.callers[e.who].1).Some? && CacheHeld(t.callers[e.who].1) == CacheHeld(s.callers[e.who].1)
  {}

  /** Once created, a service's cache object is never replaced. */
  lemma {:induction false} CacheNeverReplaced(es: seq<Event>, more: seq<Event>, service: Service)
    requires Run(es).Some? && service in Run(es).value.caches && Run(es + more).Some?
    ensures service in Run(es + more).value.caches
      && Run(es + more).value.caches[service] == Run(es).value.caches[service]
  {
    if more == [] {
      assert es + more == es;
    } else {
      assert (es + more)[..|es + more| - 1] == es + more[..|more|-1];
      CacheNeverReplaced(es, more[..|more|-1], service);
      CachesGrow(Run(es + more[..|more|-1]).value, more[|more|-1], Run(es + more).value);
    }
  }

  // ---------------------------------------------------------------- tickets

  /** The i-th choice on a cache used the i-th ticket. */
  ghost predicate ChoicesFollowTickets(choices: seq<Choice>) {
    forall i :: 0 <= i < |choices| ==> choices[i].n > 0 && choices[i].position == Ticket(0, i) % choices[i].n
  }

  ghost predicate Ticketed(s: State) {
    && s.index.Keys == s.choices.Keys
    && (forall c :: c in s.index ==> c < s.next)
    && (forall c :: c in s.index ==> s.index[c] == |s.choices[c]| % WRAP && ChoicesFollowTickets(s.choices[c]))
  }

  /** Concurrent picks draw consecutive tickets: the counter is the number of choices made. */
  lemma {:induction false} TicketsAreConsecutive(es: seq<Event>)
    requires Run(es).Some?
    ensures Ticketed(Run(es).value)
  {
    if es != [] {
      TicketsAreConsecutive(es[..|es|-1]);
      TicketStep(Run(es[..|es|-1]).value, es[|es|-1], Run(es).value);
    }
  }

  /** A step draws one ticket, creates an empty cache, or touches no counter. */
  lemma TicketStep(s: State, e: Event, t: State)
    requires Ticketed(s) && Apply(s, e) == Some(t)
    ensures Ticketed(t)
  {
    if e.act.Take? {
      TakeDraws(s, e, t);
      var c, n := s.callers[e.who].1.cache, s.callers[e.who].1.n;
      ChoiceDrawn(s.choices[c], s.index[c], Choice(n, s.index[c] % n));
    } else {
      OthersDrawNone(s, e, t);
    }
  }

  lemma TakeDraws(s: State, e: Event, t: State)
    requires Apply(s, e) == Some(t) && e.act.Take?
    ensures e.who in s.callers && s.callers[e.who].1.Loaded?
    ensures var c, n := s.callers[e.who].1.cache, s.callers[e.who].1.n;
            && n > 0 && c in s.index && c in s.choices && t.next == s.next
            && t.index == s.index[c := (s.index[c] + 1) % WRAP]
            && t.choices == s.choices[c := s.choices[c] + [Choice(n, s.index[c] % n)]]
  {}

  lemma OthersDrawNone(s: State, e: Event, t: State)
    requires Apply(s, e) == Some(t) && !e.act.Take?
    ensures (t.index == s.index && t.choices == s.choices && t.next == s.next)
         || (t.index == s.index[s.next := 0] && t.choices == s.choices[s.next := []] && t.next == s.next + 1)
  {}

  lemma ChoiceDrawn(choices: seq<Choice>, index: nat, choice: Choice)
    requires ChoicesFollowTickets(choices) && index == |choices| % WRAP
    requires choice.n > 0 && choice.position == index % choice.n
    ensures ChoicesFollowTickets(choices + [choice])
    ensures (index + 1) % WRAP == |choices + [choice]| % WRAP
  {
    NextTicket(|choices|);
  }

  function Chosen(choices: seq<Choice>, p: nat): nat {
    if choices == [] then 0
    else Chosen(choices[..|choices|-1], p) + if choices[|choices|-1].position == p then 1 else 0
  }

  /** Choices a to b - 1 all read a list of length n. */
  ghost predicate SameLength(choices: seq<Choice>, a: nat, b: nat, n: nat) {
    a <= b <= |choices| && n > 0 && forall i :: a <= i < b ==> choices[i].n == n
  }

  lemma {:induction false} ChosenIsCount(choices: seq<Choice>, a: nat, b: nat, n: nat, p: nat)
    requires ChoicesFollowTickets(choices) && SameLength(choices, a, b, n)
    ensures Chosen(choices[a..b], p) == Count(a, b - a, n, p)
  {
    if a < b {
      ChosenIsCount(choices, a, b - 1, n, p);
      assert choices[a..b][..b - 1 - a] == choices[a..b-1];
      assert Ticket(a, b - 1 - a) == Ticket(0, b - 1);
    }
  }

  lemma {:induction false} CountFromResidue(a: nat, m: nat, n: nat, p: nat)
    requires n > 0
    ensures Count(a, m, n, p) == Count(a % WRAP, m, n, p)
  {
    if m > 0 {
      CountFromResidue(a, m - 1, n, p);
      TicketFromResidue(a, m - 1);
    }
  }

  lemma TicketFromResidue(a: nat, i: nat)
    ensures Ticket(a, i) == Ticket(a % WRAP, i)
  {
    var k, y := a / WRAP, a % WRAP + i;
    var q, r := y / WRAP, y % WRAP;
    assert a + i == (k + q) * WRAP + r;
    DivModUnique(a + i, WRAP, k + q, r);
  }

  /** In any interleaving, among the picks that read n instances between two moments of a cache's
      life, each position is chosen floor(m/n) or ceil(m/n) times when the counter does not wrap
      between them. */
  lemma ConcurrentPicksFair(es: seq<Event>, c: CacheId, a: nat, b: nat, n: nat, p: nat)
    requires Run(es).Some? && c in Run(es).value.choices && p < n
    requires SameLength(Run(es).value.choices[c], a, b, n)
    requires a % WRAP + (b - a) <= WRAP
    ensures Floor(b - a, n) <= Chosen(Run(es).value.choices[c][a..b], p) <= Ceiling(b - a, n)
  {
    TicketsAreConsecutive(es);
    ChosenIsCount(Run(es).value.choices[c], a, b, n, p);
    CountFromResidue(a, b - a, n, p);
    FairWithoutWrap(a % WRAP, b - a, n);
  }

  /** Across at most k wraps of the counter, two positions differ by at most k + 1. */
  lemma ConcurrentPicksNearlyFair(es: seq<Event>, c: CacheId, a: nat, b: nat, n: nat, p: nat, q: nat, k: nat)
    requires Run(es).Some? && c in Run(es).value.choices && p < n && q < n
    requires SameLength(Run(es).value.choices[c], a, b, n)
    requires a % WRAP + (b - a) <= (k + 1) * WRAP
    ensures Chosen(Run(es).value.choices[c][a..b], p) <= Chosen(Run(es).value.choices[c][a..b], q) + k + 1
  {
    TicketsAreConsecutive(es);
    ChosenIsCount(Run(es).value.choices[c], a, b, n, p);
    ChosenIsCount(Run(es).value.choices[c], a, b, n, q);
    CountFromResidue(a, b - a, n, p);
    CountFromResidue(a, b - a, n, q);
    NearlyFairAcrossWraps(a % WRAP, b - a, n, p, q, k);
  }
}
