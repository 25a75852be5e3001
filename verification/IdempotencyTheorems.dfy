/** Properties of every interleaving of the idempotency protocol. */
module IdempotencyTheorems {
  import opened Common
  import opened Idempotency

  // ---------------------------------------------------------------- at most once

  /** The requests that inserted `key` and have not run the handler yet. */
  function Holding(requests: map<RequestId, (Key, Request)>, key: Key): set<RequestId> {
    set r | r in requests && requests[r] == (key, Acquired)
  }

  /** Handler runs that can still happen without an expiry. */
  function Budget(s: State, key: Key): nat {
    |Holding(s.requests, key)| + if key in s.store then 0 else 1
  }

  lemma HoldingUpdated(requests: map<RequestId, (Key, Request)>, who: RequestId, at: (Key, Request), key: Key)
    ensures var before, after := Holding(requests, key), Holding(requests[who := at], key);
            after == if at == (key, Acquired) then before + {who} else before - {who}
  {
  }

  /** No step gives a key more handler runs, except its expiry, which gives one. */
  lemma BudgetSpent(s: State, e: Event, t: State, key: Key)
    requires Apply(s, e) == Some(t)
    ensures Budget(t, key) + (if IsRun(e, key) then 1 else 0)
         <= Budget(s, key) + (if e.key == key && e.act.Expire? then 1 else 0)
  {
    if !e.act.Expire? {
      var at := t.requests[e.who];
      assert t.requests == s.requests[e.who := at];
      HoldingUpdated(s.requests, e.who, at, key);
      if !e.act.Arrive? {
        BudgetAdvances(s, e, key, Lookup(t.store, e.key), at.1);
      }
    }
  }

  lemma BudgetAdvances(s: State, e: Event, key: Key, entry: Option<Entry>, req: Request)
    requires e.who in s.requests && s.requests[e.who].0 == e.key
    requires Advance(Lookup(s.store, e.key), s.requests[e.who].1, e.act) == Some((entry, req))
    ensures var held := Holding(s.requests, key);
            var holding := if (e.key, req) == (key, Acquired) then held + {e.who} else held - {e.who};
            |holding| + (if Lookup(Update(s.store, e.key, entry), key).Some? then 0 else 1)
              + (if IsRun(e, key) then 1 else 0) <= Budget(s, key)
  {
    var before := Holding(s.requests, key);
    if e.key == key && req.Acquired? {
      assert |before + {e.who}| <= |before| + 1;
    } else if IsRun(e, key) {
      assert e.who in before;
    } else {
      assert |before - {e.who}| <= |before|;
    }
  }

  /** In every interleaving of any number of requests, with store errors, failed saves and panics,
      the handler runs for one key at most once plus the number of times the key's entry expired. */
  lemma {:induction false} HandlerRunsAtMostOncePlusExpiries(es: seq<Event>, key: Key)
    requires Exec(Initial(), es).Some?
    ensures Runs(es, key) + Budget(Exec(Initial(), es).value, key) <= 1 + Expiries(es, key)
  {
    if es != [] {
      var p := es[..|es|-1];
      HandlerRunsAtMostOncePlusExpiries(p, key);
      BudgetSpent(Exec(Initial(), p).value, es[|es|-1], Exec(Initial(), es).value, key);
    }
  }

  // ---------------------------------------------------------------- the bound is reached

  /** One more step of a request, and what it adds to the counts. */
  lemma Perform(es: seq<Event>, key: Key, who: RequestId, act: Act) returns (longer: seq<Event>)
    requires Exec(Initial(), es).Some? && !act.Arrive? && !act.Expire?
    requires var s := Exec(Initial(), es).value;
             who in s.requests && s.requests[who].0 == key
               && Advance(Lookup(s.store, key), s.requests[who].1, act).Some?
    ensures var s := Exec(Initial(), es).value;
            var (entry, next) := Advance(Lookup(s.store, key), s.requests[who].1, act).value;
            && Exec(Initial(), longer) == Some(State(Update(s.store, key, entry), s.requests[who := (key, next)]))
            && Runs(longer, key) == Runs(es, key) + (if act.Handle? || act.HandlerPanics? then 1 else 0)
            && Expiries(longer, key) == Expiries(es, key)
  {
    ExecStep(Initial(), es, Event(key, who, act));
    longer := es + [Event(key, who, act)];
    assert longer[..|es|] == es;
  }

  lemma ArriveOrExpire(es: seq<Event>, e: Event) returns (longer: seq<Event>)
    requires Exec(Initial(), es).Some? && (e.act.Arrive? || e.act.Expire?)
    ensures Exec(Initial(), longer) == Apply(Exec(Initial(), es).value, e)
    ensures Runs(longer, e.key) == Runs(es, e.key)
    ensures Expiries(longer, e.key) == Expiries(es, e.key) + (if e.act.Expire? then 1 else 0)
  {
    ExecStep(Initial(), es, e);
    longer := es + [e];
    assert longer[..|es|] == es;
  }

  /** One more step of the only request that moves, from a position to the next. */
  lemma PerformTo(es: seq<Event>, key: Key, who: RequestId, act: Act, store: map<Key, Entry>,
                  requests: map<RequestId, (Key, Request)>, req: Request) returns (longer: seq<Event>)
    requires !act.Arrive? && !act.Expire?
    requires Exec(Initial(), es) == Some(State(store, requests[who := (key, req)]))
    requires Advance(Lookup(store, key), req, act).Some?
    ensures var (entry, next) := Advance(Lookup(store, key), req, act).value;
            Exec(Initial(), longer) == Some(State(Update(store, key, entry), requests[who := (key, next)]))
    ensures Runs(longer, key) == Runs(es, key) + (if act.Handle? || act.HandlerPanics? then 1 else 0)
    ensures Expiries(longer, key) == Expiries(es, key)
  {
    longer := Perform(es, key, who, act);
    var next := Advance(Lookup(store, key), req, act).value.1;
    assert requests[who := (key, req)][who := (key, next)] == requests[who := (key, next)];
  }

  /** A request that finds its key free runs the handler, saves the response and answers with it. */
  lemma Answered(es: seq<Event>, key: Key, who: RequestId, raw: Raw) returns (longer: seq<Event>)
    requires Writable(raw) && Exec(Initial(), es).Some?
    requires var s := Exec(Initial(), es).value; s.store == map[] && who !in s.requests
    ensures Exec(Initial(), longer) == Some(State(map[key := Done(Capture(raw))],
              Exec(Initial(), es).value.requests[who := (key, Replied(Answer(Capture(raw))))]))
    ensures Runs(longer, key) == Runs(es, key) + 1 && Expiries(longer, key) == Expiries(es, key)
  {
    var requests := Exec(Initial(), es).value.requests;
    longer := HandlerRun(es, key, who, raw);
    longer := ResponseSent(longer, key, who, Capture(raw), requests);
  }

  lemma HandlerRun(es: seq<Event>, key: Key, who: RequestId, raw: Raw) returns (longer: seq<Event>)
    requires Writable(raw) && Exec(Initial(), es).Some?
    requires var s := Exec(Initial(), es).value; s.store == map[] && who !in s.requests
    ensures Exec(Initial(), longer) == Some(State(map[key := Processing],
              Exec(Initial(), es).value.requests[who := (key, Captured(Capture(raw)))]))
    ensures Runs(longer, key) == Runs(es, key) + 1 && Expiries(longer, key) == Expiries(es, key)
  {
    var requests := Exec(Initial(), es).value.requests;
    longer := ArriveOrExpire(es, Event(key, who, Arrive));
    longer := PerformTo(longer, key, who, SetNX, map[], requests, Arriving);
    assert Update(map[], key, Some(Processing)) == map[key := Processing];
    longer := PerformTo(longer, key, who, Handle(raw), map[key := Processing], requests, Acquired);
  }

  lemma ResponseSent(es: seq<Event>, key: Key, who: RequestId, r: Response, requests: map<RequestId, (Key, Request)>)
    returns (longer: seq<Event>)
    requires Exec(Initial(), es) == Some(State(map[key := Processing], requests[who := (key, Captured(r))]))
    ensures Exec(Initial(), longer) == Some(State(map[key := Done(r)], requests[who := (key, Replied(Answer(r)))]))
    ensures Runs(longer, key) == Runs(es, key) && Expiries(longer, key) == Expiries(es, key)
  {
    longer := PerformTo(es, key, who, Set, map[key := Processing], requests, Captured(r));
    assert map[key := Processing][key := Done(r)] == map[key := Done(r)];
    longer := PerformTo(longer, key, who, Write, map[key := Done(r)], requests, Replying(r));
  }

  /** The first `n` requests, each answered with what its own handler run produced. */
  function AnsweredRequests(key: Key, n: nat, raws: nat -> Raw): (requests: map<RequestId, (Key, Request)>)
    ensures forall r: RequestId :: r in requests <==> r < n
  {
    if n == 0 then map[]
    else AnsweredRequests(key, n - 1, raws)[n - 1 := (key, Replied(Answer(Capture(raws(n - 1)))))]
  }

  lemma {:induction false} RepeatedRuns(key: Key, n: nat, raws: nat -> Raw) returns (es: seq<Event>)
    requires forall i: nat :: Writable(raws(i))
    ensures Exec(Initial(), es) == Some(State(map[], AnsweredRequests(key, n, raws)))
    ensures Runs(es, key) == n && Expiries(es, key) == n
  {
    if n == 0 {
      es := [];
    } else {
      es := RepeatedRuns(key, n - 1, raws);
      es := Answered(es, key, n - 1, raws(n - 1));
      es := ArriveOrExpire(es, Event(key, 0, Expire));
      assert map[key := Done(Capture(raws(n - 1)))] - {key} == map[];
    }
  }

  /** The bound is exact: for every number of expiries there is a run that reaches it, in which every handler run
      produces a response of its own choosing. */
  lemma BoundIsReached(key: Key, n: nat, raws: nat -> Raw) returns (es: seq<Event>)
    requires forall i: nat :: Writable(raws(i))
    ensures Exec(Initial(), es).Some? && Expiries(es, key) == n && Runs(es, key) == 1 + n
    ensures Exec(Initial(), es).value.requests == AnsweredRequests(key, 1 + n, raws)
  {
    es := RepeatedRuns(key, n, raws);
    es := Answered(es, key, n, raws(n));
  }

  // ---------------------------------------------------------------- agreement

  /** Some handler run for `key` produced this response. */
  ghost predicate Produced(es: seq<Event>, key: Key, r: Response) {
    exists j :: 0 <= j < |es| && ProducesAt(es[j], key, r)
  }

  predicate ProducesAt(e: Event, key: Key, r: Response) {
    e.key == key && e.act.Handle? && Writable(e.act.raw) && Capture(e.act.raw) == r
  }

  /** The handler run of request `who` produced this response. */
  ghost predicate ProducedBy(es: seq<Event>, key: Key, who: RequestId, r: Response) {
    exists j :: 0 <= j < |es| && es[j].who == who && ProducesAt(es[j], key, r)
  }

  ghost predicate StoreAgrees(s: State, es: seq<Event>) {
    forall k :: k in s.store && s.store[k].Done? ==> Produced(es, k, s.store[k].response)
  }

  ghost predicate RequestAgrees(es: seq<Event>, who: RequestId, key: Key, req: Request) {
    match req
    case Captured(r) => ProducedBy(es, key, who, r)
    case Replying(r) => ProducedBy(es, key, who, r)
    case Replied(Answer(r)) => Produced(es, key, r)
    case _ => true
  }

  ghost predicate RequestsAgree(s: State, es: seq<Event>) {
    forall who :: who in s.requests ==> RequestAgrees(es, who, s.requests[who].0, s.requests[who].1)
  }

  lemma ProducedLater(es: seq<Event>, e: Event, key: Key, who: RequestId, r: Response)
    ensures Produced(es, key, r) ==> Produced(es + [e], key, r)
    ensures ProducedBy(es, key, who, r) ==> ProducedBy(es + [e], key, who, r)
    ensures ProducedBy(es, key, who, r) ==> Produced(es, key, r)
    ensures ProducesAt(e, key, r) && e.who == who ==> ProducedBy(es + [e], key, who, r)
  {
    var l := es + [e];
    if Produced(es, key, r) {
      var j :| 0 <= j < |es| && ProducesAt(es[j], key, r);
      assert l[j] == es[j];
    }
    if ProducedBy(es, key, who, r) {
      var j :| 0 <= j < |es| && es[j].who == who && ProducesAt(es[j], key, r);
      assert l[j] == es[j];
    }
    assert l[|es|] == e;
  }

  lemma AgreesLater(es: seq<Event>, e: Event, who: RequestId, key: Key, req: Request)
    requires RequestAgrees(es, who, key, req)
    ensures RequestAgrees(es + [e], who, key, req)
  {
    match req
    case Captured(r) => ProducedLater(es, e, key, who, r);
    case Replying(r) => ProducedLater(es, e, key, who, r);
    case Replied(Answer(r)) => ProducedLater(es, e, key, who, r);
    case _ =>
  }

  /** The entry and the position that one step leaves behind hold only produced responses. */
  lemma StepAgrees(es: seq<Event>, e: Event, entry: Option<Entry>, req: Request, entry': Option<Entry>, req': Request)
    requires Advance(entry, req, e.act) == Some((entry', req'))
    requires RequestAgrees(es, e.who, e.key, req)
    requires entry.Some? && entry.value.Done? ==> Produced(es, e.key, entry.value.response)
    ensures RequestAgrees(es + [e], e.who, e.key, req')
    ensures entry'.Some? && entry'.value.Done? ==> Produced(es + [e], e.key, entry'.value.response)
  {
    if entry.Some? && entry.value.Done? { ProducedLater(es, e, e.key, e.who, entry.value.response); }
    if req'.Captured? { ProducedLater(es, e, e.key, e.who, req'.response); }
    if req.Captured? || req.Replying? { ProducedLater(es, e, e.key, e.who, req.response); }
  }

  lemma {:induction false} AgreementHolds(es: seq<Event>)
    requires Exec(Initial(), es).Some?
    ensures StoreAgrees(Exec(Initial(), es).value, es) && RequestsAgree(Exec(Initial(), es).value, es)
  {
    if es != [] {
      var p, e := es[..|es|-1], es[|es|-1];
      AgreementHolds(p);
      assert es == p + [e];
      AgreementStep(Exec(Initial(), p).value, p, e, Exec(Initial(), es).value);
    }
  }

  lemma AgreementStep(s: State, p: seq<Event>, e: Event, t: State)
    requires StoreAgrees(s, p) && RequestsAgree(s, p) && Apply(s, e) == Some(t)
    ensures StoreAgrees(t, p + [e]) && RequestsAgree(t, p + [e])
  {
    if !e.act.Arrive? && !e.act.Expire? {
      StepAgrees(p, e, Lookup(s.store, e.key), s.requests[e.who].1, Lookup(t.store, e.key), t.requests[e.who].1);
    }
    forall k | k in t.store && t.store[k].Done? ensures Produced(p + [e], k, t.store[k].response) {
      if e.act.Arrive? || e.act.Expire? || k != e.key {
        assert Lookup(t.store, k) == Lookup(s.store, k);
        ProducedLater(p, e, k, 0, t.store[k].response);
      }
    }
    forall who | who in t.requests ensures RequestAgrees(p + [e], who, t.requests[who].0, t.requests[who].1) {
      if e.act.Expire? || who != e.who {
        AgreesLater(p, e, who, t.requests[who].0, t.requests[who].1);
      }
    }
  }

  /** Every reply to a keyed request is the store error, the conflict, or a response that some
      handler run for the same key produced; a request that ran the handler gets its own. */
  lemma RepliesAgree(es: seq<Event>, who: RequestId)
    requires Exec(Initial(), es).Some? && who in Exec(Initial(), es).value.requests
    requires Exec(Initial(), es).value.requests[who].1.Replied?
    ensures var (key, at) := Exec(Initial(), es).value.requests[who];
            at.reply == StoreError || at.reply == Conflict || (at.reply.Answer? && Produced(es, key, at.reply.response))
    ensures var (key, at) := Exec(Initial(), es).value.requests[who];
            forall r :: ProducedBy(es, key, who, r) ==> at.reply == Answer(r)
  {
    AgreementHolds(es);
    var (key, at) := Exec(Initial(), es).value.requests[who];
    forall r | ProducedBy(es, key, who, r) ensures at.reply == Answer(r) {
      OwnResponse(es, key, who, r);
    }
  }

  /** The reply to a duplicate, in every run, by what the store holds when it looks: the completed response if there
      is one, a conflict exactly while the entry says processing, and a store error exactly when it has expired. */
  lemma DuplicatesAnswered(es: seq<Event>, key: Key, who: RequestId)
    requires Exec(Initial(), es + [Event(key, who, Get)]).Some?
    ensures Exec(Initial(), es).Some? && who in Exec(Initial(), es + [Event(key, who, Get)]).value.requests
    ensures var store := Exec(Initial(), es).value.store;
            var at := Exec(Initial(), es + [Event(key, who, Get)]).value.requests[who].1;
            && (at == Replied(StoreError) <==> key !in store)
            && (at == Replied(Conflict) <==> key in store && store[key].Processing?)
            && (forall r :: at == Replied(Answer(r)) <==> key in store && store[key] == Done(r))
  {
    var e := Event(key, who, Get);
    ExecStep(Initial(), es, e);
    AgreementHolds(es);
    var store := Exec(Initial(), es).value.store;
    if key in store && store[key].Done? {
      var j :| 0 <= j < |es| && ProducesAt(es[j], key, store[key].response);
      CaptureCaptures(es[j].act.raw);
    }
  }

  /** After running the handler a request carries its response and nothing else. */
  ghost predicate Carries(req: Request, r: Response) {
    req == Captured(r) || req == Replying(r) || req == Replied(Answer(r))
  }

  lemma {:induction false} OwnResponse(es: seq<Event>, key: Key, who: RequestId, r: Response)
    requires Exec(Initial(), es).Some? && ProducedBy(es, key, who, r)
    ensures var s := Exec(Initial(), es).value;
            who in s.requests && s.requests[who].0 == key && Carries(s.requests[who].1, r)
  {
    var p, e := es[..|es|-1], es[|es|-1];
    if !(e.who == who && ProducesAt(e, key, r)) {
      var j :| 0 <= j < |es| && es[j].who == who && ProducesAt(es[j], key, r);
      assert p[j] == es[j];
      OwnResponse(p, key, who, r);
    }
  }

  /** With no expiry of the key, all its answers are one and the same response. */
  lemma AnswersAgreeWithoutExpiry(es: seq<Event>, key: Key, a: RequestId, b: RequestId)
    requires Exec(Initial(), es).Some? && Expiries(es, key) == 0
    requires var reqs := Exec(Initial(), es).value.requests;
             && a in reqs && reqs[a].0 == key && reqs[a].1.Replied? && reqs[a].1.reply.Answer?
             && b in reqs && reqs[b].0 == key && reqs[b].1.Replied? && reqs[b].1.reply.Answer?
    ensures var reqs := Exec(Initial(), es).value.requests; reqs[a].1 == reqs[b].1
  {
    HandlerRunsAtMostOncePlusExpiries(es, key);
    RepliesAgree(es, a);
    RepliesAgree(es, b);
    var reqs := Exec(Initial(), es).value.requests;
    OneProduced(es, key, reqs[a].1.reply.response, reqs[b].1.reply.response);
  }

  lemma OneProduced(es: seq<Event>, key: Key, r: Response, q: Response)
    requires Runs(es, key) <= 1 && Produced(es, key, r) && Produced(es, key, q)
    ensures r == q
  {
    var i :| 0 <= i < |es| && ProducesAt(es[i], key, r);
    var j :| 0 <= j < |es| && ProducesAt(es[j], key, q);
    if i < j { TwoRuns(es, key, i, j); } else if j < i { TwoRuns(es, key, j, i); }
  }

  lemma {:induction false} TwoRuns(es: seq<Event>, key: Key, i: nat, j: nat)
    requires i < j < |es| && IsRun(es[i], key) && IsRun(es[j], key)
    ensures Runs(es, key) >= 2
  {
    var p := es[..|es|-1];
    if j < |p| { TwoRuns(p, key, i, j); } else { OneRun(p, key, i); }
  }

  lemma {:induction false} OneRun(es: seq<Event>, key: Key, i: nat)
    requires i < |es| && IsRun(es[i], key)
    ensures Runs(es, key) >= 1
  {
    if i < |es| - 1 { OneRun(es[..|es|-1], key, i); }
  }

  // ---------------------------------------------------------------- how many answers a key can have

  /** The different responses that requests for `key` have been answered with. */
  function AnswersOf(s: State, key: Key): set<Response> {
    set who | who in s.requests && s.requests[who].0 == key && s.requests[who].1.Replied?
              && s.requests[who].1.reply.Answer? :: s.requests[who].1.reply.response
  }

  function AllProduced(es: seq<Event>, key: Key): set<Response> {
    if es == [] then {}
    else
      var e := es[|es|-1];
      AllProduced(es[..|es|-1], key) + if e.key == key && e.act.Handle? then {Capture(e.act.raw)} else {}
  }

  lemma {:induction false} ProducedIsBounded(es: seq<Event>, key: Key)
    ensures |AllProduced(es, key)| <= Runs(es, key)
  {
    if es != [] {
      var p, e := es[..|es|-1], es[|es|-1];
      ProducedIsBounded(p, key);
      if e.key == key && e.act.Handle? {
        var before := AllProduced(p, key);
        assert |before + {Capture(e.act.raw)}| <= |before| + 1;
      }
    }
  }

  lemma {:induction false} ProducedMember(es: seq<Event>, key: Key, r: Response)
    requires Produced(es, key, r)
    ensures r in AllProduced(es, key)
  {
    var p, e := es[..|es|-1], es[|es|-1];
    if !ProducesAt(e, key, r) {
      var j :| 0 <= j < |es| && ProducesAt(es[j], key, r);
      assert p[j] == es[j];
      ProducedMember(p, key, r);
    }
  }

  /** A key has at most one answer more than it had expiries. */
  lemma AnswersAtMostOnePlusExpiries(es: seq<Event>, key: Key)
    requires Exec(Initial(), es).Some?
    ensures |AnswersOf(Exec(Initial(), es).value, key)| <= 1 + Expiries(es, key)
  {
    var s := Exec(Initial(), es).value;
    HandlerRunsAtMostOncePlusExpiries(es, key);
    AgreementHolds(es);
    forall r | r in AnswersOf(s, key) ensures r in AllProduced(es, key) {
      var who :| who in s.requests && s.requests[who].0 == key && s.requests[who].1 == Replied(Answer(r));
      assert RequestAgrees(es, who, key, s.requests[who].1);
      ProducedMember(es, key, r);
    }
    ProducedIsBounded(es, key);
    SubsetSize(AnswersOf(s, key), AllProduced(es, key));
  }

  lemma {:induction false} SubsetSize<T>(a: set<T>, b: set<T>)
    requires a <= b
    ensures |a| <= |b|
  {
    if x :| x in a { SubsetSize(a - {x}, b - {x}); }
  }

  /** For every number of expiries some run has that many answers and one more. */
  lemma AnswersReached(key: Key, n: nat, raws: nat -> Raw) returns (es: seq<Event>)
    requires forall i: nat :: Writable(raws(i))
    requires forall i: nat, j: nat :: i != j ==> Capture(raws(i)) != Capture(raws(j))
    ensures Exec(Initial(), es).Some? && Expiries(es, key) == n
    ensures |AnswersOf(Exec(Initial(), es).value, key)| == 1 + n
  {
    es := BoundIsReached(key, n, raws);
    var answers := (i: nat) => Capture(raws(i));
    AnswersOfAnswered(key, 1 + n, raws, answers, Exec(Initial(), es).value.store);
    FirstOfDiffer(1 + n, answers);
  }

  function FirstOf<T>(n: nat, f: nat -> T): set<T> {
    if n == 0 then {} else FirstOf(n - 1, f) + {f(n - 1)}
  }

  lemma {:induction false} AnswersOfAnswered(key: Key, n: nat, raws: nat -> Raw, answers: nat -> Response,
                                             store: map<Key, Entry>)
    requires forall i: nat :: answers(i) == Capture(raws(i))
    ensures AnswersOf(State(store, AnsweredRequests(key, n, raws)), key) == FirstOf(n, answers)
  {
    if n > 0 {
      AnswersOfAnswered(key, n - 1, raws, answers, store);
      OneMoreAnswer(key, n, raws, store);
    }
  }

  lemma {:induction false} FirstOfDiffer<T>(n: nat, f: nat -> T)
    requires forall i: nat, j: nat :: i != j ==> f(i) != f(j)
    ensures |FirstOf(n, f)| == n && forall i: nat :: n <= i ==> f(i) !in FirstOf(n, f)
  {
    if n > 0 { FirstOfDiffer(n - 1, f); }
  }

  lemma OneMoreAnswer(key: Key, n: nat, raws: nat -> Raw, store: map<Key, Entry>)
    requires n > 0
    ensures AnswersOf(State(store, AnsweredRequests(key, n, raws)), key)
         == AnswersOf(State(store, AnsweredRequests(key, n - 1, raws)), key) + {Capture(raws(n - 1))}
  {
    var less, more := AnsweredRequests(key, n - 1, raws), AnsweredRequests(key, n, raws);
    assert forall r :: r in less ==> r in more && more[r] == less[r];
    assert n - 1 in more && more[n - 1] == (key, Replied(Answer(Capture(raws(n - 1)))));
  }

  // ---------------------------------------------------------------- a key that stays blocked

  /** The entry says the key is being processed, and no request is left that could save a response for it. */
  ghost predicate Stuck(s: State, key: Key) {
    && Lookup(s.store, key) == Some(Processing)
    && forall who :: who in s.requests && s.requests[who].0 == key ==>
         !s.requests[who].1.Acquired? && !s.requests[who].1.Captured?
  }

  predicate NoExpiry(es: seq<Event>, key: Key) {
    forall i :: 0 <= i < |es| ==> !(es[i].key == key && es[i].act.Expire?)
  }

  /** A request that cannot be answered any more, or has been turned away. */
  predicate TurnedAway(req: Request) {
    req.Arriving? || req.Checking? || req == Replied(StoreError) || req == Replied(Conflict)
  }

  lemma StuckStep(s: State, e: Event, t: State, key: Key)
    requires Stuck(s, key) && Apply(s, e) == Some(t) && !(e.key == key && e.act.Expire?)
    ensures Stuck(t, key) && !IsRun(e, key)
    ensures e.key == key && (e.act.Arrive? || TurnedAway(s.requests[e.who].1)) ==> TurnedAway(t.requests[e.who].1)
  {
    assert e.key != key ==> Lookup(t.store, key) == Lookup(s.store, key);
    forall who | who in t.requests && t.requests[who].0 == key
      ensures !t.requests[who].1.Acquired? && !t.requests[who].1.Captured?
    {
      if e.act.Expire? || who != e.who { assert t.requests[who] == s.requests[who]; }
    }
  }

  /** As long as its entry does not expire, a stuck key stays stuck: its handler does not run again, and every
      request that arrives from then on gets a conflict or a store error, whatever else goes on. */
  lemma {:induction false} StuckStays(es: seq<Event>, more: seq<Event>, key: Key)
    requires Exec(Initial(), es).Some? && Stuck(Exec(Initial(), es).value, key)
    requires Exec(Initial(), es + more).Some? && NoExpiry(more, key)
    ensures var s, t := Exec(Initial(), es).value, Exec(Initial(), es + more).value;
            && Stuck(t, key) && Runs(es + more, key) == Runs(es, key)
            && forall who :: who in t.requests && who !in s.requests && t.requests[who].0 == key ==>
                 TurnedAway(t.requests[who].1)
  {
    if more == [] {
      assert es + more == es;
    } else {
      var p, e := more[..|more|-1], more[|more|-1];
      assert (es + more)[..|es + more| - 1] == es + p;
      StuckStays(es, p, key);
      StuckStep(Exec(Initial(), es + p).value, e, Exec(Initial(), es + more).value, key);
    }
  }

  // ---------------------------------------------------------------- how a key comes to be blocked

  /** The requests that could still save a response for `key`. */
  function Pending(requests: map<RequestId, (Key, Request)>, key: Key): set<RequestId> {
    set r | r in requests && requests[r].0 == key && Unfinished(requests[r].1)
  }

  predicate Unfinished(req: Request) { req.Acquired? || req.Captured? }

  lemma PendingUpdated(requests: map<RequestId, (Key, Request)>, who: RequestId, at: (Key, Request), key: Key)
    ensures var before, after := Pending(requests, key), Pending(requests[who := at], key);
            after == if at.0 == key && Unfinished(at.1) then before + {who} else before - {who}
  {
  }

  lemma StuckIsNonePending(s: State, key: Key)
    ensures Stuck(s, key) <==> Lookup(s.store, key) == Some(Processing) && Pending(s.requests, key) == {}
  {
    assert forall who :: who in s.requests && s.requests[who].0 == key && Unfinished(s.requests[who].1) ==>
      who in Pending(s.requests, key);
  }

  /** The ways in which a key's processing entry loses the request that was to replace it: its handler panics, its
      save fails without taking effect, or the SetNX that inserted it returned an error. */
  predicate Blocks(e: Event, key: Key, entry: Option<Entry>) {
    e.key == key && (e.act.HandlerPanics? || e.act == SetFails(false) || (e.act == SetNXFails(true) && entry.None?))
  }

  /** One of them has happened in the run. */
  ghost predicate Blocked(es: seq<Event>, key: Key) {
    exists i :: 0 <= i < |es| && BlocksAt(es, i, key)
  }

  ghost predicate BlocksAt(es: seq<Event>, i: nat, key: Key)
    requires i < |es|
  {
    var before := Exec(Initial(), es[..i]);
    before.Some? && Blocks(es[i], key, Lookup(before.value.store, key))
  }

  lemma BlockedMore(es: seq<Event>, e: Event, key: Key)
    requires Exec(Initial(), es).Some?
    ensures Blocked(es + [e], key)
       <==> Blocked(es, key) || Blocks(e, key, Lookup(Exec(Initial(), es).value.store, key))
  {
    var l := es + [e];
    assert l[..|es|] == es;
    assert forall i :: 0 <= i < |es| ==> l[..i] == es[..i];
    assert forall i :: 0 <= i < |es| ==> (BlocksAt(l, i, key) <==> BlocksAt(es, i, key));
    assert BlocksAt(l, |es|, key) <==> Blocks(e, key, Lookup(Exec(Initial(), es).value.store, key));
  }

  /** How entry, unfinished requests and lost ones belong together as long as nothing has expired. */
  predicate Accounted(entry: Option<Entry>, pending: set<RequestId>, blocked: bool) {
    if entry == Some(Processing) then |pending| <= 1 && (pending == {} <==> blocked)
    else pending == {} && !blocked
  }

  /** Only a step of one of its requests touches a key, except that its entry may expire. */
  lemma Untouched(s: State, e: Event, t: State, key: Key)
    requires Apply(s, e) == Some(t) && (e.key != key || e.act.Arrive? || e.act.Expire?)
    ensures Pending(t.requests, key) == Pending(s.requests, key)
    ensures e.key != key || e.act.Arrive? ==> Lookup(t.store, key) == Lookup(s.store, key)
  {
    if !e.act.Expire? {
      assert t.requests == s.requests[e.who := t.requests[e.who]];
      PendingUpdated(s.requests, e.who, t.requests[e.who], key);
    }
  }

  lemma Advanced(s: State, e: Event, t: State)
    requires Apply(s, e) == Some(t) && !e.act.Arrive? && !e.act.Expire?
    ensures e.who in s.requests && (e.who in Pending(s.requests, e.key) <==> Unfinished(s.requests[e.who].1))
    ensures Advance(Lookup(s.store, e.key), s.requests[e.who].1, e.act).Some?
    ensures var (entry, req) := Advance(Lookup(s.store, e.key), s.requests[e.who].1, e.act).value;
            && Lookup(t.store, e.key) == entry
            && Pending(t.requests, e.key) == PendingAfter(Pending(s.requests, e.key), e.who, req)
  {
    var (entry, req) := Advance(Lookup(s.store, e.key), s.requests[e.who].1, e.act).value;
    PendingUpdated(s.requests, e.who, (e.key, req), e.key);
  }

  function PendingAfter(pending: set<RequestId>, who: RequestId, req: Request): set<RequestId> {
    if Unfinished(req) then pending + {who} else pending - {who}
  }

  lemma AccountedStep(s: State, e: Event, t: State, key: Key, blocked: bool)
    requires Apply(s, e) == Some(t) && !(e.key == key && e.act.Expire?)
    requires Accounted(Lookup(s.store, key), Pending(s.requests, key), blocked)
    ensures Accounted(Lookup(t.store, key), Pending(t.requests, key),
                      blocked || Blocks(e, key, Lookup(s.store, key)))
  {
    if e.key != key || e.act.Arrive? {
      Untouched(s, e, t, key);
    } else {
      Advanced(s, e, t);
      AccountedAdvance(Lookup(s.store, key), s.requests[e.who].1, e, Pending(s.requests, key), blocked);
    }
  }

  lemma AccountedAdvance(entry: Option<Entry>, req: Request, e: Event, pending: set<RequestId>, blocked: bool)
    requires Advance(entry, req, e.act).Some? && Accounted(entry, pending, blocked)
    requires e.who in pending <==> Unfinished(req)
    ensures var (entry', req') := Advance(entry, req, e.act).value;
            Accounted(entry', PendingAfter(pending, e.who, req'), blocked || Blocks(e, e.key, entry))
  {
    if e.who in pending {
      OnlyMember(pending, e.who);
      AccountedFinish(entry, req, e, pending, blocked);
    } else {
      AccountedStart(entry, req, e, pending, blocked);
    }
  }

  lemma AccountedFinish(entry: Option<Entry>, req: Request, e: Event, pending: set<RequestId>, blocked: bool)
    requires Advance(entry, req, e.act).Some? && Accounted(entry, pending, blocked) && Unfinished(req)
    requires pending == {e.who} && pending + {e.who} == pending && pending - {e.who} == {}
    ensures var (entry', req') := Advance(entry, req, e.act).value;
            Accounted(entry', PendingAfter(pending, e.who, req'), blocked || Blocks(e, e.key, entry))
  {}

  lemma AccountedStart(entry: Option<Entry>, req: Request, e: Event, pending: set<RequestId>, blocked: bool)
    requires Advance(entry, req, e.act).Some? && Accounted(entry, pending, blocked) && !Unfinished(req)
    requires e.who !in pending
    ensures var (entry', req') := Advance(entry, req, e.act).value;
            Accounted(entry', PendingAfter(pending, e.who, req'), blocked || Blocks(e, e.key, entry))
  {
    assert pending - {e.who} == pending;
    if e.act.SetNX? && entry.None? { assert pending + {e.who} == {e.who}; }
  }

  lemma OnlyMember<T>(a: set<T>, x: T)
    requires x in a && |a| <= 1
    ensures a == {x} && a + {x} == a && a - {x} == {}
  {
    assert |a - {x}| == 0;
  }

  lemma {:induction false} AccountedAlways(es: seq<Event>, key: Key)
    requires Exec(Initial(), es).Some? && Expiries(es, key) == 0
    ensures var s := Exec(Initial(), es).value;
            Accounted(Lookup(s.store, key), Pending(s.requests, key), Blocked(es, key))
  {
    if es == [] {
      assert Pending(map[], key) == {};
    } else {
      var p, e := es[..|es|-1], es[|es|-1];
      AccountedAlways(p, key);
      assert es == p + [e];
      BlockedMore(p, e, key);
      AccountedStep(Exec(Initial(), p).value, e, Exec(Initial(), es).value, key, Blocked(p, key));
    }
  }

  /** As long as the key has not expired, it is stuck exactly when its handler has panicked, its save has failed
      without taking effect, or the SetNX that inserted its entry has returned an error. */
  lemma StuckIff(es: seq<Event>, key: Key)
    requires Exec(Initial(), es).Some? && Expiries(es, key) == 0
    ensures Stuck(Exec(Initial(), es).value, key) <==> Blocked(es, key)
  {
    AccountedAlways(es, key);
    StuckIsNonePending(Exec(Initial(), es).value, key);
  }

  /** A 409 tells of a request in progress, again without an expiry, exactly when none of the three has happened:
      then one request, and no other, is still to save its response. */
  lemma ConflictIsInProgressIff(es: seq<Event>, key: Key)
    requires Exec(Initial(), es).Some? && Expiries(es, key) == 0
    requires Lookup(Exec(Initial(), es).value.store, key) == Some(Processing)
    ensures |Pending(Exec(Initial(), es).value.requests, key)| == 1 <==> !Blocked(es, key)
  {
    AccountedAlways(es, key);
  }

  // With expiries a request may outlive its entry, and what counts is how many have finished.

  /** Requests that won the key, and requests that are done with it. */
  function Won(es: seq<Event>, key: Key): nat {
    if es == [] then 0
    else
      var p, e := es[..|es|-1], es[|es|-1];
      Won(p, key) + (if e.key == key && e.act.SetNX? && Wins(Exec(Initial(), p), key) then 1 else 0)
  }

  predicate Wins(s: Option<State>, key: Key) { s.Some? && key !in s.value.store }

  function Finished(es: seq<Event>, key: Key): nat {
    if es == [] then 0
    else Finished(es[..|es|-1], key) + (if Finishes(es[|es|-1], key) then 1 else 0)
  }

  predicate Finishes(e: Event, key: Key) {
    e.key == key && (e.act.HandlerPanics? || e.act.Set? || e.act.SetFails?)
  }

  /** In every run, expiries included, the requests still to save are those that won and have not finished. */
  lemma {:induction false} PendingCount(es: seq<Event>, key: Key)
    requires Exec(Initial(), es).Some?
    ensures Finished(es, key) + |Pending(Exec(Initial(), es).value.requests, key)| == Won(es, key)
  {
    if es == [] {
      assert Pending(map[], key) == {};
    } else {
      var p, e := es[..|es|-1], es[|es|-1];
      PendingCount(p, key);
      PendingCountStep(Exec(Initial(), p).value, e, Exec(Initial(), es).value, key);
    }
  }

  lemma PendingCountStep(s: State, e: Event, t: State, key: Key)
    requires Apply(s, e) == Some(t)
    ensures |Pending(t.requests, key)| + (if Finishes(e, key) then 1 else 0)
         == |Pending(s.requests, key)| + (if e.key == key && e.act.SetNX? && Wins(Some(s), key) then 1 else 0)
  {
    if e.key != key || e.act.Arrive? || e.act.Expire? {
      Untouched(s, e, t, key);
    } else {
      Advanced(s, e, t);
      PendingCountAdvance(Lookup(s.store, key), s.requests[e.who].1, e, Pending(s.requests, key));
    }
  }

  lemma PendingCountAdvance(entry: Option<Entry>, req: Request, e: Event, pending: set<RequestId>)
    requires Advance(entry, req, e.act).Some? && (e.who in pending <==> Unfinished(req))
    ensures |PendingAfter(pending, e.who, Advance(entry, req, e.act).value.1)| + (if Finishes(e, e.key) then 1 else 0)
         == |pending| + (if e.act.SetNX? && entry.None? then 1 else 0)
  {
    if e.who in pending {
      assert pending + {e.who} == pending && |pending - {e.who}| == |pending| - 1;
    } else {
      assert pending - {e.who} == pending && |pending + {e.who}| == |pending| + 1;
    }
  }

  /** In every run a key whose entry says processing is stuck exactly when every request that won it has panicked
      or tried to save. */
  lemma StuckByCount(es: seq<Event>, key: Key)
    requires Exec(Initial(), es).Some? && Lookup(Exec(Initial(), es).value.store, key) == Some(Processing)
    ensures Stuck(Exec(Initial(), es).value, key) <==> Finished(es, key) == Won(es, key)
  {
    PendingCount(es, key);
    StuckIsNonePending(Exec(Initial(), es).value, key);
  }

  // ---------------------------------------------------------------- keys do not interfere

  function OfKey(es: seq<Event>, key: Key): seq<Event> {
    if es == [] then []
    else OfKey(es[..|es|-1], key) + if es[|es|-1].key == key then [es[|es|-1]] else []
  }

  function Seen(s: State, key: Key): State {
    State(map k | k in s.store && k == key :: s.store[k],
          map r | r in s.requests && s.requests[r].0 == key :: s.requests[r])
  }

  /** What happens to one key in an interleaving is what would happen if the events of all other
      keys were taken away. */
  lemma {:induction false} KeysDoNotInterfere(es: seq<Event>, key: Key)
    requires Exec(Initial(), es).Some?
    ensures Exec(Initial(), OfKey(es, key)) == Some(Seen(Exec(Initial(), es).value, key))
  {
    if es != [] {
      var p, e := es[..|es|-1], es[|es|-1];
      KeysDoNotInterfere(p, key);
      var s, t := Exec(Initial(), p).value, Exec(Initial(), es).value;
      if e.key == key {
        ExecStep(Initial(), OfKey(p, key), e);
        SameKeyStep(s, e, t);
      } else {
        OtherKeyStep(s, e, t, key);
        assert OfKey(es, key) == OfKey(p, key);
      }
    }
  }

  lemma SameKeyStep(s: State, e: Event, t: State)
    requires Apply(s, e) == Some(t)
    ensures Apply(Seen(s, e.key), e) == Some(Seen(t, e.key))
  {
    assert Lookup(Seen(s, e.key).store, e.key) == Lookup(s.store, e.key);
    if e.act.Arrive? {
      SeenRequest(s, e, Arriving);
    } else if e.act.Expire? {
      SeenStore(s, e.key, None);
    } else {
      var (entry, req) := Advance(Lookup(s.store, e.key), s.requests[e.who].1, e.act).value;
      SeenRequest(s, e, req);
      SeenStore(s, e.key, entry);
    }
  }

  lemma SeenRequest(s: State, e: Event, req: Request)
    ensures Seen(State(s.store, s.requests[e.who := (e.key, req)]), e.key).requests
      == Seen(s, e.key).requests[e.who := (e.key, req)]
  {}

  lemma SeenStore(s: State, key: Key, entry: Option<Entry>)
    ensures Seen(State(Update(s.store, key, entry), s.requests), key).store == Update(Seen(s, key).store, key, entry)
  {}

  lemma OtherKeyStep(s: State, e: Event, t: State, key: Key)
    requires Apply(s, e) == Some(t) && e.key != key
    ensures Seen(t, key) == Seen(s, key)
  {
    assert Lookup(t.store, key) == Lookup(s.store, key);
    assert Seen(t, key).store == Seen(s, key).store;
    assert Seen(t, key).requests == Seen(s, key).requests;
  }
}
