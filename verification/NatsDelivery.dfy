/** JetStream message processing of pkg/broker/nats: any number of deliveries and redeliveries in
    progress at once, each retrying, dead-lettering and answering with Ack or Nak. */
module NatsDelivery {
  import opened Common

  type Msg = nat
  type DeliveryId = nat

  datatype Config = Config(maxRetries: int, hasDLQ: bool)

  datatype Phase =
    | Attempting(attempt: nat)
    | Routing                  // all attempts failed; publishing to the dead-letter queue
    | Refusing                 // the dead-letter publish failed
    | Unrouted                 // all attempts failed and no dead-letter queue is configured
    | Accepting                // before the final Ack
    | Ended
    | Gone                     // the process crashed

  /** `js` is what the code reads from the subscriber's JetStream field just before answering. */
  datatype Act =
    | HandlerOk
    | HandlerErr
    | DLQOk
    | DLQFail
    | Ack(applied: bool)
    | Nak
    | NoAnswer

  datatype Event =
    | Publish(msg: Msg)
    | Deliver(id: DeliveryId, msg: Msg)
    | Do(id: DeliveryId, act: Act)
    | Crash(id: DeliveryId)
    | Stop                     // clears the JetStream field

  /** `settled` is history: the messages whose handler or dead-letter publish has succeeded. */
  datatype State = State(published: set<Msg>, pending: set<Msg>, settled: set<Msg>,
                         deliveries: map<DeliveryId, (Msg, Phase)>, js: bool)

  function Initial(): State { State({}, {}, {}, map[], true) }

  function Attempts(cfg: Config): int { 1 + cfg.maxRetries }

  function Begin(cfg: Config): Phase {
    if Attempts(cfg) > 0 then Attempting(0) else Accepting
  }

  function Advance(cfg: Config, js: bool, phase: Phase, act: Act): Option<Phase> {
    match (phase, act)
    case (Attempting(_), HandlerOk) => Some(Accepting)
    case (Attempting(i), HandlerErr) =>
      Some(if i != Attempts(cfg) - 1 then Attempting(i + 1) else if cfg.hasDLQ then Routing else Unrouted)
    case (Routing, DLQOk) => Some(Accepting)
    case (Routing, DLQFail) => Some(Refusing)
    case (Refusing, Nak) => if js then Some(Ended) else None
    case (Refusing, NoAnswer) => if js then None else Some(Ended)
    case (Unrouted, Nak) => if js then Some(Ended) else None
    case (Unrouted, NoAnswer) => if js then None else Some(Accepting)
    case (Accepting, Ack(_)) => if js then Some(Ended) else None
    case (Accepting, NoAnswer) => if js then None else Some(Ended)
    case _ => None
  }

  predicate Settles(act: Act) { act.HandlerOk? || act.DLQOk? }

  function Apply(cfg: Config, s: State, e: Event): Option<State> {
    match e
    case Publish(m) =>
      if m in s.published then None
      else Some(s.(published := s.published + {m}, pending := s.pending + {m}))
    case Deliver(d, m) =>
      if d in s.deliveries || m !in s.pending then None
      else Some(s.(deliveries := s.deliveries[d := (m, Begin(cfg))]))
    case Do(d, act) =>
      if d !in s.deliveries then None
      else
        var (m, phase) := s.deliveries[d];
        (match Advance(cfg, s.js, phase, act)
         case None => None
         case Some(next) =>
           Some(s.(deliveries := s.deliveries[d := (m, next)],
                   settled := if Settles(act) then s.settled + {m} else s.settled,
                   pending := if act.Ack? && act.applied then s.pending - {m} else s.pending)))
    case Crash(d) =>
      if d !in s.deliveries then None else Some(s.(deliveries := s.deliveries[d := (s.deliveries[d].0, Gone)]))
    case Stop => Some(s.(js := false))
  }

  function Run(cfg: Config, es: seq<Event>): Option<State> {
    if es == [] then Some(Initial())
    else match Run(cfg, es[..|es|-1])
      case None => None
      case Some(s) => Apply(cfg, s, es[|es|-1])
  }

  // ---------------------------------------------------------------- the code

  /** What the environment decides while one delivery is processed; `jsAtNak` and `jsAtAck` are the
      values read from the JetStream field at the two places that read it. */
  datatype Script = Script(handler: nat -> bool, dlq: bool, jsAtNak: bool, jsAtAck: bool, applied: bool)

  /** The acts of one delivery, each with the JetStream value it saw. */
  function Follow(cfg: Config, phase: Phase, acts: seq<(Act, bool)>): Option<Phase> {
    if acts == [] then Some(phase)
    else match Follow(cfg, phase, acts[..|acts|-1])
      case None => None
      case Some(p) => Advance(cfg, acts[|acts|-1].1, p, acts[|acts|-1].0)
  }

  /** The last value read from the JetStream field; it is set to begin with. */
  function LastSeen(acts: seq<(Act, bool)>): bool { acts == [] || acts[|acts|-1].1 }

  /** The field, once seen cleared, stays cleared: the subscriber is not started again. */
  predicate Falling(acts: seq<(Act, bool)>) {
    acts == [] || (Falling(acts[..|acts|-1]) && (acts[|acts|-1].1 ==> LastSeen(acts[..|acts|-1])))
  }

  /** What delivery `d` did in a run. */
  function ActsOf(es: seq<Event>, d: DeliveryId): seq<Act> {
    if es == [] then []
    else ActsOf(es[..|es|-1], d) + (match es[|es|-1] case Do(i, act) => (if i == d then [act] else []) case _ => [])
  }

  function JustActs(acts: seq<(Act, bool)>): seq<Act> {
    if acts == [] then [] else JustActs(acts[..|acts|-1]) + [acts[|acts|-1].0]
  }

  /** What the code does with one delivery is a run of the machine in which the delivery does just that. */
  lemma {:induction false} FollowIsARun(cfg: Config, m: Msg, d: DeliveryId, acts: seq<(Act, bool)>)
    returns (es: seq<Event>)
    requires Follow(cfg, Begin(cfg), acts).Some? && Falling(acts)
    ensures Run(cfg, es).Some? && ActsOf(es, d) == JustActs(acts)
    ensures var s := Run(cfg, es).value;
            s.js == LastSeen(acts) && d in s.deliveries && s.deliveries[d] == (m, Follow(cfg, Begin(cfg), acts).value)
  {
    if acts == [] {
      Next(cfg, [], Publish(m));
      Next(cfg, [] + [Publish(m)], Deliver(d, m));
      es := [] + [Publish(m)] + [Deliver(d, m)];
      NoActs(cfg, m, d);
    } else {
      var n := |acts| - 1;
      es := FollowIsARun(cfg, m, d, acts[..n]);
      var (act, js) := acts[n];
      if !js && LastSeen(acts[..n]) { es := Stopped(cfg, es, d); }
      Next(cfg, es, Do(d, act));
      NextActs(es, Do(d, act), d);
      es := es + [Do(d, act)];
    }
  }

  /** A Stop before the next act of the delivery. */
  lemma Stopped(cfg: Config, es: seq<Event>, d: DeliveryId) returns (longer: seq<Event>)
    requires Run(cfg, es).Some? && Run(cfg, es).value.js
    ensures Run(cfg, longer) == Some(Run(cfg, es).value.(js := false)) && ActsOf(longer, d) == ActsOf(es, d)
  {
    Next(cfg, es, Event.Stop);
    NextActs(es, Event.Stop, d);
    longer := es + [Event.Stop];
  }

  lemma NextActs(es: seq<Event>, e: Event, d: DeliveryId)
    ensures ActsOf(es + [e], d) == ActsOf(es, d) + if e.Do? && e.id == d then [e.act] else []
  {
    assert (es + [e])[..|es|] == es;
  }

  lemma NoActs(cfg: Config, m: Msg, d: DeliveryId)
    ensures ActsOf([] + [Publish(m)] + [Deliver(d, m)], d) == []
  {
    NextActs([], Publish(m), d);
    NextActs([] + [Publish(m)], Deliver(d, m), d);
  }

  datatype Kind = Try | Route | Accept | Refuse

  predicate OfKind(act: Act, kind: Kind) {
    match kind
    case Try => act.HandlerOk? || act.HandlerErr?
    case Route => act.DLQOk? || act.DLQFail?
    case Accept => act.Ack?
    case Refuse => act.Nak?
  }

  /** How many of the acts are of one kind. */
  function Times(acts: seq<(Act, bool)>, kind: Kind): nat {
    if acts == [] then 0 else Times(acts[..|acts|-1], kind) + if OfKind(acts[|acts|-1].0, kind) then 1 else 0
  }

  /** The retry wait ends with its timer: the context is derived from the background context and
      is never cancelled. */
  method ProcessMessage(cfg: Config, sc: Script)
    returns (calls: nat, published: bool, acked: bool, naked: bool, ghost acts: seq<(Act, bool)>)
    ensures Follow(cfg, Begin(cfg), acts) == Some(Ended) && ((sc.jsAtAck ==> sc.jsAtNak) ==> Falling(acts))
    ensures cfg.maxRetries >= 0 ==> 1 <= calls <= 1 + cfg.maxRetries
    ensures cfg.maxRetries < 0 ==> calls == 0 && !published && !naked
    ensures forall i :: 0 <= i < calls - 1 ==> !sc.handler(i)
    ensures 0 < calls < 1 + cfg.maxRetries ==> sc.handler(calls - 1)
    ensures var failed := calls > 0 && !sc.handler(calls - 1);
            && (published <==> failed && cfg.hasDLQ)
            && (naked <==> failed && sc.jsAtNak && !(published && sc.dlq))
            && (acked <==> sc.jsAtAck && !(failed && if published then !sc.dlq else sc.jsAtNak))
    ensures !(acked && naked) && (sc.jsAtNak && sc.jsAtAck ==> acked || naked)
    ensures Times(acts, Try) == calls && Times(acts, Route) == (if published then 1 else 0)
    ensures Times(acts, Accept) == (if acked then 1 else 0) && Times(acts, Refuse) == (if naked then 1 else 0)
  {
    var failed;
    calls, failed, acts := InvokeWithRetries(cfg, sc);
    published, acked, naked, acts := RouteAndAnswer(cfg, sc, failed, acts);
  }

  /** After the attempts: dead-letter a failed message, then Ack or Nak. */
  method RouteAndAnswer(cfg: Config, sc: Script, failed: bool, ghost before: seq<(Act, bool)>)
    returns (published: bool, acked: bool, naked: bool, ghost acts: seq<(Act, bool)>)
    requires Follow(cfg, Begin(cfg), before)
      == Some(if !failed then Accepting else if cfg.hasDLQ then Routing else Unrouted)
    requires LastSeen(before) && Falling(before)
    requires Times(before, Route) == Times(before, Accept) == Times(before, Refuse) == 0
    ensures Times(acts, Try) == Times(before, Try) && Times(acts, Route) == (if published then 1 else 0)
    ensures Times(acts, Accept) == (if acked then 1 else 0) && Times(acts, Refuse) == (if naked then 1 else 0)
    ensures Follow(cfg, Begin(cfg), acts) == Some(Ended) && ((sc.jsAtAck ==> sc.jsAtNak) ==> Falling(acts))
    ensures published <==> failed && cfg.hasDLQ
    ensures naked <==> failed && sc.jsAtNak && !(cfg.hasDLQ && sc.dlq)
    ensures acked <==> sc.jsAtAck && !(failed && if cfg.hasDLQ then !sc.dlq else sc.jsAtNak)
  {
    published, acked, naked, acts := false, false, false, before;
    if failed {
      if cfg.hasDLQ {
        published := true;
        acts := Note(cfg, acts, if sc.dlq then DLQOk else DLQFail, true);
        if !sc.dlq {
          naked := sc.jsAtNak;
          acts := Note(cfg, acts, if naked then Nak else NoAnswer, sc.jsAtNak);
          return;
        }
      } else {
        naked := sc.jsAtNak;
        acts := Note(cfg, acts, if naked then Nak else NoAnswer, sc.jsAtNak);
        if naked { return; }
      }
    }
    acked := sc.jsAtAck;
    acts := Note(cfg, acts, if acked then Ack(sc.applied) else NoAnswer, sc.jsAtAck);
  }

  method InvokeWithRetries(cfg: Config, sc: Script) returns (calls: nat, failed: bool, ghost acts: seq<(Act, bool)>)
    ensures cfg.maxRetries >= 0 ==> 1 <= calls <= 1 + cfg.maxRetries
    ensures cfg.maxRetries < 0 ==> calls == 0 && !failed
    ensures forall i :: 0 <= i < calls - 1 ==> !sc.handler(i)
    ensures failed ==> calls == 1 + cfg.maxRetries && !sc.handler(calls - 1)
    ensures !failed && cfg.maxRetries >= 0 ==> sc.handler(calls - 1)
    ensures LastSeen(acts) && Falling(acts)
    ensures Times(acts, Try) == calls && Times(acts, Route) == Times(acts, Accept) == Times(acts, Refuse) == 0
    ensures Follow(cfg, Begin(cfg), acts)
      == Some(if !failed then Accepting else if cfg.hasDLQ then Routing else Unrouted)
  {
    calls, failed, acts := 0, false, [];
    while calls < Attempts(cfg)
      invariant calls <= Attempts(cfg) || (calls == 0 && Attempts(cfg) <= 0)
      invariant forall i :: 0 <= i < calls ==> !sc.handler(i)
      invariant (failed <==> calls > 0) && LastSeen(acts) && Falling(acts)
      invariant Times(acts, Try) == calls && Times(acts, Route) == Times(acts, Accept) == Times(acts, Refuse) == 0
      invariant Follow(cfg, Begin(cfg), acts) == Some(
                  if calls < Attempts(cfg) then Attempting(calls)
                  else if !failed then Accepting else if cfg.hasDLQ then Routing else Unrouted)
    {
      calls := calls + 1;
      if sc.handler(calls - 1) {
        acts := Note(cfg, acts, HandlerOk, true);
        failed := false;
        break;
      }
      failed := true;
      acts := Note(cfg, acts, HandlerErr, true);
    }
  }

  /** The acts so far and one more. */
  lemma Note(cfg: Config, acts: seq<(Act, bool)>, act: Act, js: bool) returns (longer: seq<(Act, bool)>)
    requires Follow(cfg, Begin(cfg), acts).Some?
    ensures Follow(cfg, Begin(cfg), longer) == Advance(cfg, js, Follow(cfg, Begin(cfg), acts).value, act)
    ensures forall kind :: Times(longer, kind) == Times(acts, kind) + if OfKind(act, kind) then 1 else 0
    ensures LastSeen(longer) == js && (Falling(longer) <==> Falling(acts) && (js ==> LastSeen(acts)))
  {
    longer := acts + [(act, js)];
    assert longer[..|acts|] == acts;
  }

  // ---------------------------------------------------------------- nothing is acknowledged unsettled

  ghost predicate Sound(cfg: Config, s: State) {
    && s.pending <= s.published
    && s.published - s.pending <= s.settled
    && (forall d :: d in s.deliveries ==>
          && s.deliveries[d].0 in s.published
          && (s.js && s.deliveries[d].1.Accepting? ==> s.deliveries[d].0 in s.settled))
  }

  /** Over any deliveries, redeliveries, crashes and failing answers, a message leaves the pending
      set only after its handler or its dead-letter publish has succeeded. */
  lemma {:induction false} LeavesPendingOnlyWhenSettled(cfg: Config, es: seq<Event>)
    requires cfg.maxRetries >= 0 && Run(cfg, es).Some?
    ensures Sound(cfg, Run(cfg, es).value)
  {
    if es != [] { LeavesPendingOnlyWhenSettled(cfg, es[..|es|-1]); }
  }

  /** With a negative retry count the guarantee fails: the message is acknowledged with no attempt. */
  lemma NegativeRetriesAckUnhandled(cfg: Config) returns (es: seq<Event>)
    requires cfg.maxRetries < 0
    ensures Run(cfg, es).Some? && 0 in Run(cfg, es).value.published - Run(cfg, es).value.pending
      && Run(cfg, es).value.settled == {}
  {
    Next(cfg, [], Publish(0));
    Next(cfg, [] + [Publish(0)], Deliver(0, 0));
    Next(cfg, [] + [Publish(0)] + [Deliver(0, 0)], Do(0, Ack(true)));
    es := [] + [Publish(0)] + [Deliver(0, 0)] + [Do(0, Ack(true))];
  }

  lemma Next(cfg: Config, es: seq<Event>, e: Event)
    requires Run(cfg, es).Some?
    ensures Run(cfg, es + [e]) == Apply(cfg, Run(cfg, es).value, e)
  {
    assert (es + [e])[..|es|] == es;
  }

  /** A delivery whose process has crashed does nothing more, whatever else goes on. */
  lemma {:induction false} CrashEnds(cfg: Config, es: seq<Event>, d: DeliveryId, more: seq<Event>)
    requires Run(cfg, es + [Crash(d)] + more).Some?
    ensures var s := Run(cfg, es + [Crash(d)] + more).value; d in s.deliveries && s.deliveries[d].1.Gone?
    ensures ActsOf(es + [Crash(d)] + more, d) == ActsOf(es, d)
  {
    var all := es + [Crash(d)] + more;
    if more == [] {
      assert all[..|all|-1] == es && all[|all|-1] == Crash(d);
      assert ActsOf(es, d) + [] == ActsOf(es, d);
    } else {
      var p := more[..|more|-1];
      assert all[..|all|-1] == es + [Crash(d)] + p && all[|all|-1] == more[|more|-1];
      CrashEnds(cfg, es, d, p);
      assert ActsOf(es, d) + [] == ActsOf(es, d);
    }
  }

  // ---------------------------------------------------------------- one delivery

  /** How often delivery `d` satisfies a class of acts. */
  function Calls(es: seq<Event>, d: DeliveryId): nat {
    if es == [] then 0
    else
      var e := es[|es|-1];
      Calls(es[..|es|-1], d) + if e.Do? && e.id == d && (e.act.HandlerOk? || e.act.HandlerErr?) then 1 else 0
  }

  function DLQPublishes(es: seq<Event>, d: DeliveryId): nat {
    if es == [] then 0
    else
      var e := es[|es|-1];
      DLQPublishes(es[..|es|-1], d) + if e.Do? && e.id == d && (e.act.DLQOk? || e.act.DLQFail?) then 1 else 0
  }

  function Answers(es: seq<Event>, d: DeliveryId): nat {
    if es == [] then 0
    else
      var e := es[|es|-1];
      Answers(es[..|es|-1], d) + if e.Do? && e.id == d && (e.act.Ack? || e.act.Nak?) then 1 else 0
  }

  ghost predicate Counted(cfg: Config, s: State, es: seq<Event>, d: DeliveryId) {
    var calls, dlq, answers := Calls(es, d), DLQPublishes(es, d), Answers(es, d);
    if d !in s.deliveries then calls == 0 && dlq == 0 && answers == 0
    else match s.deliveries[d].1
      case Attempting(i) => i < Attempts(cfg) && calls == i && dlq == 0 && answers == 0
      case Routing => calls == Attempts(cfg) && dlq == 0 && answers == 0
      case Refusing => calls == Attempts(cfg) && dlq == 1 && answers == 0
      case Unrouted => calls == Attempts(cfg) && dlq == 0 && answers == 0
      case Accepting => 1 <= calls <= Attempts(cfg) && dlq <= 1 && (dlq == 1 ==> calls == Attempts(cfg)) && answers == 0
      case Ended => 1 <= calls <= Attempts(cfg) && dlq <= 1 && (dlq == 1 ==> calls == Attempts(cfg)) && answers <= 1
        && (s.js ==> answers == 1)
      case Gone => calls <= Attempts(cfg) && dlq <= 1 && (dlq == 1 ==> calls == Attempts(cfg)) && answers <= 1
  }

  /** Whatever else is interleaved with it, a finished delivery made between 1 and 1 + maxRetries
      handler calls, published to the dead-letter queue at most once and then only after all
      attempts, and while the JetStream field stays set answered exactly once. */
  lemma {:induction false} EachDeliveryCounted(cfg: Config, es: seq<Event>, d: DeliveryId)
    requires cfg.maxRetries >= 0 && Run(cfg, es).Some?
    ensures Counted(cfg, Run(cfg, es).value, es, d)
  {
    if es != [] {
      var p, e := es[..|es|-1], es[|es|-1];
      EachDeliveryCounted(cfg, p, d);
      if e.Do? && e.id == d {
        ActCounted(cfg, es, d);
      } else {
        assert Calls(es, d) == Calls(p, d) && DLQPublishes(es, d) == DLQPublishes(p, d)
          && Answers(es, d) == Answers(p, d);
      }
    }
  }

  lemma ActCounted(cfg: Config, es: seq<Event>, d: DeliveryId)
    requires cfg.maxRetries >= 0 && Run(cfg, es).Some? && es != [] && es[|es|-1].Do? && es[|es|-1].id == d
    requires var p := es[..|es|-1]; Counted(cfg, Run(cfg, p).value, p, d)
    ensures Counted(cfg, Run(cfg, es).value, es, d)
  {}
}
