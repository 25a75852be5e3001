/** The shutdown protocol of the NATS subscriber: any number of message callbacks and of calls to
    Stop, interleaved at every lock and wait. The connection is not started again. */
module NatsShutdown {
  import opened Common

  type CallbackId = nat
  type StopId = nat

  datatype Callback =
    | Dispatched    // before the guard
    | Active        // past the guard, its handler not finished
    | Finished
    | TurnedAway    // the guard saw no connection

  datatype Stopping =
    | Snapshotted   // the connection was read and is set
    | Waited        // the wait group was seen at zero
    | Drained       // the connection was drained; before the fields are cleared
    | Returned
    | NothingToDo   // the connection was already cleared

  datatype State = State(conn: bool, wg: nat, callbacks: map<CallbackId, Callback>, stops: map<StopId, Stopping>)

  datatype Event =
    | Dispatch(c: CallbackId)
    | Guard(c: CallbackId)
    | Finish(c: CallbackId)
    | BeginStop(t: StopId)
    | Wait(t: StopId)
    | Drain(t: StopId)
    | Clear(t: StopId)

  function Initial(): State { State(true, 0, map[], map[]) }

  predicate CallbackAt(s: State, c: CallbackId, at: Callback) { c in s.callbacks && s.callbacks[c] == at }
  predicate StopAt(s: State, t: StopId, at: Stopping) { t in s.stops && s.stops[t] == at }

  function Apply(s: State, e: Event): Option<State> {
    match e
    case Dispatch(c) =>
      if c in s.callbacks then None else Some(s.(callbacks := s.callbacks[c := Dispatched]))
    case Guard(c) =>
      if !CallbackAt(s, c, Dispatched) then None
      else if !s.conn then Some(s.(callbacks := s.callbacks[c := TurnedAway]))
      else Some(s.(callbacks := s.callbacks[c := Active], wg := s.wg + 1))
    case Finish(c) =>
      if !CallbackAt(s, c, Active) || s.wg == 0 then None
      else Some(s.(callbacks := s.callbacks[c := Finished], wg := s.wg - 1))
    case BeginStop(t) =>
      if t in s.stops then None
      else Some(s.(stops := s.stops[t := if s.conn then Snapshotted else NothingToDo]))
    case Wait(t) =>
      if StopAt(s, t, Snapshotted) && s.wg == 0 then Some(s.(stops := s.stops[t := Waited])) else None
    case Drain(t) =>
      if StopAt(s, t, Waited) then Some(s.(stops := s.stops[t := Drained])) else None
    case Clear(t) =>
      if StopAt(s, t, Drained) then Some(s.(stops := s.stops[t := Returned], conn := false)) else None
  }

  function Run(es: seq<Event>): Option<State> {
    if es == [] then Some(Initial())
    else match Run(es[..|es|-1])
      case None => None
      case Some(s) => Apply(s, es[|es|-1])
  }

  // ---------------------------------------------------------------- the code

  class Subscriber {
    var conn: bool
    var js: bool
    var subs: seq<string>
    var wg: nat

    constructor (jetStream: bool)
      ensures conn && js == jetStream && subs == [] && wg == 0
    {
      conn, js, subs, wg := true, jetStream, [], 0;
    }

    /** The guard at the head of every message callback, one critical section. */
    method EnterCallback(ghost s: State, ghost c: CallbackId) returns (passed: bool, ghost t: State)
      requires s.conn == conn && s.wg == wg && CallbackAt(s, c, Dispatched)
      modifies this
      ensures Apply(s, Guard(c)) == Some(t) && t.conn == conn && t.wg == wg
      ensures (passed <==> CallbackAt(t, c, Active)) && (!passed <==> CallbackAt(t, c, TurnedAway))
      ensures passed == conn == old(conn) && wg == old(wg) + (if passed then 1 else 0)
      ensures js == old(js) && subs == old(subs)
    {
      t := Apply(s, Guard(c)).value;
      passed := conn;
      if passed { wg := wg + 1; }
    }

    method FinishCallback(ghost s: State, ghost c: CallbackId) returns (ghost t: State)
      requires s.conn == conn && s.wg == wg > 0 && CallbackAt(s, c, Active)
      modifies this
      ensures Apply(s, Finish(c)) == Some(t) && t.conn == conn && t.wg == wg
      ensures CallbackAt(t, c, Finished) && wg == old(wg) - 1
      ensures conn == old(conn) && js == old(js) && subs == old(subs)
    {
      t := Apply(s, Finish(c)).value;
      wg := wg - 1;
    }

    /** Subscribe keeps the new subscription, in its last critical section. */
    method KeepSubscription(sub: string)
      modifies this
      ensures subs == old(subs) + [sub] && conn == old(conn) && js == old(js) && wg == old(wg)
    {
      subs := subs + [sub];
    }

    /** The first critical section of Stop: what it will drain, and whether there is anything to stop. */
    method BeginStop(ghost s: State, ghost id: StopId) returns (drained: seq<string>, connected: bool, ghost t: State)
      requires s.conn == conn && s.wg == wg && id !in s.stops
      ensures Apply(s, Event.BeginStop(id)) == Some(t) && t.conn == conn && t.wg == wg
      ensures drained == subs && connected == conn
      ensures (connected <==> StopAt(t, id, Snapshotted)) && (!connected <==> StopAt(t, id, NothingToDo))
    {
      t := Apply(s, Event.BeginStop(id)).value;
      drained, connected := subs, conn;
    }

    /** The last critical section of Stop. */
    method ClearFields(ghost s: State, ghost id: StopId) returns (ghost t: State)
      requires s.conn == conn && s.wg == wg && StopAt(s, id, Drained)
      modifies this
      ensures Apply(s, Clear(id)) == Some(t) && t.conn == conn && t.wg == wg
      ensures !conn && !js && subs == [] && wg == old(wg) && StopAt(t, id, Returned)
    {
      t := Apply(s, Clear(id)).value;
      conn, js, subs := false, false, [];
    }
  }

  // ---------------------------------------------------------------- invariants

  function ActiveCallbacks(callbacks: map<CallbackId, Callback>): set<CallbackId> {
    set c | c in callbacks && callbacks[c] == Active
  }

  lemma ActiveUpdated(callbacks: map<CallbackId, Callback>, c: CallbackId, at: Callback)
    ensures var before, after := ActiveCallbacks(callbacks), ActiveCallbacks(callbacks[c := at]);
            after == if at.Active? then before + {c} else before - {c}
  {
  }

  /** The wait group counts exactly the callbacks that have passed the guard and not finished. */
  lemma {:induction false} WaitGroupCountsActive(es: seq<Event>)
    requires Run(es).Some?
    ensures Run(es).value.wg == |ActiveCallbacks(Run(es).value.callbacks)|
  {
    if es != [] {
      var p, e := es[..|es|-1], es[|es|-1];
      WaitGroupCountsActive(p);
      if e.Dispatch? || e.Guard? || e.Finish? {
        ActiveUpdated(Run(p).value.callbacks, e.c, Run(es).value.callbacks[e.c]);
      }
    }
  }

  /** The connection is gone exactly when some Stop has cleared it, and then nothing passes the guard. */
  lemma {:induction false} ConnectionGoneOnceReturned(es: seq<Event>)
    requires Run(es).Some?
    ensures !Run(es).value.conn <==> exists t :: StopAt(Run(es).value, t, Returned)
  {
    if es != [] {
      var p, e := es[..|es|-1], es[|es|-1];
      ConnectionGoneOnceReturned(p);
      var s, s' := Run(p).value, Run(es).value;
      if e.Clear? { assert StopAt(s', e.t, Returned); }
      if exists t :: StopAt(s, t, Returned) {
        var t :| StopAt(s, t, Returned);
        assert StopAt(s', t, Returned);
      }
      if t :| StopAt(s', t, Returned) && !e.Clear? {
        assert StopAt(s, t, Returned);
      }
    }
  }

  predicate PastWait(s: State, t: StopId) {
    t in s.stops && (s.stops[t].Waited? || s.stops[t].Drained? || s.stops[t].Returned?)
  }

  lemma {:induction false} WaitHappened(es: seq<Event>, t: StopId) returns (i: nat)
    requires Run(es).Some? && PastWait(Run(es).value, t)
    ensures i < |es| && es[i] == Wait(t)
  {
    var p := es[..|es|-1];
    if es[|es|-1] == Wait(t) { i := |es| - 1; } else { i := WaitHappened(p, t); }
  }

  /** Callback `c` met a connection at its guard, event `j`, and has not finished since. */
  ghost predicate Entered(es: seq<Event>, c: CallbackId, j: nat) {
    && j < |es| && es[j] == Guard(c) && Run(es[..j]).Some? && Run(es[..j]).value.conn
    && forall m :: j < m < |es| ==> es[m] != Finish(c)
  }

  lemma EnteredMore(es: seq<Event>, e: Event, c: CallbackId, j: nat)
    requires Entered(es, c, j) && e != Finish(c)
    ensures Entered(es + [e], c, j)
  {
    assert (es + [e])[..j] == es[..j];
  }

  /** A callback is active exactly when it entered and has not finished. */
  lemma {:induction false} EnteredIsActive(es: seq<Event>, c: CallbackId, j: nat)
    requires Run(es).Some? && Entered(es, c, j)
    ensures CallbackAt(Run(es).value, c, Active)
  {
    var p := es[..|es|-1];
    if j < |p| {
      assert p[..j] == es[..j];
      assert forall m :: j < m < |p| ==> p[m] == es[m];
      EnteredIsActive(p, c, j);
    }
  }

  /** The wait cannot end while a handler is active. */
  lemma NoWaitWhileActive(es: seq<Event>, t: StopId, c: CallbackId)
    requires Run(es).Some? && CallbackAt(Run(es).value, c, Active)
    ensures Apply(Run(es).value, Wait(t)).None?
  {
    WaitGroupCountsActive(es);
    assert c in ActiveCallbacks(Run(es).value.callbacks);
  }

  /** A handler running once a Stop has waited passed the guard after that wait. */
  lemma {:induction false} ActiveAfterWait(es: seq<Event>, t: StopId, c: CallbackId) returns (i: nat, j: nat)
    requires Run(es).Some? && PastWait(Run(es).value, t) && CallbackAt(Run(es).value, c, Active)
    ensures i < j < |es| && es[i] == Wait(t) && Entered(es, c, j)
  {
    var p, e := es[..|es|-1], es[|es|-1];
    if e == Guard(c) {
      i := WaitHappened(p, t);
      j := |es| - 1;
    } else {
      NoWaitWhileActive(p, t, c);
      i, j := ActiveAfterWait(p, t, c);
      EnteredMore(p, e, c, j);
      assert p + [e] == es;
    }
  }

  /** Event `i` is the end of Stop `t`'s wait, `j` the guard at which `c` entered, never to finish, and `k` the
      clearing of the connection by `t`. */
  ghost predicate EnteredInWindow(es: seq<Event>, t: StopId, c: CallbackId, i: nat, j: nat, k: nat) {
    i < j < k < |es| && es[i] == Wait(t) && Entered(es, c, j) && es[k] == Clear(t)
  }

  lemma {:induction false} LateHandlerPassedInWindow(es: seq<Event>, t: StopId, c: CallbackId)
    returns (i: nat, j: nat, k: nat)
    requires Run(es).Some? && StopAt(Run(es).value, t, Returned) && CallbackAt(Run(es).value, c, Active)
    ensures EnteredInWindow(es, t, c, i, j, k)
  {
    var p, e := es[..|es|-1], es[|es|-1];
    if e == Clear(t) {
      i, j := ActiveAfterWait(p, t, c);
      k := |es| - 1;
    } else {
      assert StopAt(Run(p).value, t, Returned);
      ConnectionGoneOnceReturned(p);
      i, j, k := LateHandlerPassedInWindow(p, t, c);
    }
    EnteredMore(p, e, c, j);
    assert p + [e] == es;
  }

  ghost predicate Outlives(es: seq<Event>, t: StopId, c: CallbackId) {
    exists i: nat, j: nat, k: nat :: EnteredInWindow(es, t, c, i, j, k)
  }

  /** Once a Stop has returned, a handler is running exactly when its callback met a connection between that
      Stop's wait and its clearing of the connection, and has not finished since. */
  lemma AliveAfterStop(es: seq<Event>, t: StopId, c: CallbackId)
    requires Run(es).Some? && StopAt(Run(es).value, t, Returned)
    ensures CallbackAt(Run(es).value, c, Active) <==> Outlives(es, t, c)
  {
    if CallbackAt(Run(es).value, c, Active) {
      var i, j, k := LateHandlerPassedInWindow(es, t, c);
    }
    if i: nat, j: nat, k: nat :| EnteredInWindow(es, t, c, i, j, k) {
      EnteredIsActive(es, c, j);
    }
  }

  /** So Stop has waited for every handler exactly when no callback outlives it in that way; a callback that is
      turned away in the window, or finishes, does no harm. */
  lemma StopWaitsForHandlers(es: seq<Event>, t: StopId)
    requires Run(es).Some? && StopAt(Run(es).value, t, Returned)
    ensures var active := ActiveCallbacks(Run(es).value.callbacks);
            (active == {} <==> Run(es).value.wg == 0) && (active == {} <==> forall c :: !Outlives(es, t, c))
  {
    WaitGroupCountsActive(es);
    forall c ensures c in ActiveCallbacks(Run(es).value.callbacks) <==> Outlives(es, t, c) {
      AliveAfterStop(es, t, c);
    }
  }

  lemma Next(es: seq<Event>, e: Event)
    requires Run(es).Some?
    ensures Run(es + [e]) == Apply(Run(es).value, e)
  {
    assert (es + [e])[..|es|] == es;
  }

  /** The window is real: a handler can outlive Stop. */
  lemma HandlerCanOutliveStop() returns (es: seq<Event>)
    ensures Run(es).Some? && StopAt(Run(es).value, 0, Returned) && CallbackAt(Run(es).value, 0, Active)
  {
    Next([], BeginStop(0));
    es := [] + [BeginStop(0)];
    Next(es, Wait(0));
    es := es + [Wait(0)];
    Next(es, Dispatch(0));
    es := es + [Dispatch(0)];
    Next(es, Guard(0));
    es := es + [Guard(0)];
    Next(es, Drain(0));
    es := es + [Drain(0)];
    Next(es, Clear(0));
    es := es + [Clear(0)];
  }
}
